/** A process that runs for a while without interruption, as part of a run. */
module RuntimeSolo {
  import opened Common
  import opened RuntimeModel
  import opened RuntimeInvariant

  /** A process running alone, one choice per step. */
  function Solo(env: Env, me: nat, w: World, p: Proc, choices: seq<Choice>): (World, Proc)
    decreases |choices|
  {
    if choices == [] then (w, p)
    else var (w', p') := Step(env, me, w, p, choices[0]); Solo(env, me, w', p', choices[1..])
  }

  /** Its steps as actions of a run. */
  function Turns(pid: nat, choices: seq<Choice>): seq<Action>
    decreases |choices|
  {
    if choices == [] then [] else [Run(pid, choices[0])] + Turns(pid, choices[1..])
  }

  /** The same choice at every step. */
  ghost predicate AllSame(choices: seq<Choice>, c: Choice) {
    forall i :: 0 <= i < |choices| ==> choices[i] == c
  }

  lemma OnlyCrashesKill(env: Env, me: nat, w: World, p: Proc, c: Choice)
    requires DiskSafe(env, w.disk) && Knows(env, w.disk, p)
    ensures Step(env, me, w, p, c).1.pc.Crashed? <==> p.pc.Crashed?
  {
  }

  lemma RunOne(env: Env, actions: seq<Action>, pid: nat, c: Choice)
    requires pid in RunAll(env, actions).procs && !RunAll(env, actions).procs[pid].pc.Crashed?
    ensures var s, t := RunAll(env, actions), RunAll(env, actions + [Run(pid, c)]);
            var (w, p) := Step(env, pid, s.world, s.procs[pid], c);
            t == State(w, s.procs[pid := p]) && !p.pc.Crashed?
  {
    var s := RunAll(env, actions);
    RunSnoc(env, actions, Run(pid, c));
    RunIsSafe(env, actions);
    OnlyCrashesKill(env, pid, s.world, s.procs[pid], c);
  }

  /** In a run, the steps of one process between those of others are that process running alone. */
  lemma {:induction false} TurnsAreSolo(env: Env, actions: seq<Action>, pid: nat, choices: seq<Choice>)
    requires pid in RunAll(env, actions).procs && !RunAll(env, actions).procs[pid].pc.Crashed?
    ensures var s := RunAll(env, actions);
            var (w, p) := Solo(env, pid, s.world, s.procs[pid], choices);
            RunAll(env, actions + Turns(pid, choices)) == State(w, s.procs[pid := p])
    decreases |choices|
  {
    var s := RunAll(env, actions);
    if choices == [] {
      assert actions + Turns(pid, choices) == actions;
      assert s.procs[pid := s.procs[pid]] == s.procs;
    } else {
      var next := actions + [Run(pid, choices[0])];
      RunOne(env, actions, pid, choices[0]);
      TurnsAreSolo(env, next, pid, choices[1..]);
      Associate(actions, [Run(pid, choices[0])], Turns(pid, choices[1..]));
      var t := RunAll(env, next);
      var last := Solo(env, pid, t.world, t.procs[pid], choices[1..]).1;
      assert t.procs[pid := last] == s.procs[pid := last];
    }
  }

  /** In these actions nobody finds a lock file old. */
  ghost predicate Quiet(actions: seq<Action>) {
    forall i :: 0 <= i < |actions| && actions[i].Run? ==> !actions[i].choice.stale
  }

  lemma {:induction false} TurnsAreQuiet(pid: nat, choices: seq<Choice>, c: Choice)
    requires AllSame(choices, c) && !c.stale
    ensures Quiet(Turns(pid, choices))
    decreases |choices|
  {
    if choices == [] {
    } else {
      TurnsAreQuiet(pid, choices[1..], c);
    }
  }

  /** A process alone gets from one point to another. */
  ghost predicate Gets(env: Env, me: nat, c: Choice, w: World, p: Proc, w': World, p': Proc) {
    exists choices :: AllSame(choices, c) && Solo(env, me, w, p, choices) == (w', p')
  }

  lemma GetsHere(env: Env, me: nat, c: Choice, w: World, p: Proc)
    ensures Gets(env, me, c, w, p, w, p)
  {
    var none: seq<Choice> := [];
    assert AllSame(none, c) && Solo(env, me, w, p, none) == (w, p);
  }

  lemma SoloCons(env: Env, me: nat, w: World, p: Proc, c: Choice, rest: seq<Choice>)
    ensures var (w1, p1) := Step(env, me, w, p, c);
            Solo(env, me, w, p, [c] + rest) == Solo(env, me, w1, p1, rest)
  {
    assert ([c] + rest)[1..] == rest;
  }

  lemma StepGets(env: Env, me: nat, c: Choice, w: World, p: Proc, w1: World, p1: Proc, w': World,
                 p': Proc)
    requires Step(env, me, w, p, c) == (w1, p1) && Gets(env, me, c, w1, p1, w', p')
    ensures Gets(env, me, c, w, p, w', p')
  {
    var rest :| AllSame(rest, c) && Solo(env, me, w1, p1, rest) == (w', p');
    SoloCons(env, me, w, p, c, rest);
    assert AllSame([c] + rest, c);
  }

  lemma GetsTransitive(env: Env, me: nat, c: Choice, w: World, p: Proc, w1: World, p1: Proc, w': World, p': Proc)
    requires Gets(env, me, c, w, p, w1, p1) && Gets(env, me, c, w1, p1, w', p')
    ensures Gets(env, me, c, w, p, w', p')
  {
    var first :| AllSame(first, c) && Solo(env, me, w, p, first) == (w1, p1);
    SoloGets(env, me, c, w, p, first, w', p');
  }

  lemma {:induction false} SoloGets(env: Env, me: nat, c: Choice, w: World, p: Proc, first: seq<Choice>,
                                    w': World, p': Proc)
    requires AllSame(first, c)
    requires var (w1, p1) := Solo(env, me, w, p, first); Gets(env, me, c, w1, p1, w', p')
    ensures Gets(env, me, c, w, p, w', p')
    decreases |first|
  {
    if first == [] {
    } else {
      var (w1, p1) := Step(env, me, w, p, c);
      SoloGets(env, me, c, w1, p1, first[1..], w', p');
      StepGets(env, me, c, w, p, w1, p1, w', p');
    }
  }

  /** What a process gets to alone, a run gets to by letting it run. */
  lemma RunGets(env: Env, actions: seq<Action>, pid: nat, c: Choice, w: World, p: Proc) returns (more: seq<Action>)
    requires pid in RunAll(env, actions).procs && !RunAll(env, actions).procs[pid].pc.Crashed?
    requires var s := RunAll(env, actions); Gets(env, pid, c, s.world, s.procs[pid], w, p)
    ensures RunAll(env, actions + more) == State(w, RunAll(env, actions).procs[pid := p])
    ensures !c.stale ==> Quiet(more)
  {
    var s := RunAll(env, actions);
    var choices :| AllSame(choices, c) && Solo(env, pid, s.world, s.procs[pid], choices) == (w, p);
    more := Turns(pid, choices);
    TurnsAreSolo(env, actions, pid, choices);
    if !c.stale { TurnsAreQuiet(pid, choices, c); }
  }

  lemma SpawnStarts(env: Env, actions: seq<Action>, pid: nat, task: Task)
    requires pid !in RunAll(env, actions).procs
    ensures var s := RunAll(env, actions);
            RunAll(env, actions + [Spawn(pid, task)]) == State(s.world, s.procs[pid := Start(task)])
  {
    RunSnoc(env, actions, Spawn(pid, task));
  }

  /** Whatever the lock, an explicit migration validates its input and gets to it. */
  lemma GetsToLock(env: Env, me: nat, c: Choice, w: World) returns (p: Proc)
    requires DiskSafe(env, w.disk) && LegacyOk(env)
    ensures Gets(env, me, c, w, Start(Explicit), w, p) && p.pc.AcquireLog? && p.task.Explicit?
  {
    var p0 := Start(Explicit);
    var p1 := StepValidate(env, w.disk, p0);
    ValidateIsSafe(env, w.disk, p0);
    ValidateIsSafe(env, w.disk, p1);
    p := StepValidate(env, w.disk, p1);
    GetsHere(env, me, c, w, p);
    StepGets(env, me, c, w, p1, w, p, w, p);
    StepGets(env, me, c, w, p0, w, p1, w, p);
  }

  /** One more process starts and gets to the lock. */
  lemma Approaches(env: Env, actions: seq<Action>, c: Choice, me: nat) returns (more: seq<Action>, p: Proc)
    requires LegacyOk(env) && !c.stale && me !in RunAll(env, actions).procs
    ensures Quiet(more) && p.pc.AcquireLog? && p.task.Explicit?
    ensures var s := RunAll(env, actions); RunAll(env, actions + more) == State(s.world, s.procs[me := p])
  {
    var s := RunAll(env, actions);
    var spawn := [Spawn(me, Explicit)];
    SpawnStarts(env, actions, me, Explicit);
    RunIsSafe(env, actions);
    p := GetsToLock(env, me, c, s.world);
    var turns := RunGets(env, actions + spawn, me, c, s.world, p);
    more := spawn + turns;
    Associate(actions, spawn, turns);
    assert s.procs[me := Start(Explicit)][me := p] == s.procs[me := p];
  }
}
