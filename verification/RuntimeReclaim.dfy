/** When the locks stop excluding: exactly when a process is about to remove a lock file that is not
    that of a stopped process, or that another process is about to remove too. */
module RuntimeReclaim {
  import opened Common
  import opened RuntimeModel
  import opened RuntimeInvariant
  import opened RuntimeSolo
  import opened RuntimeExclusion

  // ----- orderly stays orderly -----

  lemma QuietStep(env: Env, me: nat, w: World, p: Proc, c: Choice)
    requires DiskSafe(env, w.disk) && Knows(env, w.disk, p) && !c.stale
    ensures !Step(env, me, w, p, c).1.pc.RemoveLog? && !Step(env, me, w, p, c).1.pc.RemoveMeta?
  {
  }

  /** A lock file that is about to be removed, orderly, is not touched by anyone else. */
  lemma AbandonedStays(w: World, w': World, me: nat, dead: set<nat>, pc: Pc, p: Proc)
    requires Guarantee(w, w', me, dead, pc) && me !in dead && Reclaims(w, p, dead) && !BothRemove(pc, p.pc)
    ensures Reclaims(w', p, dead)
  {
  }

  lemma QuietRun(env: Env, s: State, pid: nat, c: Choice)
    requires Inv(env, s) && Orderly(s) && pid in s.procs && !s.procs[pid].pc.Crashed? && !c.stale
    ensures Orderly(Apply(env, s, Run(pid, c)))
  {
    var dead, p, t := Dead(s), s.procs[pid], Apply(env, s, Run(pid, c));
    QuietStep(env, pid, s.world, p, c);
    StepPreserves(env, s.world, pid, p, c, dead);
    OnlyCrashesKill(env, pid, s.world, p, c);
    assert Dead(t) == dead;
    forall q | q in t.procs ensures Reclaims(t.world, t.procs[q], dead) {
      if q != pid { AbandonedStays(s.world, t.world, pid, dead, p.pc, s.procs[q]); }
    }
  }

  lemma SpawnStaysOrderly(env: Env, s: State, pid: nat, task: Task)
    requires Orderly(s)
    ensures Orderly(Apply(env, s, Spawn(pid, task)))
  {
    assert Dead(Apply(env, s, Spawn(pid, task))) == Dead(s);
  }

  lemma CrashStaysOrderly(env: Env, s: State, pid: nat)
    requires Orderly(s)
    ensures Orderly(Apply(env, s, Crash(pid)))
  {
    var t := Apply(env, s, Crash(pid));
    assert Dead(s) <= Dead(t);
    assert forall q :: q in t.procs ==> t.procs[q] == s.procs[q] || t.procs[q].pc.Crashed?;
  }

  lemma QuietApply(env: Env, s: State, a: Action)
    requires Inv(env, s) && Orderly(s) && (a.Run? ==> !a.choice.stale)
    ensures Orderly(Apply(env, s, a))
  {
    match a
    case Spawn(pid, task) => SpawnStaysOrderly(env, s, pid, task);
    case Crash(pid) => CrashStaysOrderly(env, s, pid);
    case Run(pid, c) =>
      if pid in s.procs && !s.procs[pid].pc.Crashed? {
        QuietRun(env, s, pid, c);
      } else {
        assert Apply(env, s, a) == s;
      }
  }

  lemma OrderlySnoc(env: Env, actions: seq<Action>, a: Action)
    requires OrderlyRun(env, actions) && Orderly(RunAll(env, actions))
    ensures OrderlyRun(env, actions + [a])
  {
    assert (actions + [a])[..|actions + [a]| - 1] == actions;
  }

  lemma QuietSnoc(env: Env, actions: seq<Action>, a: Action)
    requires OrderlyRun(env, actions) && Orderly(RunAll(env, actions)) && (a.Run? ==> !a.choice.stale)
    ensures OrderlyRun(env, actions + [a]) && Orderly(RunAll(env, actions + [a]))
  {
    RunPreserves(env, actions);
    QuietApply(env, RunAll(env, actions), a);
    RunSnoc(env, actions, a);
    OrderlySnoc(env, actions, a);
  }

  lemma {:induction false} QuietRunStaysOrderly(env: Env, actions: seq<Action>, more: seq<Action>)
    requires OrderlyRun(env, actions) && Orderly(RunAll(env, actions)) && Quiet(more)
    ensures OrderlyRun(env, actions + more) && Orderly(RunAll(env, actions + more))
    decreases |more|
  {
    if more == [] {
      assert actions + more == actions;
    } else {
      var most, last := more[..|more| - 1], more[|more| - 1];
      assert more == most + [last] && Quiet(most);
      Associate(actions, most, [last]);
      QuietRunStaysOrderly(env, actions, most);
      QuietSnoc(env, actions + most, last);
    }
  }

  // ----- disorder loses a lock -----

  /** A choice that gives up nothing and finds nothing old. */
  function Idle(): Choice { Choice(false, false, [], seq(32, _ => 0)) }

  /** Removing a lock file and creating it again, without interruption, always succeeds. */
  lemma ReclaimSucceeds(env: Env, me: nat, w: World, p: Proc, c: Choice)
    requires p.pc.RemoveLog? || p.pc.RemoveMeta?
    ensures var p' := Solo(env, me, w, p, [c, c]).1;
            if p.pc.RemoveLog? then HoldsLog(p'.pc) else HoldsMeta(p'.pc)
  {
    var (w1, p1) := Step(env, me, w, p, c);
    var (w2, p2) := Step(env, me, w1, p1, c);
    assert [c, c][1..] == [c] && [c][1..] == [];
    assert Solo(env, me, w1, p1, [c]) == Solo(env, me, w2, p2, []) == (w2, p2);
  }

  /** Process `pid` went from removing a lock file to owning the lock; nobody else moved. */
  ghost predicate Reclaimed(s: State, t: State, pid: nat) {
    && pid in s.procs && t.procs.Keys == s.procs.Keys
    && (forall k :: k in s.procs && k != pid ==> t.procs[k] == s.procs[k])
    && (s.procs[pid].pc.RemoveLog? ==> HoldsLog(t.procs[pid].pc))
    && (s.procs[pid].pc.RemoveMeta? ==> HoldsMeta(t.procs[pid].pc))
  }

  lemma ReclaimTurns(env: Env, actions: seq<Action>, pid: nat) returns (more: seq<Action>)
    requires pid in RunAll(env, actions).procs
    requires RunAll(env, actions).procs[pid].pc.RemoveLog? || RunAll(env, actions).procs[pid].pc.RemoveMeta?
    ensures Quiet(more) && Reclaimed(RunAll(env, actions), RunAll(env, actions + more), pid)
  {
    var s, c := RunAll(env, actions), Idle();
    more := Turns(pid, [c, c]);
    TurnsAreQuiet(pid, [c, c], c);
    TurnsAreSolo(env, actions, pid, [c, c]);
    ReclaimSucceeds(env, pid, s.world, s.procs[pid], c);
  }

  /** One process owns the lock whose file the other is about to remove. */
  predicate RemovesFrom(owner: Pc, remover: Pc) {
    (remover.RemoveLog? && HoldsLog(owner)) || (remover.RemoveMeta? && HoldsMeta(owner))
  }

  /** The remover then owns the lock too, whoever is looking at the file. */
  lemma RemoverBecomesOwner(env: Env, actions: seq<Action>, owner: nat, remover: nat) returns (more: seq<Action>)
    requires owner in RunAll(env, actions).procs && remover in RunAll(env, actions).procs
    requires RemovesFrom(RunAll(env, actions).procs[owner].pc, RunAll(env, actions).procs[remover].pc)
    ensures Quiet(more) && !Exclusive(RunAll(env, actions + more))
  {
    more := ReclaimTurns(env, actions, remover);
    var s, t := RunAll(env, actions), RunAll(env, actions + more);
    assert owner != remover && t.procs[owner] == s.procs[owner];
  }

  /** Two removers of one lock file: the second removes what the first has just created. */
  lemma TwoRemoversBothOwn(env: Env, actions: seq<Action>, p: nat, q: nat) returns (more: seq<Action>)
    requires p in RunAll(env, actions).procs && q in RunAll(env, actions).procs && p != q
    requires BothRemove(RunAll(env, actions).procs[p].pc, RunAll(env, actions).procs[q].pc)
    ensures Quiet(more) && !Exclusive(RunAll(env, actions + more))
  {
    var first := ReclaimTurns(env, actions, p);
    var second := RemoverBecomesOwner(env, actions + first, p, q);
    more := first + second;
    Associate(actions, first, second);
  }

  lemma {:induction false} FreshPid(pids: set<nat>) returns (fresh': nat)
    ensures forall k :: k in pids ==> k < fresh'
  {
    if pids == {} {
      fresh' := 0;
    } else {
      var k :| k in pids;
      var rest := FreshPid(pids - {k});
      fresh' := if k < rest then rest else k + 1;
      assert forall j :: j in pids ==> j == k || j in pids - {k};
    }
  }

  lemma LegacyIsOk(env: Env, d: Disk, p: Proc)
    requires DiskSafe(env, d) && Knows(env, d, p) && (p.pc.RemoveLog? || p.pc.RemoveMeta?)
    ensures LegacyOk(env) && (p.pc.RemoveMeta? ==> d.metadata.Some?)
  {
  }

  /** Where there is no log lock, a new process takes it. */
  lemma NewLogOwner(env: Env, actions: seq<Action>, me: nat) returns (more: seq<Action>)
    requires LegacyOk(env) && me !in RunAll(env, actions).procs && RunAll(env, actions).world.logLock.None?
    ensures var s, t := RunAll(env, actions), RunAll(env, actions + more);
            && Quiet(more) && me in t.procs && HoldsLog(t.procs[me].pc)
            && forall k :: k in s.procs ==> k in t.procs && t.procs[k] == s.procs[k]
  {
    var near, p := Approaches(env, actions, Idle(), me);
    RunSnoc(env, actions + near, Run(me, Idle()));
    more := near + [Run(me, Idle())];
    Associate(actions, near, [Run(me, Idle())]);
  }

  /** The same for the metadata lock. */
  lemma NewMetaOwner(env: Env, actions: seq<Action>, me: nat) returns (more: seq<Action>)
    requires me !in RunAll(env, actions).procs
    requires RunAll(env, actions).world.metaLock.None? && RunAll(env, actions).world.disk.metadata.Some?
    ensures var s, t := RunAll(env, actions), RunAll(env, actions + more);
            && Quiet(more) && me in t.procs && HoldsMeta(t.procs[me].pc)
            && forall k :: k in s.procs ==> k in t.procs && t.procs[k] == s.procs[k]
  {
    var spawn, s, c := [Spawn(me, Identity)], RunAll(env, actions), Idle();
    SpawnStarts(env, actions, me, Identity);
    RunIsSafe(env, actions);
    var w, p := IdentityGetsLock(env, me, c, s.world);
    var turns := RunGets(env, actions + spawn, me, c, w, p);
    more := spawn + turns;
    Associate(actions, spawn, turns);
  }

  /** An identity call on prepared files, alone, until it owns the metadata lock. */
  lemma IdentityGetsLock(env: Env, me: nat, c: Choice, w: World) returns (w': World, p': Proc)
    requires DiskSafe(env, w.disk) && w.disk.metadata.Some? && w.metaLock.None?
    ensures Gets(env, me, c, w, Start(Identity), w', p')
    ensures w' == w.(metaLock := Some(me)) && p' == Goto(Start(Identity), ReadMeta)
  {
    var p := Start(Identity);
    var p1 := Goto(p, AcquireMeta);
    w', p' := w.(metaLock := Some(me)), Goto(p, ReadMeta);
    GetsHere(env, me, c, w', p');
    StepGets(env, me, c, w, p1, w', p', w', p');
    StepGets(env, me, c, w, p, w, p1, w', p');
  }

  /** One process about to remove a file that is not a stopped process's: its owner is there, or
      there is no file and a new process can take the lock first. */
  lemma WrongRemovalLoses(env: Env, actions: seq<Action>, p: nat) returns (more: seq<Action>)
    requires Inv(env, RunAll(env, actions)) && p in RunAll(env, actions).procs
    requires var s := RunAll(env, actions); !Reclaims(s.world, s.procs[p], Dead(s))
    ensures Quiet(more) && !Exclusive(RunAll(env, actions + more))
  {
    var s := RunAll(env, actions);
    LegacyIsOk(env, s.world.disk, s.procs[p]);
    var file := if s.procs[p].pc.RemoveLog? then s.world.logLock else s.world.metaLock;
    if file.Some? {
      more := RemoverBecomesOwner(env, actions, file.value, p);
    } else {
      var me := FreshPid(s.procs.Keys);
      var first;
      if s.procs[p].pc.RemoveLog? {
        first := NewLogOwner(env, actions, me);
      } else {
        first := NewMetaOwner(env, actions, me);
      }
      var second := RemoverBecomesOwner(env, actions + first, me, p);
      more := first + second;
      Associate(actions, first, second);
    }
  }

  /** Exclusion can be lost without anyone finding another lock file old. */
  ghost predicate CanLoseExclusion(env: Env, actions: seq<Action>) {
    exists more :: Quiet(more) && !Exclusive(RunAll(env, actions + more))
  }

  /** Exclusion is exact: after an orderly run, some such continuation gives one lock to two
      processes if and only if the state is no longer orderly. */
  lemma ExclusionLostIff(env: Env, actions: seq<Action>)
    requires OrderlyRun(env, actions)
    ensures CanLoseExclusion(env, actions) <==> !Orderly(RunAll(env, actions))
  {
    var s := RunAll(env, actions);
    if Orderly(s) {
      forall more | Quiet(more) ensures Exclusive(RunAll(env, actions + more)) {
        QuietRunStaysOrderly(env, actions, more);
        MutualExclusion(env, actions + more);
      }
    } else if p :| p in s.procs && !Reclaims(s.world, s.procs[p], Dead(s)) {
      RunPreserves(env, actions);
      var more := WrongRemovalLoses(env, actions, p);
    } else {
      var p, q :| p in s.procs && q in s.procs && p != q && BothRemove(s.procs[p].pc, s.procs[q].pc);
      var more := TwoRemoversBothOwn(env, actions, p, q);
    }
  }
}
