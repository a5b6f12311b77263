/** Runs worth knowing: a sound migration replay that reports a conflict, and, where reclaims are not
    orderly, an identity that is lost and two identities that differ. */
module RuntimeRuns {
  import opened Common
  import opened Hex
  import opened RuntimeModel
  import opened RuntimeInvariant
  import opened RuntimeSolo
  import opened RuntimeExclusion
  import opened RuntimeReclaim
  import opened RuntimeTheorems
  import opened RuntimeRecovery

  predicate Explicitly(p: Proc) { p.task.Explicit? && !p.pc.RecheckPrepared? }

  /** Points that a migration passes: under the lock, comparing metadata, writing it. */
  predicate Milestone(d: Disk, k: nat) { k == 10 || k == 3 || (k == 2 && d.metadata.None?) }

  /** A migration takes its steps one by one: from before a milestone no step jumps past it. */
  lemma NoMilestoneSkipped(env: Env, me: nat, c: Choice, w: World, p: Proc, k: nat)
    requires OnTrack(env, w, me, p) && Explicitly(p) && LegacyOk(env) && Milestone(w.disk, k) && StepsLeft(p.pc) > k
    ensures var (w', p') := Step(env, me, w, p, c);
            && StepsLeft(p'.pc) >= k && Milestone(w'.disk, k) && Explicitly(p')
            && (k == 10 ==> w'.disk == w.disk) && (w.disk.metadata.Some? <==> w'.disk.metadata.Some?)
  {
    if p.pc.ReadLegacy? || p.pc.ReadSnapshot? { ValidateIsSafe(env, w.disk, p); }
  }

  /** So, alone, an explicit migration gets to each milestone. */
  lemma {:induction false} MigrationGets(env: Env, me: nat, c: Choice, w: World, p: Proc, k: nat)
    returns (w': World, p': Proc)
    requires OnTrack(env, w, me, p) && Explicitly(p) && LegacyOk(env) && Milestone(w.disk, k) && StepsLeft(p.pc) >= k
    ensures Gets(env, me, c, w, p, w', p') && OnTrack(env, w', me, p') && StepsLeft(p'.pc) == k && Explicitly(p')
    ensures Complete(env, w'.disk) == Complete(env, w.disk) && w'.metaLock == w.metaLock
    ensures (k == 10 ==> w'.disk == w.disk) && (w.disk.metadata.Some? <==> w'.disk.metadata.Some?)
    decreases StepsLeft(p.pc)
  {
    if StepsLeft(p.pc) == k {
      w', p' := w, p;
      GetsHere(env, me, c, w, p);
    } else {
      var (w1, p1) := Step(env, me, w, p, c);
      SoloProgress(env, me, w, p, c);
      StepKeepsCompletion(env, me, w, p, c);
      StepKeepsTask(env, me, w, p, c);
      NoMilestoneSkipped(env, me, c, w, p, k);
      w', p' := MigrationGets(env, me, c, w1, p1, k);
      StepGets(env, me, c, w, p, w1, p1, w', p');
    }
  }

  /** A migration from the start, alone. */
  lemma MigrationGetsDone(env: Env, me: nat, c: Choice, w: World, p: Proc) returns (w': World, p': Proc)
    requires OnTrack(env, w, me, p) && StepsLeft(p.pc) > 0 && LegacyOk(env)
    ensures Gets(env, me, c, w, p, w', p') && Completed(env, w, w', p')
  {
    var choices := seq(MIGRATION_STEPS, _ => c);
    SoloCompletes(env, me, w, p, choices);
    var end := Solo(env, me, w, p, choices);
    w', p' := end.0, end.1;
    assert AllSame(choices, c);
  }

  /** An identity call about to write its identity, to its end. */
  lemma IdentityFinishes(env: Env, me: nat, c: Choice, w: World, p: Proc) returns (w': World, p': Proc)
    requires p.pc.WriteIdentity?
    ensures Gets(env, me, c, w, p, w', p') && p' == p.(pc := Done, next := Done)
    ensures w' == w.(disk := w.disk.(metadata := Some(p.metadata)), metaLock := None)
  {
    var w1, p1 := w.(disk := w.disk.(metadata := Some(p.metadata))), p.(pc := ReleaseMeta, next := Done);
    w', p' := w1.(metaLock := None), Goto(p1, Done);
    GetsHere(env, me, c, w', p');
    StepGets(env, me, c, w1, p1, w', p', w', p');
    StepGets(env, me, c, w, p, w1, p1, w', p');
  }

  /** The point where an identity call has read metadata without an identity. */
  function Chooses(d: Disk, p: Proc, c: Choice): Proc
    requires d.metadata.Some?
  {
    var id := ToHex(c.entropy);
    p.(pc := WriteIdentity, id := id, metadata := d.metadata.value.(repositoryId := Some(id)))
  }

  /** An identity call that owns the metadata lock records an identity where there is none. */
  lemma IdentityWrites(env: Env, me: nat, c: Choice, w: World, p: Proc) returns (w': World, p': Proc)
    requires p.pc.ReadMeta? && w.disk.metadata.Some? && w.disk.metadata.value.repositoryId.None?
    ensures Gets(env, me, c, w, p, w', p') && p'.pc.Done? && p'.id == ToHex(c.entropy) && p'.task == p.task
    ensures Recorded(w'.disk, ToHex(c.entropy)) && w'.metaLock.None? && w'.logLock == w.logLock
  {
    var p1 := Chooses(w.disk, p, c);
    w', p' := IdentityFinishes(env, me, c, w, p1);
    StepGets(env, me, c, w, p, w, p1, w', p');
  }

  /** An identity call from the start, alone, on prepared files that hold no identity. */
  lemma IdentityGets(env: Env, me: nat, c: Choice, w: World) returns (w': World, p': Proc)
    requires DiskSafe(env, w.disk) && w.disk.metadata.Some? && w.disk.metadata.value.repositoryId.None?
    requires w.metaLock.None?
    ensures Gets(env, me, c, w, Start(Identity), w', p') && Recorded(w'.disk, ToHex(c.entropy))
  {
    var w1, p1 := IdentityGetsLock(env, me, c, w);
    w', p' := IdentityWrites(env, me, c, w1, p1);
    GetsTransitive(env, me, c, w, Start(Identity), w1, p1, w', p');
  }

  // ----- as runs -----

  ghost predicate Migrated(env: Env, s: State) {
    && s.world == World(Complete(env, FRESH_DISK), None, None) && s.procs.Keys == {0} && s.procs[0].pc.Done?
  }

  /** One migration of a fresh directory, to its end. */
  lemma FirstMigration(env: Env, c: Choice) returns (actions: seq<Action>)
    requires LegacyOk(env) && !c.stale
    ensures Quiet(actions) && Migrated(env, RunAll(env, actions))
  {
    var spawn := [Spawn(0, Explicit)];
    SpawnStarts(env, [], 0, Explicit);
    assert [] + spawn == spawn;
    var s := RunAll(env, spawn);
    var w, p := MigrationGetsDone(env, 0, c, s.world, s.procs[0]);
    var more := RunGets(env, spawn, 0, c, w, p);
    actions := spawn + more;
  }

  /** A second migration on top of it, up to its last look at the metadata. */
  lemma SecondMigration(env: Env, c: Choice) returns (actions: seq<Action>)
    requires LegacyOk(env) && !c.stale
    ensures Quiet(actions)
    ensures var s := RunAll(env, actions);
            && s.procs.Keys == {0, 1} && s.procs[1].pc.CompareMetadata? && s.procs[1].metadata.repositoryId.None?
            && s.world.disk == Complete(env, FRESH_DISK) && s.world.metaLock.None?
  {
    var first := FirstMigration(env, c);
    SpawnStarts(env, first, 1, Explicit);
    var spawned := first + [Spawn(1, Explicit)];
    RunIsSafe(env, spawned);
    var s := RunAll(env, spawned);
    var w, p := MigrationGets(env, 1, c, s.world, s.procs[1], 3);
    CompletedIsComplete(env, w.disk);
    var more := RunGets(env, spawned, 1, c, w, p);
    actions := spawned + more;
  }

  /** A new process records an identity; nobody else moves. */
  lemma Identifies(env: Env, actions: seq<Action>, c: Choice, me: nat) returns (more: seq<Action>)
    requires var s := RunAll(env, actions);
             && me !in s.procs && s.world.metaLock.None?
             && s.world.disk.metadata.Some? && s.world.disk.metadata.value.repositoryId.None?
    ensures var s, t := RunAll(env, actions), RunAll(env, actions + more);
            && Recorded(t.world.disk, ToHex(c.entropy))
            && forall k :: k in s.procs ==> k in t.procs && t.procs[k] == s.procs[k]
    ensures !c.stale ==> Quiet(more)
  {
    SpawnStarts(env, actions, me, Identity);
    var spawned := actions + [Spawn(me, Identity)];
    RunIsSafe(env, spawned);
    var s := RunAll(env, spawned);
    var w, p := IdentityGets(env, me, c, s.world);
    var turns := RunGets(env, spawned, me, c, w, p);
    more := [Spawn(me, Identity)] + turns;
    Associate(actions, [Spawn(me, Identity)], turns);
  }

  /** A replay on sound files is reported as blocked: an identity call slips in between the replay's
      last two looks at the metadata. No lock file is found old in this run. */
  lemma SoundReplayIsBlocked(env: Env, c: Choice) returns (actions: seq<Action>)
    requires LegacyOk(env) && !c.stale
    ensures OrderlyRun(env, actions)
    ensures var s := RunAll(env, actions);
            1 in s.procs && s.procs[1].pc.CompareMetadata? && FailsNext(env, s, 1, c)
  {
    var second := SecondMigration(env, c);
    var more := Identifies(env, second, c, 2);
    actions := second + more;
    assert [] + actions == actions;
    QuietRunStaysOrderly(env, [], actions);
    ReplayBlockedIff(env, actions, 1, c);
  }

  // ----- a lock file is removed by two -----

  /** One more explicit migration starts and finds the log's lock file old. */
  lemma FindsOld(env: Env, actions: seq<Action>, c: Choice, me: nat) returns (more: seq<Action>, p: Proc)
    requires LegacyOk(env) && !c.stale && OrderlyRun(env, actions) && Orderly(RunAll(env, actions))
    requires me !in RunAll(env, actions).procs && RunAll(env, actions).world.logLock.Some?
    ensures OrderlyRun(env, actions + more) && p.pc.RemoveLog? && p.task.Explicit?
    ensures var s := RunAll(env, actions); RunAll(env, actions + more) == State(s.world, s.procs[me := p])
  {
    var near, p0 := Approaches(env, actions, c, me);
    QuietRunStaysOrderly(env, actions, near);
    var look := Run(me, c.(stale := true));
    RunSnoc(env, actions + near, look);
    OrderlySnoc(env, actions + near, look);
    p := Goto(p0, RemoveLog);
    LookFinds(env, RunAll(env, actions), me, p0, look.choice);
    more := near + [look];
    Associate(actions, near, [look]);
  }

  lemma LookFinds(env: Env, s: State, me: nat, p: Proc, c: Choice)
    requires p.pc.AcquireLog? && p.task.Explicit? && c.stale && s.world.logLock.Some?
    ensures Apply(env, State(s.world, s.procs[me := p]), Run(me, c)) ==
            State(s.world, s.procs[me := Goto(p, RemoveLog)])
  {
    var p' := Goto(p, RemoveLog);
    assert Step(env, me, s.world, p, c) == (s.world, p');
    assert s.procs[me := p][me := p'] == s.procs[me := p'];
  }

  /** The first process stopped under the lock; the others found its lock file old. */
  ghost predicate Abandonment(s: State, reclaimers: set<nat>) {
    && s.world == World(FRESH_DISK, Some(0), None) && 0 !in reclaimers
    && s.procs.Keys == {0} + reclaimers && s.procs[0].pc.Crashed?
    && forall k :: k in reclaimers ==> s.procs[k].pc.RemoveLog? && s.procs[k].task.Explicit?
  }

  lemma Abandons(env: Env, c: Choice) returns (actions: seq<Action>)
    requires LegacyOk(env) && !c.stale
    ensures Quiet(actions) && Abandonment(RunAll(env, actions), {})
  {
    var spawn := [Spawn(0, Explicit)];
    SpawnStarts(env, [], 0, Explicit);
    assert [] + spawn == spawn;
    var s := RunAll(env, spawn);
    var w, p := MigrationGets(env, 0, c, s.world, s.procs[0], 10);
    var more := RunGets(env, spawn, 0, c, w, p);
    actions := spawn + more + [Crash(0)];
    RunSnoc(env, spawn + more, Crash(0));
  }

  lemma AbandonmentIsOrderly(s: State, k: nat)
    requires Abandonment(s, {}) || Abandonment(s, {k})
    ensures Orderly(s)
  {
    assert 0 in Dead(s);
  }

  /** Two processes meet at the lock file that a third one left behind. */
  lemma RemoversMeet(env: Env, c: Choice) returns (actions: seq<Action>)
    requires LegacyOk(env) && !c.stale
    ensures OrderlyRun(env, actions) && Abandonment(RunAll(env, actions), {1, 2})
  {
    var start := Abandons(env, c);
    assert [] + start == start;
    QuietRunStaysOrderly(env, [], start);
    var first, p := FindsOld(env, start, c, 1);
    AbandonmentIsOrderly(RunAll(env, start + first), 1);
    var second, q := FindsOld(env, start + first, c, 2);
    actions := start + first + second;
  }

  /** One of them reclaims the lock and pauses just before it writes the metadata. */
  lemma FirstReclaims(env: Env, actions: seq<Action>, c: Choice) returns (more: seq<Action>)
    requires LegacyOk(env) && Abandonment(RunAll(env, actions), {1, 2})
    ensures var s, t := RunAll(env, actions), RunAll(env, actions + more);
            && t.procs.Keys == {0, 1, 2} && t.procs[2] == s.procs[2]
            && t.procs[1].pc.WriteMetadata? && t.procs[1].metadata.repositoryId.None?
            && t.world.disk.metadata.None? && t.world.metaLock.None?
  {
    var s := RunAll(env, actions);
    RunIsSafe(env, actions);
    var w1, p1 := s.world.(logLock := None), Goto(s.procs[1], CreateLog);
    var w2, p2 := s.world.(logLock := Some(1)), Goto(s.procs[1], CheckSnapshot);
    var w, p := MigrationGets(env, 1, c, w2, p2, 2);
    StepGets(env, 1, c, w1, p1, w2, p2, w, p);
    StepGets(env, 1, c, s.world, s.procs[1], w1, p1, w, p);
    more := RunGets(env, actions, 1, c, w, p);
  }

  /** A process is about to remove the lock file of one that is about to write the metadata. */
  ghost predicate LateWriter(s: State) {
    && s.procs.Keys <= {0, 1, 2} && 1 in s.procs && 2 in s.procs
    && s.procs[1].pc.WriteMetadata? && s.procs[1].metadata.repositoryId.None?
    && s.procs[2].pc.RemoveLog? && s.procs[2].task.Explicit?
    && s.world.disk.metadata.None? && s.world.metaLock.None?
  }

  /** It reclaims the lock and completes the migration. */
  lemma OvertakesWriter(env: Env, actions: seq<Action>, c: Choice) returns (more: seq<Action>)
    requires LegacyOk(env) && LateWriter(RunAll(env, actions))
    ensures var s, t := RunAll(env, actions), RunAll(env, actions + more);
            && t.procs.Keys == s.procs.Keys && t.procs[1] == s.procs[1]
            && t.world.disk.metadata == Some(Unidentified(env)) && t.world.metaLock.None?
  {
    var s := RunAll(env, actions);
    RunIsSafe(env, actions);
    var w1, p1 := s.world.(logLock := None), Goto(s.procs[2], CreateLog);
    assert OnTrack(env, w1, 2, p1);
    var w, p := MigrationGetsDone(env, 2, c, w1, p1);
    StepGets(env, 2, c, s.world, s.procs[2], w1, p1, w, p);
    more := RunGets(env, actions, 2, c, w, p);
  }

  lemma LateWrite(env: Env, actions: seq<Action>, c: Choice)
    requires 1 in RunAll(env, actions).procs && RunAll(env, actions).procs[1].pc.WriteMetadata?
    ensures RunAll(env, actions + [Run(1, c)]).world.disk.metadata == Some(RunAll(env, actions).procs[1].metadata)
  {
    RunSnoc(env, actions, Run(1, c));
  }

  /** An identity is recorded, and the late writer puts back metadata without it. */
  lemma LateWriterLoses(env: Env, met: seq<Action>, c: Choice) returns (more: seq<Action>)
    requires LegacyOk(env) && LateWriter(RunAll(env, met))
    ensures Recorded(RunAll(env, met + more).world.disk, ToHex(c.entropy))
    ensures LosesIdentity(RunAll(env, met + more + [Run(1, c)]))
  {
    var done := OvertakesWriter(env, met, c);
    var named := Identifies(env, met + done, c, 3);
    LateWrite(env, met + done + named, c);
    more := done + named;
    Associate(met, done, named);
  }

  ghost predicate LosesIdentity(s: State) {
    s.world.disk.metadata.Some? && s.world.disk.metadata.value.repositoryId.None?
  }

  lemma MeetingIsDisorderly(s: State)
    requires Abandonment(s, {1, 2})
    ensures !Orderly(s)
  {
    assert BothRemove(s.procs[1].pc, s.procs[2].pc);
  }

  /** Two removers: a recorded identity can be lost although the owner of the lock file had stopped. */
  lemma IdentityCanBeLost(env: Env, c: Choice) returns (met: seq<Action>, more: seq<Action>)
    requires LegacyOk(env) && !c.stale
    ensures OrderlyRun(env, met) && !Orderly(RunAll(env, met))
    ensures Recorded(RunAll(env, met + more).world.disk, ToHex(c.entropy))
    ensures LosesIdentity(RunAll(env, met + more + [Run(1, c)]))
  {
    met := RemoversMeet(env, c);
    MeetingIsDisorderly(RunAll(env, met));
    var first := FirstReclaims(env, met, c);
    var rest := LateWriterLoses(env, met + first, c);
    more := first + rest;
    Associate(met, first, rest);
  }

  // ----- a lock file is removed from a slow owner -----

  /** A migration that pauses, owning the lock, just before it writes the metadata. */
  lemma Pauses(env: Env, c: Choice) returns (actions: seq<Action>)
    requires LegacyOk(env) && !c.stale
    ensures Quiet(actions)
    ensures var s := RunAll(env, actions);
            && s.procs.Keys == {1} && s.procs[1].pc.WriteMetadata? && s.procs[1].metadata.repositoryId.None?
            && s.world.disk.metadata.None? && s.world.metaLock.None? && s.world.logLock == Some(1)
  {
    var spawn := [Spawn(1, Explicit)];
    SpawnStarts(env, [], 1, Explicit);
    assert [] + spawn == spawn;
    var s := RunAll(env, spawn);
    var w, p := MigrationGets(env, 1, c, s.world, s.procs[1], 2);
    var more := RunGets(env, spawn, 1, c, w, p);
    actions := spawn + more;
  }

  /** One remover: a recorded identity can be lost because age does not show that the owner stopped. */
  lemma SlowOwnerLosesIdentity(env: Env, c: Choice) returns (met: seq<Action>, more: seq<Action>)
    requires LegacyOk(env) && !c.stale
    ensures OrderlyRun(env, met) && !Orderly(RunAll(env, met)) && LateWriter(RunAll(env, met))
    ensures Recorded(RunAll(env, met + more).world.disk, ToHex(c.entropy))
    ensures LosesIdentity(RunAll(env, met + more + [Run(1, c)]))
  {
    var slow := Pauses(env, c);
    assert [] + slow == slow;
    QuietRunStaysOrderly(env, [], slow);
    var old', p := FindsOld(env, slow, c, 2);
    met := slow + old';
    assert !Reclaims(RunAll(env, met).world, RunAll(env, met).procs[2], Dead(RunAll(env, met)));
    more := LateWriterLoses(env, met, c);
  }

  // ----- two identities -----

  /** One identity call owns the metadata lock and has chosen its identity. */
  ghost predicate Chosen(env: Env, s: State, id: Bytes) {
    && s.world == World(Complete(env, FRESH_DISK), None, Some(1)) && s.procs.Keys == {0, 1}
    && s.procs[0].pc.Done? && s.procs[1].pc.WriteIdentity? && s.procs[1].task.Identity? && s.procs[1].id == id
  }

  lemma FirstChooses(env: Env, c: Choice) returns (actions: seq<Action>)
    requires LegacyOk(env) && !c.stale
    ensures Quiet(actions) && Chosen(env, RunAll(env, actions), ToHex(c.entropy))
  {
    var first := FirstMigration(env, c);
    SpawnStarts(env, first, 1, Identity);
    var spawned := first + [Spawn(1, Identity)];
    RunIsSafe(env, spawned);
    var s := RunAll(env, spawned);
    var w1, p1 := IdentityGetsLock(env, 1, c, s.world);
    var p := Chooses(w1.disk, p1, c);
    GetsHere(env, 1, c, w1, p);
    StepGets(env, 1, c, w1, p1, w1, p, w1, p);
    GetsTransitive(env, 1, c, s.world, Start(Identity), w1, p1, w1, p);
    var more := RunGets(env, spawned, 1, c, w1, p);
    actions := spawned + more;
  }

  /** Another one finds the lock file old. */
  lemma SecondFindsOld(env: Env, actions: seq<Action>, c: Choice, id: Bytes) returns (more: seq<Action>)
    requires !c.stale && Chosen(env, RunAll(env, actions), id)
    requires OrderlyRun(env, actions) && Orderly(RunAll(env, actions))
    ensures OrderlyRun(env, actions + more)
    ensures var s := RunAll(env, actions);
            RunAll(env, actions + more) == State(s.world, s.procs[2 := Goto(Start(Identity), RemoveMeta)])
  {
    var s, spawn, p := RunAll(env, actions), [Spawn(2, Identity)], Goto(Start(Identity), AcquireMeta);
    SpawnStarts(env, actions, 2, Identity);
    GetsHere(env, 2, c, s.world, p);
    StepGets(env, 2, c, s.world, Start(Identity), s.world, p, s.world, p);
    var turns := RunGets(env, actions + spawn, 2, c, s.world, p);
    assert s.procs[2 := Start(Identity)][2 := p] == s.procs[2 := p];
    var near, look := spawn + turns, Run(2, c.(stale := true));
    Associate(actions, spawn, turns);
    QuietRunStaysOrderly(env, actions, near);
    OrderlySnoc(env, actions + near, look);
    MetaLookFinds(env, s, 2, p, look.choice);
    RunSnoc(env, actions + near, look);
    more := near + [look];
    Associate(actions, near, [look]);
  }

  lemma MetaLookFinds(env: Env, s: State, me: nat, p: Proc, c: Choice)
    requires p.pc.AcquireMeta? && c.stale && s.world.metaLock.Some?
    ensures Apply(env, State(s.world, s.procs[me := p]), Run(me, c)) ==
            State(s.world, s.procs[me := Goto(p, RemoveMeta)])
  {
    var p' := Goto(p, RemoveMeta);
    assert Step(env, me, s.world, p, c) == (s.world, p');
    assert s.procs[me := p][me := p'] == s.procs[me := p'];
  }

  /** It reclaims the lock and records an identity of its own. */
  lemma SecondRecords(env: Env, actions: seq<Action>, d: Choice) returns (more: seq<Action>)
    requires var s := RunAll(env, actions);
             && 1 in s.procs && 2 in s.procs && s.procs[2] == Goto(Start(Identity), RemoveMeta)
             && s.world.disk.metadata.Some? && s.world.disk.metadata.value.repositoryId.None?
    ensures var s, t := RunAll(env, actions), RunAll(env, actions + more);
            1 in t.procs && t.procs[1] == s.procs[1] && Identified(t, 2) && t.procs[2].id == ToHex(d.entropy)
  {
    var s := RunAll(env, actions);
    var w1, p1 := s.world.(metaLock := None), Goto(Start(Identity), CreateMeta);
    var w2, p2 := s.world.(metaLock := Some(2)), Goto(Start(Identity), ReadMeta);
    var w, p := IdentityWrites(env, 2, d, w2, p2);
    StepGets(env, 2, d, w1, p1, w2, p2, w, p);
    StepGets(env, 2, d, s.world, s.procs[2], w1, p1, w, p);
    more := RunGets(env, actions, 2, d, w, p);
  }

  /** The first one goes on, writes its own and succeeds too. */
  lemma FirstRecords(env: Env, actions: seq<Action>, c: Choice) returns (more: seq<Action>)
    requires var s := RunAll(env, actions);
             1 in s.procs && s.procs[1].pc.WriteIdentity? && s.procs[1].task.Identity? && Identified(s, 2)
    ensures var s, t := RunAll(env, actions), RunAll(env, actions + more);
            && Identified(t, 1) && t.procs[1].id == s.procs[1].id
            && Identified(t, 2) && t.procs[2].id == s.procs[2].id
  {
    var s := RunAll(env, actions);
    var w, p := IdentityFinishes(env, 1, c, s.world, s.procs[1]);
    more := RunGets(env, actions, 1, c, w, p);
  }

  lemma HexDiffers(a: Bytes, b: Bytes)
    requires a != b
    ensures ToHex(a) != ToHex(b)
  {
    HexRoundTrip(a);
    HexRoundTrip(b);
  }

  /** Two identity calls succeed with different identities, when one removes the other's lock file. */
  lemma IdentitiesCanDiffer(env: Env, c: Choice, d: Choice) returns (met: seq<Action>, more: seq<Action>)
    requires LegacyOk(env) && !c.stale && c.entropy != d.entropy
    ensures OrderlyRun(env, met) && !Orderly(RunAll(env, met))
    ensures var s := RunAll(env, met + more);
            Identified(s, 1) && Identified(s, 2) && s.procs[1].id != s.procs[2].id
  {
    var first := FirstChooses(env, c);
    assert [] + first == first;
    QuietRunStaysOrderly(env, [], first);
    var look := SecondFindsOld(env, first, c, ToHex(c.entropy));
    met := first + look;
    assert !Reclaims(RunAll(env, met).world, RunAll(env, met).procs[2], Dead(RunAll(env, met)));
    var second := SecondRecords(env, met, d);
    var last := FirstRecords(env, met + second, c);
    HexDiffers(c.entropy, d.entropy);
    more := second + last;
    Associate(met, second, last);
  }
}
