/** Crash recovery of the migration: wherever migrators stopped, running the migration again ends
    where one uninterrupted migration would have ended. */
module RuntimeRecovery {
  import opened Common
  import opened RuntimeModel
  import opened RuntimeInvariant
  import opened RuntimeSolo
  import opened RuntimeExclusion
  import opened RuntimeAlone

  /** The files that a completed migration leaves behind, given what is there already. */
  function Complete(env: Env, d: Disk): Disk {
    Disk(env.legacy, Some(CompleteLog(env, d.canonical)),
         if d.metadata.Some? then d.metadata else Some(Unidentified(env)))
  }

  /** Metadata as a first migration writes it. */
  function Unidentified(env: Env): Metadata { Metadata(LegacySource(env), LegacyDigest(env), None) }

  /** No step but an append and the recording of an identity changes what completion yields. */
  lemma StepKeepsCompletion(env: Env, me: nat, w: World, p: Proc, c: Choice)
    requires DiskSafe(env, w.disk) && Local(env, w, me, p) && !p.pc.WriteLog? && !p.pc.WriteIdentity?
    ensures Complete(env, Step(env, me, w, p, c).0.disk) == Complete(env, w.disk)
  {
    StepIsSafe(env, me, w, p, c);
  }

  // ----- migrators alone -----

  predicate IsMigrator(task: Task) { task.Explicit? || task.Bootstrap? }

  ghost predicate OnlyMigrators(actions: seq<Action>) {
    forall i :: 0 <= i < |actions| && actions[i].Spawn? ==> IsMigrator(actions[i].task)
  }

  /** What migrators alone can leave behind. */
  predicate Pristine(env: Env, d: Disk) {
    && (d.canonical.Some? ==> d.canonical.value == CompleteLog(env, None))
    && (d.metadata.Some? ==> d.metadata.value == Unidentified(env))
  }

  /** What a migrator among migrators is about to write. */
  predicate WritesPristine(env: Env, p: Proc) {
    && IsMigrator(p.task)
    && (p.pc.CheckCanonical? || p.pc.WriteCanonical? ==> p.log == CompleteLog(env, None))
    && (p.pc.CompareMetadata? || p.pc.WriteMetadata? ==> p.metadata == Unidentified(env))
  }

  ghost predicate AllPristine(env: Env, s: State) {
    && Safe(env, s) && Pristine(env, s.world.disk)
    && forall pid :: pid in s.procs ==> WritesPristine(env, s.procs[pid])
  }

  lemma StepStaysPristine(env: Env, me: nat, w: World, p: Proc, c: Choice)
    requires DiskSafe(env, w.disk) && Knows(env, w.disk, p) && Pristine(env, w.disk) && WritesPristine(env, p)
    ensures var (w', p') := Step(env, me, w, p, c); Pristine(env, w'.disk) && WritesPristine(env, p')
  {
    if p.pc.ReadLegacy? || p.pc.ReadSnapshot? { ValidateIsSafe(env, w.disk, p); }
  }

  /** However migrators interleave, wherever they crash, and whoever owns the lock, what remains to
      be done leads to the one result that a single uninterrupted migration reaches. */
  lemma {:induction false} MigratorsConverge(env: Env, actions: seq<Action>)
    requires OnlyMigrators(actions)
    ensures AllPristine(env, RunAll(env, actions))
    ensures Complete(env, RunAll(env, actions).world.disk) == Complete(env, FRESH_DISK)
  {
    if actions == [] {
    } else {
      var most, last := actions[..|actions| - 1], actions[|actions| - 1];
      assert OnlyMigrators(most);
      MigratorsConverge(env, most);
      var s := RunAll(env, most);
      ApplyIsSafe(env, s, last);
      if last.Run? && last.pid in s.procs {
        StepStaysPristine(env, last.pid, s.world, s.procs[last.pid], last.choice);
      }
    }
  }

  // ----- one migrator undisturbed -----

  /** How many steps of a migration are left at most. */
  function StepsLeft(pc: Pc): nat {
    match pc
    case CheckPrepared => 18
    case ReadLegacy => 17
    case ReadSnapshot => 16
    case AcquireLog => 15
    case RemoveLog => 14
    case CreateLog => 13
    case RecheckPrepared => 12
    case RecheckSource => 11
    case CheckSnapshot => 10
    case WriteSnapshot => 9
    case ReadCanonical => 8
    case CheckCanonical => 7
    case WriteCanonical => 6
    case ReadSource => 5
    case ReadIdentity => 4
    case CompareMetadata => 3
    case WriteMetadata => 2
    case ReleaseLog => 1
    case _ => 0
  }

  const MIGRATION_STEPS := 18

  /** A migrator that nothing interferes with: it is on its way to success. */
  predicate OnTrack(env: Env, w: World, me: nat, p: Proc) {
    && IsMigrator(p.task) && DiskSafe(env, w.disk) && Local(env, w, me, p)
    && (w.logLock.Some? <==> HoldsLog(p.pc))
    && !p.pc.Failed? && !p.pc.Crashed? && !p.pc.RemoveLog?
    && (p.pc.CompareMetadata? && w.disk.metadata.Some? ==> w.disk.metadata.value == p.metadata)
    && (p.pc.ReleaseLog? ==> p.next.Done?)
  }

  lemma PublishProgress(env: Env, w: World, me: nat, p: Proc)
    requires OnTrack(env, w, me, p) && Publishing(p.pc)
    ensures var (d', p') := StepPublish(env, w.disk, p);
            && 0 < StepsLeft(p'.pc) < StepsLeft(p.pc)
            && (p'.pc.CompareMetadata? && d'.metadata.Some? ==> d'.metadata.value == p'.metadata)
            && (p'.pc.ReleaseLog? ==> p'.next.Done?)
  {
  }

  lemma StepKeepsTask(env: Env, me: nat, w: World, p: Proc, c: Choice)
    ensures Step(env, me, w, p, c).1.task == p.task
  {
  }

  /** Undisturbed, every step brings a migration closer to success. */
  lemma SoloProgress(env: Env, me: nat, w: World, p: Proc, c: Choice)
    requires OnTrack(env, w, me, p) && !p.pc.Done? && LegacyOk(env)
    ensures var (w', p') := Step(env, me, w, p, c);
            && OnTrack(env, w', me, p') && w'.metaLock == w.metaLock
            && StepsLeft(p'.pc) < StepsLeft(p.pc) && (StepsLeft(p'.pc) == 0 ==> p'.pc.Done?)
  {
    StepIsSafe(env, me, w, p, c);
    StepPreserves(env, w, me, p, c, {});
    StepKeepsTask(env, me, w, p, c);
    if Publishing(p.pc) {
      PublishProgress(env, w, me, p);
    } else if p.pc.ReadLegacy? || p.pc.ReadSnapshot? {
      ValidateIsSafe(env, w.disk, p);
    }
  }

  /** Metadata that is in place marks a completed migration. */
  lemma CompletedIsComplete(env: Env, d: Disk)
    requires DiskSafe(env, d) && d.metadata.Some?
    ensures Complete(env, d) == d
  {
  }

  /** Success: done, the lock released, the files completed. */
  predicate Completed(env: Env, before: World, w: World, p: Proc) {
    p.pc.Done? && w == World(Complete(env, before.disk), None, before.metaLock)
  }

  lemma {:induction false} SoloCompletes(env: Env, me: nat, w: World, p: Proc, choices: seq<Choice>)
    requires OnTrack(env, w, me, p) && |choices| >= StepsLeft(p.pc) && (p.pc.Done? || StepsLeft(p.pc) > 0)
    requires LegacyOk(env)
    ensures var (w', p') := Solo(env, me, w, p, choices); Completed(env, w, w', p')
    decreases |choices|
  {
    if p.pc.Done? {
      SoloAtRest(env, me, w, p, choices);
      CompletedIsComplete(env, w.disk);
    } else {
      SoloProgress(env, me, w, p, choices[0]);
      StepKeepsCompletion(env, me, w, p, choices[0]);
      var (w', p') := Step(env, me, w, p, choices[0]);
      SoloCompletes(env, me, w', p', choices[1..]);
    }
  }

  lemma {:induction false} SoloAtRest(env: Env, me: nat, w: World, p: Proc, choices: seq<Choice>)
    requires p.pc.Done?
    ensures Solo(env, me, w, p, choices) == (w, p)
    decreases |choices|
  {
    if choices == [] {
    } else {
      SoloAtRest(env, me, w, p, choices[1..]);
    }
  }

  ghost predicate AllStale(choices: seq<Choice>) {
    forall i :: 0 <= i < |choices| ==> choices[i].stale
  }

  /** An explicit migration that finds the lock file old reclaims it and, undisturbed, completes. */
  lemma {:induction false} TakeoverCompletes(env: Env, me: nat, w: World, p: Proc, choices: seq<Choice>)
    requires LegacyOk(env) && DiskSafe(env, w.disk) && Knows(env, w.disk, p) && w.logLock.Some?
    requires p.task.Explicit? && (p.pc.ReadLegacy? || p.pc.ReadSnapshot? || p.pc.AcquireLog? || p.pc.RemoveLog?)
    requires |choices| >= StepsLeft(p.pc) && AllStale(choices)
    ensures var (w', p') := Solo(env, me, w, p, choices); Completed(env, w, w', p')
    decreases StepsLeft(p.pc)
  {
    StepIsSafe(env, me, w, p, choices[0]);
    var (w', p') := Step(env, me, w, p, choices[0]);
    if p.pc.RemoveLog? {
      SoloCompletes(env, me, w', p', choices[1..]);
    } else {
      if !p.pc.AcquireLog? { ValidateIsSafe(env, w.disk, p); }
      TakeoverCompletes(env, me, w', p', choices[1..]);
    }
  }

  // ----- recovery -----

  /** The given migration may take the log's lock: there is no lock file, or the migration is an
      explicit one and will find the file old. */
  ghost predicate MayTake(w: World, task: Task, choices: seq<Choice>) {
    w.logLock.None? || (task.Explicit? && AllStale(choices))
  }

  /** Crash recovery: after any run whatever, a migration that may take the lock and then runs on its
      own succeeds and completes what was left half done. */
  lemma RecoveryCompletes(env: Env, actions: seq<Action>, me: nat, task: Task, choices: seq<Choice>)
    requires LegacyOk(env) && IsMigrator(task) && MayTake(RunAll(env, actions).world, task, choices)
    requires |choices| >= MIGRATION_STEPS
    ensures var s := RunAll(env, actions);
            var (w, p) := Solo(env, me, s.world, Start(task), choices);
            Completed(env, s.world, w, p)
  {
    RunIsSafe(env, actions);
    var s := RunAll(env, actions);
    if s.world.logLock.None? {
      SoloCompletes(env, me, s.world, Start(task), choices);
    } else {
      TakeoverCompletes(env, me, s.world, Start(task), choices);
    }
  }

  /** Rerunning a finished migration succeeds and changes no file. */
  lemma RerunChangesNothing(env: Env, actions: seq<Action>, me: nat, task: Task, choices: seq<Choice>)
    requires LegacyOk(env) && IsMigrator(task) && MayTake(RunAll(env, actions).world, task, choices)
    requires |choices| >= MIGRATION_STEPS && RunAll(env, actions).world.disk.metadata.Some?
    ensures var s := RunAll(env, actions);
            var (w, p) := Solo(env, me, s.world, Start(task), choices);
            p.pc.Done? && w.disk == s.world.disk
  {
    RecoveryCompletes(env, actions, me, task, choices);
    RunIsSafe(env, actions);
    CompletedIsComplete(env, RunAll(env, actions).world.disk);
  }

  /** After migrators crashed anywhere, also under the lock, rerunning the migration ends exactly
      where a first, uninterrupted migration ends. */
  lemma RecoveryIsUninterruptedRun(env: Env, actions: seq<Action>, me: nat, task: Task, choices: seq<Choice>)
    requires LegacyOk(env) && IsMigrator(task) && MayTake(RunAll(env, actions).world, task, choices)
    requires |choices| >= MIGRATION_STEPS && OnlyMigrators(actions)
    ensures var s := RunAll(env, actions);
            var (w, p) := Solo(env, me, s.world, Start(task), choices);
            var (w0, p0) := Solo(env, me, INITIAL.world, Start(task), choices);
            p.pc.Done? && p0.pc.Done? && w.logLock.None? && w.disk == w0.disk
  {
    RecoveryCompletes(env, actions, me, task, choices);
    RecoveryCompletes(env, [], me, task, choices);
    MigratorsConverge(env, actions);
  }

  // ----- appends -----

  /** On files that a run can leave, running alone means completing, and a log is taken exactly when
      it is empty or carries the prefix. */
  lemma SafeFiles(env: Env, d: Disk, log: seq<LogRecord>)
    requires DiskSafe(env, d) && LegacyOk(env)
    ensures Migratable(env, d) && Published(env, d) == Complete(env, d)
    ensures Preparable(env, d) && PreparedDisk(env, d) == Complete(env, d)
    ensures AppendOk(env, d, log) <==> log == [] || Bound(env, log)
    ensures AppendOk(env, d, log) ==>
              AfterAppend(env, d, log) ==
              Complete(env, d).(canonical := Some(if log == [] then CompleteLog(env, None) else log))
    ensures !AppendOk(env, d, log) ==> AfterAppend(env, d, log) == Complete(env, d)
  {
  }

  /** An append as part of any run: with the log's lock free, a new writer that then runs alone
      succeeds exactly when its log is empty or carries the prefix, and then that log is in the file. */
  lemma AppendInRun(env: Env, actions: seq<Action>, me: nat, c: Choice) returns (more: seq<Action>)
    requires LegacyOk(env) && RunAll(env, actions).world.logLock.None? && me !in RunAll(env, actions).procs
    ensures var s, t, ok := RunAll(env, actions), RunAll(env, actions + more), c.log == [] || Bound(env, c.log);
            && me in t.procs && t.procs[me].pc == (if ok then Done else Failed)
            && t.procs == s.procs[me := t.procs[me]] && t.world == s.world.(disk := t.world.disk)
            && t.world.disk == Complete(env, s.world.disk).(
                 canonical := Some(if !ok then CompleteLog(env, s.world.disk.canonical)
                                   else if c.log == [] then CompleteLog(env, None) else c.log))
  {
    var s, spawn := RunAll(env, actions), [Spawn(me, Writer)];
    RunIsSafe(env, actions);
    SafeFiles(env, s.world.disk, c.log);
    SpawnStarts(env, actions, me, Writer);
    var w, p := WriterAlone(env, me, c, s.world);
    var turns := RunGets(env, actions + spawn, me, c, w, p);
    more := spawn + turns;
    Associate(actions, spawn, turns);
    assert s.procs[me := Start(Writer)][me := p] == s.procs[me := p];
  }

  lemma StepChangesLog(env: Env, me: nat, w: World, p: Proc, c: Choice)
    requires DiskSafe(env, w.disk) && Local(env, w, me, p) && w.disk.canonical.Some? && w.disk.canonical.value != []
    ensures var after := Step(env, me, w, p, c).0.disk.canonical;
            after != w.disk.canonical ==> p.pc.WriteLog? && p.task.Writer? && after == Some(p.log)
  {
    if !p.pc.WriteLog? && !p.pc.WriteIdentity? {
      StepKeepsCompletion(env, me, w, p, c);
      StepIsSafe(env, me, w, p, c);
    }
  }

  /** While locks exclude, a log once written is changed by appends only. */
  lemma OnlyAppendsChangeLog(env: Env, actions: seq<Action>, a: Action)
    requires OrderlyRun(env, actions)
    requires var log := RunAll(env, actions).world.disk.canonical; log.Some? && log.value != []
    ensures var s, t := RunAll(env, actions), RunAll(env, actions + [a]);
            t.world.disk.canonical != s.world.disk.canonical ==>
              && a.Run? && a.pid in s.procs && s.procs[a.pid].task.Writer? && s.procs[a.pid].pc.WriteLog?
              && t.world.disk.canonical == Some(s.procs[a.pid].log)
  {
    var s := RunAll(env, actions);
    RunPreserves(env, actions);
    RunSnoc(env, actions, a);
    if a.Run? && a.pid in s.procs {
      assert Local(env, s.world, a.pid, s.procs[a.pid]);
      StepChangesLog(env, a.pid, s.world, s.procs[a.pid], a.choice);
    }
  }
}
