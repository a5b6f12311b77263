/** What the two locks add, by rely and guarantee, as long as whoever is about to remove a lock file
    removes that of a stopped process and is alone in doing so. */
module RuntimeExclusion {
  import opened Common
  import opened RuntimeModel
  import opened RuntimeInvariant
  import opened RuntimeSolo

  predicate HoldsLog(pc: Pc) { Publishing(pc) || Gated(pc) || pc.ReleaseLog? }

  predicate HoldsMeta(pc: Pc) { pc.ReadMeta? || pc.WriteIdentity? || pc.ReleaseMeta? }

  predicate HasLock(w: World, me: nat, pc: Pc) {
    (HoldsLog(pc) ==> w.logLock == Some(me)) && (HoldsMeta(pc) ==> w.metaLock == Some(me))
  }

  /** The canonical log that `migrate_inner` leaves behind. */
  function CompleteLog(env: Env, canonical: Option<seq<LogRecord>>): seq<LogRecord> {
    if canonical.Some? && canonical.value != [] then canonical.value
    else if env.legacy.Some? then [LegacyPrefix(env.sha256(env.legacy.value))] else []
  }

  /** What a process may rely on while its lock is its own. */
  predicate Claims(env: Env, d: Disk, p: Proc) {
    match p.pc
    case CheckCanonical | WriteCanonical => p.log == CompleteLog(env, d.canonical)
    case CompareMetadata => p.metadata.repositoryId.Some? ==> Recorded(d, p.metadata.repositoryId.value)
    case WriteMetadata => d.metadata.None? && p.metadata.repositoryId.None?
    case WriteIdentity =>
      d.metadata.Some? && d.metadata.value.repositoryId.None? &&
      p.metadata == d.metadata.value.(repositoryId := Some(p.id))
    case ReleaseMeta => p.next.Failed? || Recorded(d, p.id)
    case Done => p.task.Identity? ==> Recorded(d, p.id)
    case _ => true
  }

  predicate Local(env: Env, w: World, me: nat, p: Proc) {
    HasLock(w, me, p.pc) && Knows(env, w.disk, p) && Claims(env, w.disk, p)
  }

  /** The lock file is there and its owner stopped. */
  predicate Abandoned(lock: Option<nat>, dead: set<nat>) { lock.Some? && lock.value in dead }

  /** A process about to remove a lock file: the file is that of a stopped process. */
  predicate Reclaims(w: World, p: Proc, dead: set<nat>) {
    (p.pc.RemoveLog? ==> Abandoned(w.logLock, dead)) && (p.pc.RemoveMeta? ==> Abandoned(w.metaLock, dead))
  }

  predicate BothRemove(a: Pc, b: Pc) { (a.RemoveLog? && b.RemoveLog?) || (a.RemoveMeta? && b.RemoveMeta?) }

  /** Whoever is about to remove a lock file removes that of a stopped process, and nobody else is
      about to remove it. */
  ghost predicate Orderly(s: State) {
    && (forall p :: p in s.procs ==> Reclaims(s.world, s.procs[p], Dead(s)))
    && (forall p, q :: p in s.procs && q in s.procs && p != q ==> !BothRemove(s.procs[p].pc, s.procs[q].pc))
  }

  /** A lock file belongs to a process that is past its acquisition or has stopped. */
  ghost predicate Owned(s: State) {
    && (s.world.logLock.Some? ==>
        var o := s.world.logLock.value; o in s.procs && (HoldsLog(s.procs[o].pc) || s.procs[o].pc.Crashed?))
    && (s.world.metaLock.Some? ==>
        var o := s.world.metaLock.value; o in s.procs && (HoldsMeta(s.procs[o].pc) || s.procs[o].pc.Crashed?))
  }

  ghost predicate Inv(env: Env, s: State) {
    && DiskSafe(env, s.world.disk) && Owned(s)
    && forall pid :: pid in s.procs ==> Local(env, s.world, pid, s.procs[pid])
  }

  /** Metadata may be created, or gain an identity, and is otherwise fixed. */
  predicate MetadataGrows(before: Option<Metadata>, after: Option<Metadata>) {
    before.Some? ==>
      after.Some? && (after == before ||
        (before.value.repositoryId.None? && after.value == before.value.(repositoryId := after.value.repositoryId)))
  }

  predicate LockStep(before: Option<nat>, after: Option<nat>, me: nat, dead: set<nat>, removing: bool) {
    || after == before
    || (before.None? && after == Some(me))
    || (before == Some(me) && after.None?)
    || (removing && Abandoned(before, dead) && after.None?)
  }

  /** What a step of `me` at `pc` may change, and under which lock. */
  predicate Guarantee(w: World, w': World, me: nat, dead: set<nat>, pc: Pc) {
    && LockStep(w.logLock, w'.logLock, me, dead, pc.RemoveLog?)
    && LockStep(w.metaLock, w'.metaLock, me, dead, pc.RemoveMeta?)
    && MetadataGrows(w.disk.metadata, w'.disk.metadata)
    && (w.logLock != Some(me) ==>
        w'.disk.snapshot == w.disk.snapshot && w'.disk.canonical == w.disk.canonical &&
        (w.disk.metadata.None? ==> w'.disk.metadata.None?))
    && (w.metaLock != Some(me) && w.disk.metadata.Some? ==> w'.disk.metadata == w.disk.metadata)
  }

  lemma PublishPreserves(env: Env, w: World, me: nat, p: Proc, dead: set<nat>)
    requires DiskSafe(env, w.disk) && Local(env, w, me, p) && Publishing(p.pc)
    ensures var (d', p') := StepPublish(env, w.disk, p);
            Local(env, w.(disk := d'), me, p') && Guarantee(w, w.(disk := d'), me, dead, p.pc)
  {
    PublishIsSafe(env, w.disk, p);
  }

  lemma GatedPreserves(env: Env, w: World, me: nat, p: Proc, c: Choice, dead: set<nat>)
    requires DiskSafe(env, w.disk) && Local(env, w, me, p) && Gated(p.pc)
    ensures var (d', p') := StepGated(env, w.disk, p, c);
            Local(env, w.(disk := d'), me, p') && Guarantee(w, w.(disk := d'), me, dead, p.pc)
  {
    GatedIsSafe(env, w.disk, p, c);
  }

  lemma IdentityPreserves(env: Env, w: World, me: nat, p: Proc, c: Choice, dead: set<nat>)
    requires DiskSafe(env, w.disk) && Local(env, w, me, p) && (p.pc.ReadMeta? || p.pc.WriteIdentity?)
    ensures var (d', p') := StepIdentity(w.disk, p, c);
            Local(env, w.(disk := d'), me, p') && Guarantee(w, w.(disk := d'), me, dead, p.pc)
  {
    IdentityIsSafe(env, w.disk, p, c);
  }

  lemma LogLockPreserves(env: Env, w: World, me: nat, p: Proc, c: Choice, dead: set<nat>)
    requires Local(env, w, me, p) && Reclaims(w, p, dead)
    requires p.pc.AcquireLog? || p.pc.AcquireWriter? || p.pc.RemoveLog? || p.pc.CreateLog?
    ensures var (w', p') := StepLock(me, w, p, c);
            Local(env, w', me, p') && Guarantee(w, w', me, dead, p.pc)
  {
    LogLockIsSafe(env, me, w, p, c);
  }

  lemma LockPreserves(env: Env, w: World, me: nat, p: Proc, c: Choice, dead: set<nat>)
    requires DiskSafe(env, w.disk) && Local(env, w, me, p) && Reclaims(w, p, dead) && Locking(p.pc)
    ensures var (w', p') := StepLock(me, w, p, c);
            Local(env, w', me, p') && Guarantee(w, w', me, dead, p.pc)
  {
    if p.pc.AcquireLog? || p.pc.AcquireWriter? || p.pc.RemoveLog? || p.pc.CreateLog? {
      LogLockPreserves(env, w, me, p, c, dead);
    } else {
      LockIsSafe(env, me, w, p, c);
    }
  }

  /** A step keeps what its own process may rely on and changes no more than the guarantee allows. */
  lemma StepPreserves(env: Env, w: World, me: nat, p: Proc, c: Choice, dead: set<nat>)
    requires DiskSafe(env, w.disk) && Local(env, w, me, p) && Reclaims(w, p, dead)
    ensures var (w', p') := Step(env, me, w, p, c);
            Local(env, w', me, p') && Guarantee(w, w', me, dead, p.pc)
  {
    if Publishing(p.pc) {
      PublishPreserves(env, w, me, p, dead);
      assert Step(env, me, w, p, c) == (w.(disk := StepPublish(env, w.disk, p).0), StepPublish(env, w.disk, p).1);
    } else if Gated(p.pc) {
      GatedPreserves(env, w, me, p, c, dead);
      assert Step(env, me, w, p, c) == (w.(disk := StepGated(env, w.disk, p, c).0), StepGated(env, w.disk, p, c).1);
    } else if p.pc.ReadMeta? || p.pc.WriteIdentity? {
      IdentityPreserves(env, w, me, p, c, dead);
    } else if Locking(p.pc) {
      LockPreserves(env, w, me, p, c, dead);
      assert Step(env, me, w, p, c) == StepLock(me, w, p, c);
    } else {
      OtherPreserves(env, w, me, p, c);
    }
  }

  lemma OtherPreserves(env: Env, w: World, me: nat, p: Proc, c: Choice)
    requires DiskSafe(env, w.disk) && Local(env, w, me, p) && !Publishing(p.pc) && !Gated(p.pc) && !Locking(p.pc)
    requires !p.pc.ReadMeta? && !p.pc.WriteIdentity?
    ensures var (w', p') := Step(env, me, w, p, c); w' == w && Local(env, w, me, p')
  {
    if p.pc.ReadLegacy? || p.pc.ReadSnapshot? {
      ValidateIsSafe(env, w.disk, p);
    }
  }

  /** Who ends a step with a lock file of its own is past that lock's acquisition. */
  lemma OwnerHolds(env: Env, w: World, me: nat, p: Proc, c: Choice)
    requires DiskSafe(env, w.disk) && Knows(env, w.disk, p)
    requires (w.logLock == Some(me) ==> HoldsLog(p.pc)) && (w.metaLock == Some(me) ==> HoldsMeta(p.pc))
    ensures var (w', p') := Step(env, me, w, p, c);
            (w'.logLock == Some(me) ==> HoldsLog(p'.pc)) && (w'.metaLock == Some(me) ==> HoldsMeta(p'.pc))
  {
    if Locking(p.pc) {
      assert Step(env, me, w, p, c) == StepLock(me, w, p, c);
    } else if p.pc.ReadLegacy? || p.pc.ReadSnapshot? {
      ValidateIsSafe(env, w.disk, p);
    }
  }

  /** What a process relies on survives any step of another process. */
  lemma Stable(env: Env, w: World, w': World, me: nat, dead: set<nat>, pc: Pc, q: nat, p: Proc)
    requires Local(env, w, q, p) && Knows(env, w'.disk, p)
    requires Guarantee(w, w', me, dead, pc) && q != me && (q in dead ==> p.pc.Crashed?)
    ensures Local(env, w', q, p)
  {
  }

  lemma RunPreservesOne(env: Env, s: State, pid: nat, c: Choice)
    requires Inv(env, s) && Orderly(s) && pid in s.procs && !s.procs[pid].pc.Crashed?
    ensures Inv(env, Apply(env, s, Run(pid, c)))
    ensures MetadataGrows(s.world.disk.metadata, Apply(env, s, Run(pid, c)).world.disk.metadata)
  {
    var dead, p := Dead(s), s.procs[pid];
    var (w', p') := Step(env, pid, s.world, p, c);
    StepIsSafe(env, pid, s.world, p, c);
    StepPreserves(env, s.world, pid, p, c, dead);
    OwnerHolds(env, s.world, pid, p, c);
    forall q | q in s.procs && q != pid ensures Local(env, w', q, s.procs[q]) {
      KnowledgeIsStable(env, s.world.disk, w'.disk, s.procs[q]);
      Stable(env, s.world, w', pid, dead, p.pc, q, s.procs[q]);
    }
  }

  lemma SpawnPreserves(env: Env, s: State, pid: nat, task: Task)
    requires Inv(env, s)
    ensures Inv(env, Apply(env, s, Spawn(pid, task)))
  {
  }

  lemma CrashPreserves(env: Env, s: State, pid: nat)
    requires Inv(env, s)
    ensures Inv(env, Apply(env, s, Crash(pid)))
  {
    var t := Apply(env, s, Crash(pid));
    forall q | q in t.procs ensures Local(env, t.world, q, t.procs[q]) {
      assert t.procs[q] == s.procs[q] || t.procs[q].pc.Crashed?;
    }
  }

  lemma ApplyPreserves(env: Env, s: State, a: Action)
    requires Inv(env, s) && Orderly(s)
    ensures Inv(env, Apply(env, s, a))
    ensures MetadataGrows(s.world.disk.metadata, Apply(env, s, a).world.disk.metadata)
  {
    match a
    case Spawn(pid, task) => SpawnPreserves(env, s, pid, task);
    case Crash(pid) => CrashPreserves(env, s, pid);
    case Run(pid, c) =>
      if pid in s.procs && !s.procs[pid].pc.Crashed? {
        RunPreservesOne(env, s, pid, c);
      } else {
        assert Apply(env, s, a) == s;
      }
  }

  /** At every moment before its end the run was orderly. */
  ghost predicate OrderlyRun(env: Env, actions: seq<Action>) {
    actions != [] ==>
      var most := actions[..|actions| - 1];
      Orderly(RunAll(env, most)) && OrderlyRun(env, most)
  }

  lemma {:induction false} RunPreserves(env: Env, actions: seq<Action>)
    requires OrderlyRun(env, actions)
    ensures Inv(env, RunAll(env, actions))
  {
    if actions == [] {
    } else {
      RunPreserves(env, actions[..|actions| - 1]);
      ApplyPreserves(env, RunAll(env, actions[..|actions| - 1]), actions[|actions| - 1]);
    }
  }

  /** No two processes are past the acquisition of the same lock. */
  ghost predicate Exclusive(s: State) {
    forall p, q :: p in s.procs && q in s.procs && p != q ==>
      !(HoldsLog(s.procs[p].pc) && HoldsLog(s.procs[q].pc)) && !(HoldsMeta(s.procs[p].pc) && HoldsMeta(s.procs[q].pc))
  }

  lemma MutualExclusion(env: Env, actions: seq<Action>)
    requires OrderlyRun(env, actions)
    ensures Exclusive(RunAll(env, actions))
  {
    RunPreserves(env, actions);
    var s := RunAll(env, actions);
    assert forall pid :: pid in s.procs ==> Local(env, s.world, pid, s.procs[pid]);
  }
}
