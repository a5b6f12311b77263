/** Why the migration protocol is safe whatever happens to its locks: what the files always
    satisfy, what each program point knows of them, and that no step of any process breaks it. */
module RuntimeInvariant {
  import opened Common
  import opened Hex
  import opened RuntimeModel

  function LegacyDigest(env: Env): Option<Digest> { SnapshotDigest(env, env.legacy) }

  function LegacySource(env: Env): Option<string> {
    if env.legacy.Some? then Some(env.path) else None
  }

  predicate LegacyOk(env: Env) { env.legacy.Some? ==> env.chainOk(env.legacy.value) }

  /** A log that carries the prefix whenever there is a legacy file. */
  predicate Bound(env: Env, log: seq<LogRecord>) {
    env.legacy.Some? ==> log != [] && log[0] == LegacyPrefix(env.sha256(env.legacy.value))
  }

  predicate MetadataSafe(env: Env, m: Metadata) {
    m.digest == LegacyDigest(env) && m.source == LegacySource(env) &&
    (m.repositoryId.Some? ==> IsHex256(m.repositoryId.value))
  }

  predicate PrefixPublished(env: Env, d: Disk) { d.canonical.Some? && Bound(env, d.canonical.value) }

  /** What holds of the durable files at every moment of every run: a snapshot is the legacy
      file, verified; a canonical log is there only with the snapshot and carries the prefix;
      metadata carries the digest and is only there once both others are. */
  predicate DiskSafe(env: Env, d: Disk) {
    && (d.snapshot.Some? ==> d.snapshot == env.legacy && env.chainOk(d.snapshot.value))
    && (d.canonical.Some? ==> d.snapshot == env.legacy && (d.canonical.value == [] || Bound(env, d.canonical.value)))
    && (d.metadata.Some? ==> MetadataSafe(env, d.metadata.value) && PrefixPublished(env, d))
  }

  predicate Recorded(d: Disk, id: Bytes) {
    d.metadata.Some? && d.metadata.value.repositoryId == Some(id)
  }

  predicate Validated(env: Env, p: Proc) {
    p.source == env.legacy && p.snapshot == env.legacy && LegacyOk(env)
  }

  /** What a process knows at each program point, whether or not its lock is still its own. */
  predicate Knows(env: Env, d: Disk, p: Proc) {
    match p.pc
    case CheckPrepared => !p.task.Explicit?
    case ReadSnapshot => p.source == env.legacy && LegacyOk(env)
    case AcquireLog | RecheckPrepared | RecheckSource | CheckSnapshot | WriteSnapshot => Validated(env, p)
    case RemoveLog | CreateLog => if p.task.Explicit? then Validated(env, p) else p.task.Writer? && d.metadata.Some?
    case ReadCanonical => Validated(env, p) && d.snapshot == env.legacy
    case CheckCanonical | WriteCanonical => Validated(env, p) && d.snapshot == env.legacy && Bound(env, p.log)
    case ReadSource => Validated(env, p) && PrefixPublished(env, d)
    case ReadIdentity =>
      PrefixPublished(env, d) && p.metadata == Metadata(LegacySource(env), LegacyDigest(env), None)
    case CompareMetadata | WriteMetadata => PrefixPublished(env, d) && MetadataSafe(env, p.metadata)
    case AcquireWriter | LoadLog | GatePrepare | BindPresence | BindMetadata => p.task.Writer? && d.metadata.Some?
    case SelfWait => false
    case BindSnapshot | BindRecover | BindPrefix =>
      p.task.Writer? && d.metadata.Some? && env.legacy.Some? && p.metadata.digest == LegacyDigest(env)
    case WriteLog => p.task.Writer? && d.metadata.Some? && Bound(env, p.log)
    case ReleaseLog =>
      p.next.Failed? ||
      (d.metadata.Some? && (p.next == AfterPrepared(p.task) || (p.task.Writer? && p.next.Done?)))
    case AcquireMeta | RemoveMeta | CreateMeta | ReadMeta => p.task.Identity? && d.metadata.Some?
    case WriteIdentity =>
      p.task.Identity? && d.metadata.Some? && MetadataSafe(env, p.metadata) && p.metadata.repositoryId == Some(p.id)
    case ReleaseMeta => p.task.Identity? && (p.next.Failed? || (p.next.Done? && d.metadata.Some? && IsHex256(p.id)))
    case Done => d.metadata.Some? && (p.task.Identity? ==> IsHex256(p.id))
    case _ => true
  }

  /** No step takes back what was published. */
  predicate DiskGrows(env: Env, d: Disk, d': Disk) {
    && (d.snapshot.Some? ==> d'.snapshot == d.snapshot)
    && (d.canonical.Some? ==> d'.canonical.Some?)
    && (PrefixPublished(env, d) ==> PrefixPublished(env, d'))
    && (d.metadata.Some? ==> d'.metadata.Some?)
  }

  ghost predicate Safe(env: Env, s: State) {
    && DiskSafe(env, s.world.disk)
    && forall pid :: pid in s.procs ==> Knows(env, s.world.disk, s.procs[pid])
  }

  lemma ValidateIsSafe(env: Env, d: Disk, p: Proc)
    requires DiskSafe(env, d) && Knows(env, d, p) && (p.pc.ReadLegacy? || p.pc.ReadSnapshot?)
    ensures var p' := StepValidate(env, d, p);
            && p'.task == p.task && Knows(env, d, p')
            && (p'.pc.Failed? || (p.pc.ReadLegacy? && p'.pc.ReadSnapshot?) || (p.pc.ReadSnapshot? && p'.pc.AcquireLog?))
            && (LegacyOk(env) ==> !p'.pc.Failed?)
  {
  }

  lemma PublishIsSafe(env: Env, d: Disk, p: Proc)
    requires DiskSafe(env, d) && Knows(env, d, p) && Publishing(p.pc)
    ensures var (d', p') := StepPublish(env, d, p);
            DiskSafe(env, d') && Knows(env, d', p') && DiskGrows(env, d, d')
  {
  }

  lemma GatedIsSafe(env: Env, d: Disk, p: Proc, c: Choice)
    requires DiskSafe(env, d) && Knows(env, d, p) && Gated(p.pc)
    ensures var (d', p') := StepGated(env, d, p, c);
            DiskSafe(env, d') && Knows(env, d', p') && DiskGrows(env, d, d')
  {
  }

  lemma IdentityIsSafe(env: Env, d: Disk, p: Proc, c: Choice)
    requires DiskSafe(env, d) && Knows(env, d, p) && (p.pc.ReadMeta? || p.pc.WriteIdentity?)
    ensures var (d', p') := StepIdentity(d, p, c);
            DiskSafe(env, d') && Knows(env, d', p') && DiskGrows(env, d, d')
  {
    HexRoundTrip(c.entropy);
  }

  /** A step keeps the files safe, leaves its own process knowing what it should, and takes
      nothing back; it needs no lock for that. */
  lemma StepIsSafe(env: Env, me: nat, w: World, p: Proc, c: Choice)
    requires DiskSafe(env, w.disk) && Knows(env, w.disk, p)
    ensures var (w', p') := Step(env, me, w, p, c);
            DiskSafe(env, w'.disk) && Knows(env, w'.disk, p') && DiskGrows(env, w.disk, w'.disk)
  {
    if Publishing(p.pc) {
      PublishIsSafe(env, w.disk, p);
      assert Step(env, me, w, p, c).0.disk == StepPublish(env, w.disk, p).0;
      assert Step(env, me, w, p, c).1 == StepPublish(env, w.disk, p).1;
    } else if Gated(p.pc) {
      GatedIsSafe(env, w.disk, p, c);
      assert Step(env, me, w, p, c).0.disk == StepGated(env, w.disk, p, c).0;
      assert Step(env, me, w, p, c).1 == StepGated(env, w.disk, p, c).1;
    } else if p.pc.ReadMeta? || p.pc.WriteIdentity? {
      IdentityIsSafe(env, w.disk, p, c);
    } else if p.pc.ReadLegacy? || p.pc.ReadSnapshot? {
      ValidateIsSafe(env, w.disk, p);
    } else if Locking(p.pc) {
      LockIsSafe(env, me, w, p, c);
      assert Step(env, me, w, p, c) == StepLock(me, w, p, c);
    }
  }

  lemma LockIsSafe(env: Env, me: nat, w: World, p: Proc, c: Choice)
    requires DiskSafe(env, w.disk) && Knows(env, w.disk, p) && Locking(p.pc)
    ensures var (w', p') := StepLock(me, w, p, c); w'.disk == w.disk && Knows(env, w.disk, p')
  {
    if p.pc.ReleaseLog? || p.pc.ReleaseMeta? {
      ReleaseIsSafe(env, me, w, p, c);
    } else if p.task.Identity? && !p.pc.AcquireLog? {
      assert StepLock(me, w, p, c).0.disk == w.disk;
    } else {
      LogLockIsSafe(env, me, w, p, c);
    }
  }

  lemma ReleaseIsSafe(env: Env, me: nat, w: World, p: Proc, c: Choice)
    requires Knows(env, w.disk, p) && (p.pc.ReleaseLog? || p.pc.ReleaseMeta?)
    ensures var (w', p') := StepLock(me, w, p, c); w'.disk == w.disk && Knows(env, w.disk, p')
  {
  }

  lemma LogLockIsSafe(env: Env, me: nat, w: World, p: Proc, c: Choice)
    requires Knows(env, w.disk, p) && (p.pc.AcquireLog? || p.pc.AcquireWriter? || p.pc.RemoveLog? || p.pc.CreateLog?)
    ensures var (w', p') := StepLock(me, w, p, c); w'.disk == w.disk && Knows(env, w.disk, p')
  {
  }

  /** What a process knows survives any step of another process. */
  lemma KnowledgeIsStable(env: Env, d: Disk, d': Disk, p: Proc)
    requires Knows(env, d, p) && DiskSafe(env, d) && DiskSafe(env, d') && DiskGrows(env, d, d')
    ensures Knows(env, d', p)
  {
  }

  lemma ApplyIsSafe(env: Env, s: State, a: Action)
    requires Safe(env, s)
    ensures Safe(env, Apply(env, s, a))
  {
    if a.Run? && a.pid in s.procs {
      var p := s.procs[a.pid];
      var (w', p') := Step(env, a.pid, s.world, p, a.choice);
      StepIsSafe(env, a.pid, s.world, p, a.choice);
      forall q | q in s.procs && q != a.pid ensures Knows(env, w'.disk, s.procs[q]) {
        KnowledgeIsStable(env, s.world.disk, w'.disk, s.procs[q]);
      }
    }
  }

  lemma {:induction false} RunIsSafe(env: Env, actions: seq<Action>)
    ensures Safe(env, RunAll(env, actions))
  {
    if actions == [] {
    } else {
      RunIsSafe(env, actions[..|actions| - 1]);
      ApplyIsSafe(env, RunAll(env, actions[..|actions| - 1]), actions[|actions| - 1]);
    }
  }
}
