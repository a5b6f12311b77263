/** The runtime log migration of `runtime_store.rs` as a state machine: the four durable
    files, the two lock files, and the programs that touch them. One step is one file
    access; a process may stop for good between any two steps. */
module RuntimeModel {
  import opened Common
  import opened Hex

  type Digest = string

  /** A canonical log record. `LegacyPrefix(d)` is a record of kind `runtime.legacy_prefix`
      whose payload binds digest `d`; every other record is an `Entry`. */
  datatype LogRecord = LegacyPrefix(digest: Digest) | Entry(kind: string, payload: string)

  datatype Metadata = Metadata(source: Option<string>, digest: Option<Digest>, repositoryId: Option<Bytes>)

  datatype Disk = Disk(snapshot: Option<Bytes>, canonical: Option<seq<LogRecord>>, metadata: Option<Metadata>)

  /** The durable files and the two lock files (holder's process id, if held). */
  datatype World = World(disk: Disk, logLock: Option<nat>, metaLock: Option<nat>)

  /** What stays fixed in a run: the legacy file, its path, SHA-256 and chain verification. */
  datatype Env = Env(legacy: Option<Bytes>, path: string, sha256: Bytes -> Digest, chainOk: Bytes -> bool)

  datatype Task = Explicit | Bootstrap | Writer | Identity

  datatype Pc =
    // prepare_runtime_log
    | CheckPrepared
    // migrate_inner, before the lock
    | ReadLegacy | ReadSnapshot | AcquireLog
    // reclaiming an old log lock: remove the file, then create it again
    | RemoveLog | CreateLog
    // migrate_inner, under the canonical log's lock
    | RecheckPrepared | RecheckSource | CheckSnapshot | WriteSnapshot
    | ReadCanonical | CheckCanonical | WriteCanonical
    | ReadSource | ReadIdentity | CompareMetadata | WriteMetadata
    // gated append: lock, load, prepare_runtime_write, bind_legacy_prefix, write
    | AcquireWriter | LoadLog | GatePrepare | SelfWait
    | BindPresence | BindMetadata | BindSnapshot | BindRecover | BindPrefix | WriteLog
    | ReleaseLog
    // repository_id, under the metadata lock
    | AcquireMeta | RemoveMeta | CreateMeta | ReadMeta | WriteIdentity | ReleaseMeta
    | Done | Failed | Crashed

  /** One running command: its program counter, its locals, and where it goes on release. */
  datatype Proc = Proc(task: Task, pc: Pc, next: Pc, source: Option<Bytes>, snapshot: Option<Bytes>,
                       log: seq<LogRecord>, metadata: Metadata, id: Bytes)

  type Entropy = s: Bytes | |s| == 32 witness seq(32, _ => 0)

  /** What the model leaves open at a step: whether a wait's budget is spent, whether a
      lock file is old, the log a writer builds, and the random bytes of an identity. */
  datatype Choice = Choice(giveUp: bool, stale: bool, log: seq<LogRecord>, entropy: Entropy)

  const FRESH_DISK := Disk(None, None, None)
  const EMPTY_METADATA := Metadata(None, None, None)

  function Start(task: Task): Proc {
    Proc(task, if task.Explicit? then ReadLegacy else CheckPrepared, Failed, None, None, [], EMPTY_METADATA, [])
  }

  /** The answer of `prepared_metadata_matches`. */
  datatype Prepared = NotPrepared | Matches | Conflict

  function PreparedMatches(env: Env, metadata: Option<Metadata>): Prepared {
    if metadata.None? then NotPrepared
    else if env.legacy.Some? && metadata.value.digest != Some(env.sha256(env.legacy.value)) then Conflict
    else Matches
  }

  function SnapshotDigest(env: Env, snapshot: Option<Bytes>): Option<Digest> {
    if snapshot.None? then None else Some(env.sha256(snapshot.value))
  }

  /** Binding the prefix: an empty log gets it, any other log must start with it. */
  function BindLog(digest: Option<Digest>, log: seq<LogRecord>): Option<seq<LogRecord>> {
    if digest.None? then Some(log)
    else if log == [] then Some([LegacyPrefix(digest.value)])
    else if log[0] == LegacyPrefix(digest.value) then Some(log)
    else None
  }

  /** Where a command continues once runtime state is prepared. */
  function AfterPrepared(task: Task): Pc {
    match task
    case Explicit => Done
    case Bootstrap => Done
    case Writer => AcquireWriter
    case Identity => AcquireMeta
  }

  function Goto(p: Proc, pc: Pc): Proc { p.(pc := pc) }

  function Release(p: Proc, next: Pc): Proc { p.(pc := ReleaseLog, next := next) }

  /** Whether a lock file is found to be old. Age is all that is tested, not whether its owner is
      still there. Only an ordinary acquisition asks, a bootstrap one never does. */
  predicate LooksStale(lock: Option<nat>, stale: bool) { stale && lock.Some? }

  /** Where a process continues under the log's lock. */
  function UnderLog(p: Proc): Pc {
    if p.pc.AcquireLog? && !p.task.Explicit? then RecheckPrepared
    else if p.task.Explicit? then CheckSnapshot else LoadLog
  }

  /** One step of process `me`. */
  function Step(env: Env, me: nat, w: World, p: Proc, c: Choice): (World, Proc) {
    var d := w.disk;
    match p.pc
    case CheckPrepared => (w, match PreparedMatches(env, d.metadata)
      case NotPrepared => Goto(p, ReadLegacy)
      case Matches => Goto(p, AfterPrepared(p.task))
      case Conflict => Goto(p, Failed))
    case ReadLegacy | ReadSnapshot => (w, StepValidate(env, d, p))
    case ReadMeta | WriteIdentity => var (d', p') := StepIdentity(d, p, c); (w.(disk := d'), p')
    case Done | Failed | Crashed => (w, p)
    case LoadLog | GatePrepare | SelfWait | BindPresence | BindMetadata | BindSnapshot | BindRecover
       | BindPrefix | WriteLog =>
      var (d', p') := StepGated(env, d, p, c); (w.(disk := d'), p')
    case RecheckPrepared | RecheckSource | CheckSnapshot | WriteSnapshot | ReadCanonical | CheckCanonical
       | WriteCanonical | ReadSource | ReadIdentity | CompareMetadata | WriteMetadata =>
      var (d', p') := StepPublish(env, d, p); (w.(disk := d'), p')
    case _ => StepLock(me, w, p, c)
  }

  predicate Locking(pc: Pc) {
    match pc
    case AcquireLog | AcquireWriter | RemoveLog | CreateLog | ReleaseLog
       | AcquireMeta | RemoveMeta | CreateMeta | ReleaseMeta => true
    case _ => false
  }

  /** The lock files: create one, find it old, remove it and create it again, release it. A
      process that removes or releases does not look whose file it is. */
  function StepLock(me: nat, w: World, p: Proc, c: Choice): (World, Proc)
    requires Locking(p.pc)
  {
    match p.pc
    case AcquireLog =>
      if w.logLock.None? then (w.(logLock := Some(me)), Goto(p, UnderLog(p)))
      else if LooksStale(w.logLock, p.task.Explicit? && c.stale) then (w, Goto(p, RemoveLog))
      else (w, if p.task.Explicit? || c.giveUp then Goto(p, Failed) else p)
    case AcquireWriter =>
      if w.logLock.None? then (w.(logLock := Some(me)), Goto(p, UnderLog(p)))
      else (w, Goto(p, if LooksStale(w.logLock, c.stale) then RemoveLog else Failed))
    case RemoveLog => (w.(logLock := None), Goto(p, CreateLog))
    case CreateLog =>
      if w.logLock.None? then (w.(logLock := Some(me)), Goto(p, UnderLog(p))) else (w, Goto(p, Failed))
    case ReleaseLog => (w.(logLock := None), Goto(p, p.next))
    case AcquireMeta =>
      if w.metaLock.None? then (w.(metaLock := Some(me)), Goto(p, ReadMeta))
      else if LooksStale(w.metaLock, c.stale) then (w, Goto(p, RemoveMeta))
      else (w, if c.giveUp then Goto(p, Failed) else p)
    case RemoveMeta => (w.(metaLock := None), Goto(p, CreateMeta))
    case CreateMeta =>
      if w.metaLock.None? then (w.(metaLock := Some(me)), Goto(p, ReadMeta))
      else (w, Goto(p, if c.giveUp then Failed else AcquireMeta))
    case ReleaseMeta => (w.(metaLock := None), Goto(p, p.next))
  }

  /** `migrate_inner` before its lock: read and verify the legacy file and the snapshot. */
  function StepValidate(env: Env, d: Disk, p: Proc): Proc
    requires p.pc.ReadLegacy? || p.pc.ReadSnapshot?
  {
    if p.pc.ReadLegacy? then
      if env.legacy.Some? && !env.chainOk(env.legacy.value) then Goto(p, Failed)
      else p.(pc := ReadSnapshot, source := env.legacy)
    else if p.source.Some? && d.snapshot.Some? && d.snapshot != p.source then Goto(p, Failed)
    else
      var snapshot := if d.snapshot.Some? then d.snapshot else p.source;
      if snapshot.Some? && !env.chainOk(snapshot.value) then Goto(p, Failed)
      else p.(pc := AcquireLog, snapshot := snapshot)
  }

  predicate Publishing(pc: Pc) {
    match pc
    case RecheckPrepared | RecheckSource | CheckSnapshot | WriteSnapshot | ReadCanonical | CheckCanonical
       | WriteCanonical | ReadSource | ReadIdentity | CompareMetadata | WriteMetadata => true
    case _ => false
  }

  /** `migrate_inner` under its lock: recheck, then publish snapshot, canonical log, metadata. */
  function StepPublish(env: Env, d: Disk, p: Proc): (Disk, Proc)
    requires Publishing(p.pc)
  {
    match p.pc
    case RecheckPrepared => (d, match PreparedMatches(env, d.metadata)
      case NotPrepared => Goto(p, RecheckSource)
      case Matches => Release(p, AfterPrepared(p.task))
      case Conflict => Release(p, Failed))
    case RecheckSource => (d, if env.legacy != p.source then Release(p, Failed) else Goto(p, CheckSnapshot))
    case CheckSnapshot => (d, Goto(p, if d.snapshot.None? && p.snapshot.Some? then WriteSnapshot else ReadCanonical))
    case WriteSnapshot => (d.(snapshot := p.snapshot), Goto(p, ReadCanonical))
    case ReadCanonical =>
      var bound := BindLog(SnapshotDigest(env, p.snapshot), if d.canonical.Some? then d.canonical.value else []);
      (d, if bound.None? then Release(p, Failed) else p.(pc := CheckCanonical, log := bound.value))
    case CheckCanonical => (d, Goto(p, if d.canonical.None? || p.log != [] then WriteCanonical else ReadSource))
    case WriteCanonical => (d.(canonical := Some(p.log)), Goto(p, ReadSource))
    case ReadSource =>
      var source := if p.source.Some? then Some(env.path)
                    else if d.metadata.Some? then d.metadata.value.source else None;
      (d, p.(pc := ReadIdentity, metadata := Metadata(source, SnapshotDigest(env, p.snapshot), None)))
    case ReadIdentity =>
      (d, if d.metadata.None? || d.metadata.value.repositoryId.None? then Goto(p, CompareMetadata)
          else if !IsHex256(d.metadata.value.repositoryId.value) then Release(p, Failed)
          else p.(pc := CompareMetadata,
                  metadata := p.metadata.(repositoryId := d.metadata.value.repositoryId)))
    case CompareMetadata =>
      (d, if d.metadata.None? then Goto(p, WriteMetadata)
          else if d.metadata.value != p.metadata then Release(p, Failed)
          else Release(p, AfterPrepared(p.task)))
    case WriteMetadata => (d.(metadata := Some(p.metadata)), Release(p, AfterPrepared(p.task)))
  }

  predicate Gated(pc: Pc) {
    match pc
    case LoadLog | GatePrepare | SelfWait | BindPresence | BindMetadata | BindSnapshot | BindRecover
       | BindPrefix | WriteLog => true
    case _ => false
  }

  /** A writer that holds the log lock: any log it builds passes `prepare_runtime_write`.
      Preparing again while holding the lock can only wait for that same lock. */
  function StepGated(env: Env, d: Disk, p: Proc, c: Choice): (Disk, Proc)
    requires Gated(p.pc)
  {
    match p.pc
    case LoadLog => (d, p.(pc := GatePrepare, log := c.log))
    case GatePrepare => (d, match PreparedMatches(env, d.metadata)
      case NotPrepared => Goto(p, SelfWait)
      case Matches => Goto(p, BindPresence)
      case Conflict => Release(p, Failed))
    case SelfWait => (d, if c.giveUp then Release(p, Failed) else p)
    case BindPresence => (d, Goto(p, if d.snapshot.None? && d.metadata.None? then WriteLog else BindMetadata))
    case BindMetadata =>
      if d.metadata.None? && d.snapshot.None? then (d, Release(p, Failed))
      else
        var metadata := if d.metadata.Some? then d.metadata.value
                        else Metadata(None, SnapshotDigest(env, d.snapshot), None);
        (d, p.(pc := if metadata.digest.None? then WriteLog else BindSnapshot, metadata := metadata))
    case BindSnapshot =>
      (d, if d.snapshot.None? || !env.chainOk(d.snapshot.value) || SnapshotDigest(env, d.snapshot) != p.metadata.digest
          then Release(p, Failed) else Goto(p, BindRecover))
    case BindRecover => (if d.metadata.None? then d.(metadata := Some(p.metadata)) else d, Goto(p, BindPrefix))
    case BindPrefix =>
      var bound := BindLog(p.metadata.digest, p.log);
      (d, if bound.None? then Release(p, Failed) else p.(pc := WriteLog, log := bound.value))
    case WriteLog => (d.(canonical := Some(p.log)), Release(p, Done))
  }

  /** `repository_id` under the metadata lock: return the recorded identity or record one. */
  function StepIdentity(d: Disk, p: Proc, c: Choice): (Disk, Proc)
    requires p.pc.ReadMeta? || p.pc.WriteIdentity?
  {
    if p.pc.WriteIdentity? then (d.(metadata := Some(p.metadata)), p.(pc := ReleaseMeta, next := Done))
    else
      var value := if d.metadata.Some? then d.metadata.value else EMPTY_METADATA;
      if value.repositoryId.Some? then
        (d, if IsHex256(value.repositoryId.value)
            then p.(pc := ReleaseMeta, next := Done, id := value.repositoryId.value)
            else p.(pc := ReleaseMeta, next := Failed))
      else
        var id := ToHex(c.entropy);
        (d, p.(pc := WriteIdentity, id := id, metadata := value.(repositoryId := Some(id))))
  }

  /** The whole system: shared files and every command started so far. */
  datatype State = State(world: World, procs: map<nat, Proc>)

  datatype Action = Spawn(pid: nat, task: Task) | Run(pid: nat, choice: Choice) | Crash(pid: nat)

  const INITIAL := State(World(FRESH_DISK, None, None), map[])

  function Dead(s: State): set<nat> {
    set pid | pid in s.procs && s.procs[pid].pc.Crashed?
  }

  /** The effect of one action; an action that is not enabled does nothing. */
  function Apply(env: Env, s: State, a: Action): State {
    match a
    case Spawn(pid, task) => if pid in s.procs then s else s.(procs := s.procs[pid := Start(task)])
    case Run(pid, choice) =>
      if pid !in s.procs then s
      else var (w, p) := Step(env, pid, s.world, s.procs[pid], choice); State(w, s.procs[pid := p])
    case Crash(pid) =>
      if pid !in s.procs || s.procs[pid].pc.Done? || s.procs[pid].pc.Failed? then s
      else s.(procs := s.procs[pid := s.procs[pid].(pc := Crashed)])
  }

  /** The state after a sequence of actions, from a fresh runtime directory. */
  function RunAll(env: Env, actions: seq<Action>): State {
    if actions == [] then INITIAL
    else Apply(env, RunAll(env, actions[..|actions| - 1]), actions[|actions| - 1])
  }

  lemma RunSnoc(env: Env, actions: seq<Action>, a: Action)
    ensures RunAll(env, actions + [a]) == Apply(env, RunAll(env, actions), a)
  {
    assert (actions + [a])[..|actions + [a]| - 1] == actions;
  }
}
