/** What each command does when it runs alone, on any files at all: not only those that a run of the
    protocol can leave. The steps of a process are tied to one reading of the files before and
    after, which the sequential code is tied to as well. */
module RuntimeAlone {
  import opened Common
  import opened Hex
  import opened RuntimeModel
  import opened RuntimeInvariant
  import opened RuntimeSolo
  import opened RuntimeExclusion

  // ----- what the files allow -----

  /** The bytes to migrate: an existing snapshot, else the legacy file. */
  function Copy(env: Env, d: Disk): Option<Bytes> { if d.snapshot.Some? then d.snapshot else env.legacy }

  function CopyDigest(env: Env, d: Disk): Option<Digest> {
    if Copy(env, d).None? then None else Some(env.sha256(Copy(env, d).value))
  }

  /** The legacy file and the snapshot verify, and agree where both are there. */
  predicate InputsOk(env: Env, d: Disk) {
    && (env.legacy.Some? ==> env.chainOk(env.legacy.value))
    && (d.snapshot.Some? ==> env.chainOk(d.snapshot.value))
    && (env.legacy.Some? && d.snapshot.Some? ==> d.snapshot == env.legacy)
  }

  /** A log may be written for a digest: with none any log, else one that is empty or bound to it. */
  predicate LogFits(digest: Option<Digest>, log: seq<LogRecord>) {
    digest.None? || log == [] || log[0] == LegacyPrefix(digest.value)
  }

  /** The log as it is written: an empty one gets the binding record. */
  function BoundLog(digest: Option<Digest>, log: seq<LogRecord>): seq<LogRecord> {
    if digest.Some? && log == [] then [LegacyPrefix(digest.value)] else log
  }

  function LogOf(d: Disk): seq<LogRecord> { if d.canonical.Some? then d.canonical.value else [] }

  /** Metadata that a migration of this digest takes for its own. */
  predicate MetadataFits(env: Env, d: Disk, digest: Option<Digest>) {
    d.metadata.Some? ==>
      && d.metadata.value.digest == digest
      && (env.legacy.Some? ==> d.metadata.value.source == Some(env.path))
      && (d.metadata.value.repositoryId.Some? ==> IsHex256(d.metadata.value.repositoryId.value))
  }

  predicate Migratable(env: Env, d: Disk) {
    InputsOk(env, d) && LogFits(CopyDigest(env, d), LogOf(d)) && MetadataFits(env, d, CopyDigest(env, d))
  }

  /** The files after a migration, successful or not: nothing is written on bad input, only the
      snapshot when the log does not fit, and metadata only where there is none. */
  function Published(env: Env, d: Disk): Disk {
    if !InputsOk(env, d) then d
    else if !LogFits(CopyDigest(env, d), LogOf(d)) then d.(snapshot := Copy(env, d))
    else Disk(Copy(env, d), Some(BoundLog(CopyDigest(env, d), LogOf(d))),
              if d.metadata.Some? then d.metadata else Some(Metadata(LegacySource(env), CopyDigest(env, d), None)))
  }

  /** Preparation leaves existing metadata alone and only asks for the legacy file's digest. */
  predicate Preparable(env: Env, d: Disk) {
    if d.metadata.Some? then env.legacy.Some? ==> d.metadata.value.digest == Some(env.sha256(env.legacy.value))
    else Migratable(env, d)
  }

  function PreparedDisk(env: Env, d: Disk): Disk { if d.metadata.Some? then d else Published(env, d) }

  /** Prepared files that take this log: it fits the recorded digest, which is the snapshot's. */
  predicate Appendable(env: Env, d: Disk, log: seq<LogRecord>) {
    d.metadata.Some? && (d.metadata.value.digest.Some? ==>
      && d.snapshot.Some? && env.chainOk(d.snapshot.value)
      && d.metadata.value.digest == Some(env.sha256(d.snapshot.value))
      && LogFits(d.metadata.value.digest, log))
  }

  function Appended(d: Disk, log: seq<LogRecord>): Disk
    requires d.metadata.Some?
  {
    d.(canonical := Some(BoundLog(d.metadata.value.digest, log)))
  }

  /** Prepared files that give an identity: a recorded one is well formed. */
  predicate Identifiable(d: Disk) {
    d.metadata.Some? && (d.metadata.value.repositoryId.Some? ==> IsHex256(d.metadata.value.repositoryId.value))
  }

  function IdentityOf(d: Disk, entropy: Entropy): Bytes
    requires d.metadata.Some?
  {
    if d.metadata.value.repositoryId.Some? then d.metadata.value.repositoryId.value else ToHex(entropy)
  }

  function WithIdentity(d: Disk, id: Bytes): Disk
    requires d.metadata.Some?
  {
    d.(metadata := Some(d.metadata.value.(repositoryId := Some(id))))
  }

  // ----- under the log's lock -----

  /** How a section under the log's lock ends: the files, the lock released, and where to go on. */
  predicate Leaves(w: World, p: Proc, d: Disk, ok: bool, w': World, p': Proc) {
    w' == World(d, None, w.metaLock) && p'.task == p.task && p'.pc == if ok then AfterPrepared(p.task) else Failed
  }

  lemma Releases(env: Env, me: nat, c: Choice, w: World, p: Proc) returns (w': World, p': Proc)
    requires p.pc.ReleaseLog?
    ensures Gets(env, me, c, w, p, w', p') && w' == w.(logLock := None) && p' == Goto(p, p.next)
  {
    w', p' := w.(logLock := None), Goto(p, p.next);
    GetsHere(env, me, c, w', p');
    StepGets(env, me, c, w, p, w', p', w', p');
  }

  /** One step that ends the section. */
  lemma StepLeaves(env: Env, me: nat, c: Choice, w: World, p: Proc, d: Disk, next: Pc) returns (w': World, p': Proc)
    requires Step(env, me, w, p, c) == (w.(disk := d), Release(p, next))
    ensures Gets(env, me, c, w, p, w', p') && w' == World(d, None, w.metaLock) && p'.task == p.task && p'.pc == next
  {
    var w1, p1 := w.(disk := d), Release(p, next);
    w', p' := Releases(env, me, c, w1, p1);
    StepGets(env, me, c, w, p, w1, p1, w', p');
  }

  lemma CompareAlone(env: Env, me: nat, c: Choice, w: World, p: Proc) returns (w': World, p': Proc)
    requires p.pc.CompareMetadata?
    ensures Gets(env, me, c, w, p, w', p')
    ensures var found := w.disk.metadata;
            Leaves(w, p, w.disk.(metadata := if found.Some? then found else Some(p.metadata)),
                   found.Some? ==> found.value == p.metadata, w', p')
  {
    var d := w.disk;
    if d.metadata.None? {
      var p1 := Goto(p, WriteMetadata);
      w', p' := StepLeaves(env, me, c, w, p1, d.(metadata := Some(p.metadata)), AfterPrepared(p.task));
      StepGets(env, me, c, w, p, w, p1, w', p');
    } else {
      assert d.(metadata := d.metadata) == d;
      var next := if d.metadata.value == p.metadata then AfterPrepared(p.task) else Failed;
      w', p' := StepLeaves(env, me, c, w, p, d, next);
    }
  }

  /** What the metadata section makes of the files it finds. */
  function WithMetadata(env: Env, d: Disk, digest: Option<Digest>): Disk {
    d.(metadata := if d.metadata.Some? then d.metadata else Some(Metadata(LegacySource(env), digest, None)))
  }

  lemma IdentityReadAlone(env: Env, me: nat, c: Choice, w: World, p: Proc) returns (w': World, p': Proc)
    requires p.pc.ReadIdentity? && p.metadata.repositoryId.None?
    requires p.metadata.source == if env.legacy.Some? then Some(env.path)
                                  else if w.disk.metadata.Some? then w.disk.metadata.value.source else None
    ensures Gets(env, me, c, w, p, w', p')
    ensures Leaves(w, p, WithMetadata(env, w.disk, p.metadata.digest),
                   MetadataFits(env, w.disk, p.metadata.digest), w', p')
  {
    var d := w.disk;
    if d.metadata.None? || d.metadata.value.repositoryId.None? {
      var p1 := Goto(p, CompareMetadata);
      w', p' := CompareAlone(env, me, c, w, p1);
      StepGets(env, me, c, w, p, w, p1, w', p');
    } else if !IsHex256(d.metadata.value.repositoryId.value) {
      assert d.(metadata := d.metadata) == d;
      w', p' := StepLeaves(env, me, c, w, p, d, Failed);
    } else {
      var p1 := p.(pc := CompareMetadata, metadata := p.metadata.(repositoryId := d.metadata.value.repositoryId));
      w', p' := CompareAlone(env, me, c, w, p1);
      StepGets(env, me, c, w, p, w, p1, w', p');
    }
  }

  lemma SourceAlone(env: Env, me: nat, c: Choice, w: World, p: Proc) returns (w': World, p': Proc)
    requires p.pc.ReadSource? && p.source == env.legacy
    ensures Gets(env, me, c, w, p, w', p')
    ensures var digest := SnapshotDigest(env, p.snapshot);
            Leaves(w, p, WithMetadata(env, w.disk, digest), MetadataFits(env, w.disk, digest), w', p')
  {
    var source := if p.source.Some? then Some(env.path)
                  else if w.disk.metadata.Some? then w.disk.metadata.value.source else None;
    var p1 := p.(pc := ReadIdentity, metadata := Metadata(source, SnapshotDigest(env, p.snapshot), None));
    w', p' := IdentityReadAlone(env, me, c, w, p1);
    StepGets(env, me, c, w, p, w, p1, w', p');
  }

  /** From reading the canonical log on: it is bound and written, then the metadata. */
  function WithLog(env: Env, d: Disk, digest: Option<Digest>): Disk {
    if !LogFits(digest, LogOf(d)) then d
    else WithMetadata(env, d.(canonical := Some(BoundLog(digest, LogOf(d)))), digest)
  }

  lemma WriteAlone(env: Env, me: nat, c: Choice, w: World, p: Proc) returns (w': World, p': Proc)
    requires p.pc.CheckCanonical? && p.source == env.legacy
    requires p.log == [] && w.disk.canonical.Some? ==> LogOf(w.disk) == []
    ensures Gets(env, me, c, w, p, w', p')
    ensures var digest := SnapshotDigest(env, p.snapshot);
            Leaves(w, p, WithMetadata(env, w.disk.(canonical := Some(p.log)), digest),
                   MetadataFits(env, w.disk, digest), w', p')
  {
    if w.disk.canonical.None? || p.log != [] {
      var p1 := Goto(p, WriteCanonical);
      w', p' := WriteCanonicalAlone(env, me, c, w, p1);
      StepGets(env, me, c, w, p, w, p1, w', p');
    } else {
      var p1 := Goto(p, ReadSource);
      assert w.disk.(canonical := Some(p.log)) == w.disk;
      w', p' := SourceAlone(env, me, c, w, p1);
      StepGets(env, me, c, w, p, w, p1, w', p');
    }
  }

  lemma WriteCanonicalAlone(env: Env, me: nat, c: Choice, w: World, p: Proc) returns (w': World, p': Proc)
    requires p.pc.WriteCanonical? && p.source == env.legacy
    ensures Gets(env, me, c, w, p, w', p')
    ensures var digest := SnapshotDigest(env, p.snapshot);
            Leaves(w, p, WithMetadata(env, w.disk.(canonical := Some(p.log)), digest),
                   MetadataFits(env, w.disk, digest), w', p')
  {
    var w1, p1 := w.(disk := w.disk.(canonical := Some(p.log))), Goto(p, ReadSource);
    w', p' := SourceAlone(env, me, c, w1, p1);
    StepGets(env, me, c, w, p, w1, p1, w', p');
  }

  lemma CanonicalAlone(env: Env, me: nat, c: Choice, w: World, p: Proc) returns (w': World, p': Proc)
    requires p.pc.ReadCanonical? && p.source == env.legacy
    ensures Gets(env, me, c, w, p, w', p')
    ensures var digest := SnapshotDigest(env, p.snapshot);
            Leaves(w, p, WithLog(env, w.disk, digest),
                   LogFits(digest, LogOf(w.disk)) && MetadataFits(env, w.disk, digest), w', p')
  {
    var digest := SnapshotDigest(env, p.snapshot);
    if LogFits(digest, LogOf(w.disk)) {
      var p1 := p.(pc := CheckCanonical, log := BoundLog(digest, LogOf(w.disk)));
      w', p' := WriteAlone(env, me, c, w, p1);
      StepGets(env, me, c, w, p, w, p1, w', p');
    } else {
      w', p' := StepLeaves(env, me, c, w, p, w.disk, Failed);
    }
  }

  lemma SnapshotAlone(env: Env, me: nat, c: Choice, w: World, p: Proc) returns (w': World, p': Proc)
    requires p.pc.CheckSnapshot? && p.source == env.legacy && p.snapshot == Copy(env, w.disk) && InputsOk(env, w.disk)
    ensures Gets(env, me, c, w, p, w', p')
    ensures Leaves(w, p, Published(env, w.disk), Migratable(env, w.disk), w', p')
  {
    if w.disk.snapshot.None? && p.snapshot.Some? {
      var p1 := Goto(p, WriteSnapshot);
      var w2, p2 := w.(disk := w.disk.(snapshot := p.snapshot)), Goto(p, ReadCanonical);
      w', p' := CanonicalAlone(env, me, c, w2, p2);
      StepGets(env, me, c, w, p1, w2, p2, w', p');
      StepGets(env, me, c, w, p, w, p1, w', p');
    } else {
      assert w.disk.(snapshot := p.snapshot) == w.disk;
      var p1 := Goto(p, ReadCanonical);
      w', p' := CanonicalAlone(env, me, c, w, p1);
      StepGets(env, me, c, w, p, w, p1, w', p');
    }
  }

  // ----- migrations -----

  /** From the lock on, for a process that has validated its input. Only one that found no metadata
      gets here on behalf of another command. */
  lemma LockedAlone(env: Env, me: nat, c: Choice, w: World, p: Proc) returns (w': World, p': Proc)
    requires p.pc.AcquireLog? && w.logLock.None? && (p.task.Explicit? || w.disk.metadata.None?)
    requires p.source == env.legacy && p.snapshot == Copy(env, w.disk) && InputsOk(env, w.disk)
    ensures Gets(env, me, c, w, p, w', p')
    ensures Leaves(w, p, Published(env, w.disk), Migratable(env, w.disk), w', p')
  {
    var w1 := w.(logLock := Some(me));
    if p.task.Explicit? {
      var p1 := Goto(p, CheckSnapshot);
      w', p' := SnapshotAlone(env, me, c, w1, p1);
      StepGets(env, me, c, w, p, w1, p1, w', p');
    } else {
      var p1 := Goto(p, RecheckPrepared);
      w', p' := RecheckAlone(env, me, c, w1, p1);
      StepGets(env, me, c, w, p, w1, p1, w', p');
    }
  }

  lemma RecheckAlone(env: Env, me: nat, c: Choice, w: World, p: Proc) returns (w': World, p': Proc)
    requires p.pc.RecheckPrepared? && w.disk.metadata.None?
    requires p.source == env.legacy && p.snapshot == Copy(env, w.disk) && InputsOk(env, w.disk)
    ensures Gets(env, me, c, w, p, w', p')
    ensures Leaves(w, p, Published(env, w.disk), Migratable(env, w.disk), w', p')
  {
    var p1, p2 := Goto(p, RecheckSource), Goto(p, CheckSnapshot);
    w', p' := SnapshotAlone(env, me, c, w, p2);
    StepGets(env, me, c, w, p1, w, p2, w', p');
    StepGets(env, me, c, w, p, w, p1, w', p');
  }

  /** A bootstrap caller that waited: if the metadata is there by now it leaves all files alone, and
      succeeds exactly when the metadata holds the legacy file's digest. */
  lemma LateBootstrapLeavesFiles(env: Env, me: nat, c: Choice, w: World, p: Proc) returns (w': World, p': Proc)
    requires p.pc.RecheckPrepared? && w.disk.metadata.Some?
    ensures Gets(env, me, c, w, p, w', p') && Leaves(w, p, w.disk, Preparable(env, w.disk), w', p')
  {
    w', p' := StepLeaves(env, me, c, w, p, w.disk, if Preparable(env, w.disk) then AfterPrepared(p.task) else Failed);
  }

  /** One whose legacy file is no longer what it read before waiting writes nothing and fails. */
  lemma ChangedSourceIsRefused(env: Env, me: nat, c: Choice, w: World, p: Proc) returns (w': World, p': Proc)
    requires p.pc.RecheckPrepared? && w.disk.metadata.None? && p.source != env.legacy
    ensures Gets(env, me, c, w, p, w', p') && Leaves(w, p, w.disk, false, w', p')
  {
    var p1 := Goto(p, RecheckSource);
    w', p' := StepLeaves(env, me, c, w, p1, w.disk, Failed);
    StepGets(env, me, c, w, p, w, p1, w', p');
  }

  lemma StepFails(env: Env, me: nat, c: Choice, w: World, p: Proc) returns (w': World, p': Proc)
    requires Step(env, me, w, p, c) == (w, Goto(p, Failed))
    ensures Gets(env, me, c, w, p, w', p') && w' == w && p' == Goto(p, Failed)
  {
    w', p' := w, Goto(p, Failed);
    GetsHere(env, me, c, w', p');
    StepGets(env, me, c, w, p, w', p', w', p');
  }

  lemma ValidateAlone(env: Env, me: nat, c: Choice, w: World, p: Proc) returns (w': World, p': Proc)
    requires p.pc.ReadLegacy? && w.logLock.None? && (p.task.Explicit? || w.disk.metadata.None?)
    ensures Gets(env, me, c, w, p, w', p')
    ensures Leaves(w, p, Published(env, w.disk), Migratable(env, w.disk), w', p')
  {
    if env.legacy.Some? && !env.chainOk(env.legacy.value) {
      w', p' := StepFails(env, me, c, w, p);
    } else {
      var p1 := p.(pc := ReadSnapshot, source := env.legacy);
      w', p' := SnapshotReadAlone(env, me, c, w, p1);
      StepGets(env, me, c, w, p, w, p1, w', p');
    }
  }

  lemma SnapshotReadAlone(env: Env, me: nat, c: Choice, w: World, p: Proc) returns (w': World, p': Proc)
    requires p.pc.ReadSnapshot? && w.logLock.None? && (p.task.Explicit? || w.disk.metadata.None?)
    requires p.source == env.legacy && LegacyOk(env)
    ensures Gets(env, me, c, w, p, w', p')
    ensures Leaves(w, p, Published(env, w.disk), Migratable(env, w.disk), w', p')
  {
    if InputsOk(env, w.disk) {
      var p1 := p.(pc := AcquireLog, snapshot := Copy(env, w.disk));
      w', p' := LockedAlone(env, me, c, w, p1);
      StepGets(env, me, c, w, p, w, p1, w', p');
    } else {
      w', p' := StepFails(env, me, c, w, p);
    }
  }

  /** An explicit migration: whatever the files, it succeeds exactly when they are migratable, and
      leaves what is published. */
  lemma MigrationAlone(env: Env, me: nat, c: Choice, w: World) returns (w': World, p': Proc)
    requires w.logLock.None?
    ensures Gets(env, me, c, w, Start(Explicit), w', p')
    ensures p'.pc == (if Migratable(env, w.disk) then Done else Failed) && w' == w.(disk := Published(env, w.disk))
  {
    w', p' := ValidateAlone(env, me, c, w, Start(Explicit));
  }

  /** The preparation of any other command. */
  lemma PrepareAlone(env: Env, me: nat, c: Choice, w: World, task: Task) returns (w': World, p': Proc)
    requires w.logLock.None? && !task.Explicit?
    ensures Gets(env, me, c, w, Start(task), w', p') && p'.task == task
    ensures p'.pc == if Preparable(env, w.disk) then AfterPrepared(task) else Failed
    ensures w' == w.(disk := PreparedDisk(env, w.disk))
  {
    var p := Start(task);
    if w.disk.metadata.None? {
      var p1 := Goto(p, ReadLegacy);
      w', p' := ValidateAlone(env, me, c, w, p1);
      StepGets(env, me, c, w, p, w, p1, w', p');
    } else if Preparable(env, w.disk) {
      w', p' := w, Goto(p, AfterPrepared(task));
      GetsHere(env, me, c, w', p');
      StepGets(env, me, c, w, p, w', p', w', p');
    } else {
      w', p' := StepFails(env, me, c, w, p);
    }
  }

  // ----- a gated append -----

  lemma BindPrefixAlone(env: Env, me: nat, c: Choice, w: World, p: Proc) returns (w': World, p': Proc)
    requires p.pc.BindPrefix? && p.metadata.digest.Some?
    ensures Gets(env, me, c, w, p, w', p')
    ensures Writes(w, p, p.metadata.digest, LogFits(p.metadata.digest, p.log), w', p')
  {
    if LogFits(p.metadata.digest, p.log) {
      var p1 := p.(pc := WriteLog, log := BoundLog(p.metadata.digest, p.log));
      w', p' := StepLeaves(env, me, c, w, p1, w.disk.(canonical := Some(p1.log)), Done);
      StepGets(env, me, c, w, p, w, p1, w', p');
    } else {
      w', p' := StepLeaves(env, me, c, w, p, w.disk, Failed);
    }
  }

  /** How a gated append ends: the built log is in the file, or nothing was written. */
  predicate Writes(w: World, p: Proc, digest: Option<Digest>, ok: bool, w': World, p': Proc) {
    && w' == World(if ok then w.disk.(canonical := Some(BoundLog(digest, p.log))) else w.disk, None, w.metaLock)
    && p'.task == p.task && p'.pc == if ok then Done else Failed
  }

  lemma BindSnapshotAlone(env: Env, me: nat, c: Choice, w: World, p: Proc) returns (w': World, p': Proc)
    requires p.pc.BindSnapshot? && w.disk.metadata == Some(p.metadata) && p.metadata.digest.Some?
    ensures Gets(env, me, c, w, p, w', p')
    ensures Writes(w, p, p.metadata.digest, Appendable(env, w.disk, p.log), w', p')
  {
    var d := w.disk;
    if d.snapshot.None? || !env.chainOk(d.snapshot.value) || Some(env.sha256(d.snapshot.value)) != p.metadata.digest {
      w', p' := StepLeaves(env, me, c, w, p, d, Failed);
    } else {
      var p1, p2 := Goto(p, BindRecover), Goto(p, BindPrefix);
      w', p' := BindPrefixAlone(env, me, c, w, p2);
      StepGets(env, me, c, w, p1, w, p2, w', p');
      StepGets(env, me, c, w, p, w, p1, w', p');
    }
  }

  lemma BindMetadataAlone(env: Env, me: nat, c: Choice, w: World, p: Proc) returns (w': World, p': Proc)
    requires p.pc.BindMetadata? && w.disk.metadata.Some?
    ensures Gets(env, me, c, w, p, w', p')
    ensures Writes(w, p, w.disk.metadata.value.digest, Appendable(env, w.disk, p.log), w', p')
  {
    var m := w.disk.metadata.value;
    if m.digest.None? {
      var p1 := p.(pc := WriteLog, metadata := m);
      w', p' := StepLeaves(env, me, c, w, p1, w.disk.(canonical := Some(p.log)), Done);
      StepGets(env, me, c, w, p, w, p1, w', p');
    } else {
      var p1 := p.(pc := BindSnapshot, metadata := m);
      w', p' := BindSnapshotAlone(env, me, c, w, p1);
      StepGets(env, me, c, w, p, w, p1, w', p');
    }
  }

  lemma LoadAlone(env: Env, me: nat, c: Choice, w: World, p: Proc) returns (w': World, p': Proc)
    requires p.pc.LoadLog? && w.disk.metadata.Some? && Preparable(env, w.disk)
    ensures Gets(env, me, c, w, p, w', p')
    ensures Writes(w, p.(log := c.log), w.disk.metadata.value.digest, Appendable(env, w.disk, c.log), w', p')
  {
    var p1 := p.(pc := GatePrepare, log := c.log);
    w', p' := GatePrepareAlone(env, me, c, w, p1);
    StepGets(env, me, c, w, p, w, p1, w', p');
  }

  lemma GatePrepareAlone(env: Env, me: nat, c: Choice, w: World, p: Proc) returns (w': World, p': Proc)
    requires p.pc.GatePrepare? && w.disk.metadata.Some? && Preparable(env, w.disk)
    ensures Gets(env, me, c, w, p, w', p')
    ensures Writes(w, p, w.disk.metadata.value.digest, Appendable(env, w.disk, p.log), w', p')
  {
    var p1, p2 := Goto(p, BindPresence), Goto(p, BindMetadata);
    w', p' := BindMetadataAlone(env, me, c, w, p2);
    StepGets(env, me, c, w, p1, w, p2, w', p');
    StepGets(env, me, c, w, p, w, p1, w', p');
  }

  lemma GateAlone(env: Env, me: nat, c: Choice, w: World, p: Proc) returns (w': World, p': Proc)
    requires p.pc.AcquireWriter? && p.task.Writer? && w.logLock.None?
    requires w.disk.metadata.Some? && Preparable(env, w.disk)
    ensures Gets(env, me, c, w, p, w', p')
    ensures var ok := Appendable(env, w.disk, c.log);
            && w' == w.(disk := if ok then Appended(w.disk, c.log) else w.disk)
            && p'.task == p.task && p'.pc == if ok then Done else Failed
  {
    var w1, p1 := w.(logLock := Some(me)), Goto(p, LoadLog);
    w', p' := LoadAlone(env, me, c, w1, p1);
    StepGets(env, me, c, w, p, w1, p1, w', p');
  }

  /** What a gated append makes of the files: prepare, then write the log if the files take it. */
  predicate AppendOk(env: Env, d: Disk, log: seq<LogRecord>) {
    Preparable(env, d) && Appendable(env, PreparedDisk(env, d), log)
  }

  function AfterAppend(env: Env, d: Disk, log: seq<LogRecord>): Disk {
    if AppendOk(env, d, log) then Appended(PreparedDisk(env, d), log) else PreparedDisk(env, d)
  }

  /** A gated append: whatever the files, it succeeds exactly when they take the log, and then the
      canonical log is the one that was built. */
  lemma WriterAlone(env: Env, me: nat, c: Choice, w: World) returns (w': World, p': Proc)
    requires w.logLock.None?
    ensures Gets(env, me, c, w, Start(Writer), w', p')
    ensures p'.pc == (if AppendOk(env, w.disk, c.log) then Done else Failed)
    ensures w' == w.(disk := AfterAppend(env, w.disk, c.log))
  {
    w', p' := PrepareAlone(env, me, c, w, Writer);
    if Preparable(env, w.disk) {
      var w1, p1 := w', p';
      w', p' := GateAlone(env, me, c, w1, p1);
      GetsTransitive(env, me, c, w, Start(Writer), w1, p1, w', p');
    }
  }

  // ----- an identity call -----

  lemma IdentityLockedAlone(env: Env, me: nat, c: Choice, w: World, p: Proc) returns (w': World, p': Proc)
    requires p.pc.ReadMeta? && w.disk.metadata.Some?
    ensures Gets(env, me, c, w, p, w', p') && p'.task == p.task
    ensures var id := IdentityOf(w.disk, c.entropy);
            && w' == World(WithIdentity(w.disk, id), w.logLock, None)
            && p'.pc == (if Identifiable(w.disk) then Done else Failed) && (p'.pc.Done? ==> p'.id == id)
  {
    var d, id := w.disk, IdentityOf(w.disk, c.entropy);
    if d.metadata.value.repositoryId.Some? {
      assert WithIdentity(d, id) == d;
      var p1 := if IsHex256(id) then p.(pc := ReleaseMeta, next := Done, id := id)
                else p.(pc := ReleaseMeta, next := Failed);
      w', p' := MetaReleases(env, me, c, w, p1);
      StepGets(env, me, c, w, p, w, p1, w', p');
    } else {
      var p1 := p.(pc := WriteIdentity, id := id, metadata := d.metadata.value.(repositoryId := Some(id)));
      var w2, p2 := w.(disk := WithIdentity(d, id)), p1.(pc := ReleaseMeta, next := Done);
      w', p' := MetaReleases(env, me, c, w2, p2);
      StepGets(env, me, c, w, p1, w2, p2, w', p');
      StepGets(env, me, c, w, p, w, p1, w', p');
    }
  }

  lemma MetaReleases(env: Env, me: nat, c: Choice, w: World, p: Proc) returns (w': World, p': Proc)
    requires p.pc.ReleaseMeta?
    ensures Gets(env, me, c, w, p, w', p') && w' == w.(metaLock := None) && p' == Goto(p, p.next)
  {
    w', p' := w.(metaLock := None), Goto(p, p.next);
    GetsHere(env, me, c, w', p');
    StepGets(env, me, c, w, p, w', p', w', p');
  }

  predicate IdentityOk(env: Env, d: Disk) { Preparable(env, d) && Identifiable(PreparedDisk(env, d)) }

  function AfterIdentity(env: Env, d: Disk, entropy: Entropy): Disk {
    var prepared := PreparedDisk(env, d);
    if IdentityOk(env, d) then WithIdentity(prepared, IdentityOf(prepared, entropy)) else prepared
  }

  lemma PreparedHasMetadata(env: Env, d: Disk)
    requires Preparable(env, d)
    ensures PreparedDisk(env, d).metadata.Some?
  {
  }

  /** From taking the metadata's lock on. */
  lemma IdentityPreparedAlone(env: Env, me: nat, c: Choice, w: World, p: Proc) returns (w': World, p': Proc)
    requires p.pc == AfterPrepared(Identity) && w.metaLock.None? && w.disk.metadata.Some?
    ensures Gets(env, me, c, w, p, w', p')
    ensures p'.pc == (if Identifiable(w.disk) then Done else Failed)
    ensures w' == w.(disk := if Identifiable(w.disk) then WithIdentity(w.disk, IdentityOf(w.disk, c.entropy))
                             else w.disk)
    ensures p'.pc.Done? ==> Recorded(w'.disk, p'.id)
  {
    var w1, p1 := w.(metaLock := Some(me)), Goto(p, ReadMeta);
    w', p' := IdentityLockedAlone(env, me, c, w1, p1);
    StepGets(env, me, c, w, p, w1, p1, w', p');
  }

  /** An identity call: whatever the files, it succeeds exactly when they can be prepared and hold no
      malformed identity, and returns the identity that is then on record. */
  lemma IdentityAlone(env: Env, me: nat, c: Choice, w: World) returns (w': World, p': Proc)
    requires w.logLock.None? && w.metaLock.None?
    ensures Gets(env, me, c, w, Start(Identity), w', p')
    ensures p'.pc == (if IdentityOk(env, w.disk) then Done else Failed)
    ensures w' == w.(disk := AfterIdentity(env, w.disk, c.entropy))
    ensures p'.pc.Done? ==> Recorded(w'.disk, p'.id)
  {
    w', p' := PrepareAlone(env, me, c, w, Identity);
    if Preparable(env, w.disk) {
      PreparedHasMetadata(env, w.disk);
      var w1, p1 := w', p';
      w', p' := IdentityPreparedAlone(env, me, c, w1, p1);
      GetsTransitive(env, me, c, w, Start(Identity), w1, p1, w', p');
    }
  }

  // ----- a lock that is taken -----

  /** A bootstrap migration that finds the log's lock taken waits: it changes nothing, however old the
      lock file looks, until it gives up. */
  lemma {:induction false} BootstrapNeverReclaims(env: Env, me: nat, w: World, p: Proc, choices: seq<Choice>)
    requires p.pc.AcquireLog? && !p.task.Explicit? && w.logLock.Some?
    ensures var (w', p') := Solo(env, me, w, p, choices);
            w' == w && p' == if exists i :: 0 <= i < |choices| && choices[i].giveUp then Goto(p, Failed) else p
    decreases |choices|
  {
    if choices == [] {
    } else if choices[0].giveUp {
      FailedStays(env, me, w, Goto(p, Failed), choices[1..]);
    } else {
      BootstrapNeverReclaims(env, me, w, p, choices[1..]);
      assert forall i :: 0 < i < |choices| ==> choices[i] == choices[1..][i - 1];
      assert forall i :: 0 <= i < |choices[1..]| ==> choices[1..][i] == choices[i + 1];
    }
  }

  lemma {:induction false} FailedStays(env: Env, me: nat, w: World, p: Proc, choices: seq<Choice>)
    requires p.pc.Failed?
    ensures Solo(env, me, w, p, choices) == (w, p)
    decreases |choices|
  {
    if choices == [] {
    } else {
      FailedStays(env, me, w, p, choices[1..]);
    }
  }

  /** Explicit migrations and writers that find a lock taken, and not old, report it at once. */
  lemma TakenIsReported(env: Env, me: nat, c: Choice, w: World, p: Proc)
    requires w.logLock.Some? && !c.stale && ((p.pc.AcquireLog? && p.task.Explicit?) || p.pc.AcquireWriter?)
    ensures Step(env, me, w, p, c) == (w, Goto(p, Failed))
  {
  }
}
