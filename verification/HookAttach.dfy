/** Attaching to and detaching from a repository's hooks: `do_run` and `detach` of `attach.rs`.
    Files are cells; a backup is addressed by hook kind and content digest. */
module HookAttach {
  import opened Common

  type Digest = string

  /** A hook path that exists: a regular file with its executable flag, or something else. */
  datatype Hook = Regular(bytes: Bytes, executable: bool) | Irregular

  datatype Record = Record(kind: string, dispatcherDigest: Digest, backup: Option<(string, Digest)>,
                           foreignDigest: Option<Digest>, foreignExecutable: bool)
  datatype Manifest = Manifest(version: nat, hooksPath: string, records: seq<Record>)

  datatype Store = Store(hooks: map<string, Hook>, backups: map<(string, Digest), Bytes>, manifest: Option<Manifest>)

  /** The active hooks path, SHA-256, and the script written for a hook, which calls the backup
      of a foreign hook when one is given. */
  datatype Env = Env(hooksPath: string, sha256: Bytes -> Digest,
                     dispatcher: (string, Option<(string, Digest)>) -> Bytes)

  const MANIFEST_VERSION: nat := 1
  const HOOK_KINDS := ["post-commit", "post-checkout", "pre-push", "post-merge", "post-rewrite",
                       "reference-transaction"]

  /** What is to be done for one hook kind. */
  datatype Plan = Plan(kind: string, foreign: Option<Hook>, previous: Option<Record>)

  datatype Outcome =
    | Attached | Detached | InvalidManifest | UnsafePath | AdoptionRequired | TokenMismatch | BackupChanged | NoManifest

  function Token(env: Env, kind: string, bytes: Bytes): string { kind + ":" + env.sha256(bytes) }

  predicate ManifestOk(env: Env, m: Manifest) { m.version == MANIFEST_VERSION && m.hooksPath == env.hooksPath }

  /** The first record of this kind whose dispatcher is what the hook holds now. */
  function FindRecord(records: seq<Record>, kind: string, digest: Digest): Option<Record> {
    if records == [] then None
    else if records[0].kind == kind && records[0].dispatcherDigest == digest then Some(records[0])
    else FindRecord(records[1..], kind, digest)
  }

  function PlanFor(env: Env, s: Store, kind: string): Plan
    requires kind in s.hooks ==> s.hooks[kind].Regular?
  {
    if kind !in s.hooks then Plan(kind, None, None)
    else
      var previous := if s.manifest.None? then None
                      else FindRecord(s.manifest.value.records, kind, env.sha256(s.hooks[kind].bytes));
      if previous.Some? then Plan(kind, None, previous) else Plan(kind, Some(s.hooks[kind]), None)
  }

  predicate HooksRegular(s: Store, kinds: seq<string>) {
    forall i :: 0 <= i < |kinds| && kinds[i] in s.hooks ==> s.hooks[kinds[i]].Regular?
  }

  /** The backup a plan keeps or takes, as (address, digest, executable). */
  function BackupFor(env: Env, p: Plan): Option<((string, Digest), Digest, bool)>
    requires p.foreign.Some? ==> p.foreign.value.Regular?
  {
    if p.previous.Some? then
      if p.previous.value.backup.None? then None
      else Some((p.previous.value.backup.value,
                 if p.previous.value.foreignDigest.Some? then p.previous.value.foreignDigest.value else "",
                 p.previous.value.foreignExecutable))
    else if p.foreign.Some? then
      var d := env.sha256(p.foreign.value.bytes);
      Some(((p.kind, d), d, p.foreign.value.executable))
    else None
  }

  function Script(env: Env, p: Plan): Bytes
    requires p.foreign.Some? ==> p.foreign.value.Regular?
  {
    var b := BackupFor(env, p);
    env.dispatcher(p.kind, if b.Some? && b.value.2 then Some(b.value.0) else None)
  }

  function RecordFor(env: Env, p: Plan): Record
    requires p.foreign.Some? ==> p.foreign.value.Regular?
  {
    var b := BackupFor(env, p);
    Record(p.kind, env.sha256(Script(env, p)), if b.Some? then Some(b.value.0) else None,
           if b.Some? then Some(b.value.1) else None, b.Some? && b.value.2)
  }

  /** Carry out one plan: keep an existing backup, take a missing one, install the dispatcher. */
  function Install(env: Env, s: Store, p: Plan): Store
    requires p.foreign.Some? ==> p.foreign.value.Regular?
  {
    var address := if p.foreign.Some? then (p.kind, env.sha256(p.foreign.value.bytes)) else ("", "");
    s.(backups := if p.previous.None? && p.foreign.Some? && address !in s.backups
                  then s.backups[address := p.foreign.value.bytes] else s.backups,
       hooks := s.hooks[p.kind := Regular(Script(env, p), true)])
  }

  predicate TokenOk(env: Env, p: Plan, requested: Option<string>)
    requires p.foreign.Some? ==> p.foreign.value.Regular?
  {
    p.previous.Some? || p.foreign.None? || requested == Some(Token(env, p.kind, p.foreign.value.bytes))
  }

  ghost predicate PlansOk(plans: seq<Plan>) {
    forall i :: 0 <= i < |plans| && plans[i].foreign.Some? ==> plans[i].foreign.value.Regular?
  }

  /** The second loop from plan `i`: the store, and whether every plan was carried out. */
  function InstallAll(env: Env, s: Store, plans: seq<Plan>, i: nat, requested: Option<string>): (Store, bool)
    requires i <= |plans| && PlansOk(plans)
    decreases |plans| - i
  {
    if i == |plans| then (s, true)
    else if !TokenOk(env, plans[i], requested) then (s, false)
    else InstallAll(env, Install(env, s, plans[i]), plans, i + 1, requested)
  }

  function PlanAll(env: Env, s: Store): (plans: seq<Plan>)
    requires HooksRegular(s, HOOK_KINDS)
    ensures PlansOk(plans) && |plans| == |HOOK_KINDS|
    ensures forall i :: 0 <= i < |plans| ==> plans[i] == PlanFor(env, s, HOOK_KINDS[i])
  {
    seq(|HOOK_KINDS|, i requires 0 <= i < |HOOK_KINDS| => PlanFor(env, s, HOOK_KINDS[i]))
  }

  function RecordAll(env: Env, plans: seq<Plan>): (records: seq<Record>)
    requires PlansOk(plans)
    ensures |records| == |plans| && forall i :: 0 <= i < |plans| ==> records[i] == RecordFor(env, plans[i])
  {
    seq(|plans|,
        i requires 0 <= i < |plans| && (plans[i].foreign.Some? ==> plans[i].foreign.value.Regular?) =>
          RecordFor(env, plans[i]))
  }

  /** What an attach does to the store. */
  function AttachTo(env: Env, s: Store, requested: Option<string>): (Store, Outcome) {
    if s.manifest.Some? && !ManifestOk(env, s.manifest.value) then (s, InvalidManifest)
    else if !HooksRegular(s, HOOK_KINDS) then (s, UnsafePath)
    else
      var plans := PlanAll(env, s);
      if requested.None? && exists i :: 0 <= i < |plans| && plans[i].foreign.Some? then (s, AdoptionRequired)
      else
        var (after, ok) := InstallAll(env, s, plans, 0, requested);
        var manifest := Manifest(MANIFEST_VERSION, env.hooksPath, RecordAll(env, plans));
        if ok then (after.(manifest := Some(manifest)), Attached)
        else (after, TokenMismatch)
  }

  /** Restore one recorded hook; false when detaching must stop. */
  function Restore(env: Env, s: Store, r: Record): (Store, Outcome) {
    if r.kind in s.hooks && s.hooks[r.kind].Irregular? then (s, UnsafePath)
    else if r.kind !in s.hooks || env.sha256(s.hooks[r.kind].bytes) != r.dispatcherDigest then (s, Detached)
    else if r.backup.None? then (s.(hooks := s.hooks - {r.kind}), Detached)
    else if r.backup.value !in s.backups || Some(env.sha256(s.backups[r.backup.value])) != r.foreignDigest then
      (s, BackupChanged)
    else (s.(hooks := s.hooks[r.kind := Regular(s.backups[r.backup.value], r.foreignExecutable)]), Detached)
  }

  function RestoreAll(env: Env, s: Store, records: seq<Record>, i: nat): (Store, Outcome)
    requires i <= |records|
    decreases |records| - i
  {
    if i == |records| then (s, Detached)
    else
      var (after, outcome) := Restore(env, s, records[i]);
      if outcome.Detached? then RestoreAll(env, after, records, i + 1) else (after, outcome)
  }

  /** What a detach does to the store. */
  function DetachFrom(env: Env, s: Store): (Store, Outcome) {
    if s.manifest.None? then (s, NoManifest)
    else if !ManifestOk(env, s.manifest.value) then (s, InvalidManifest)
    else RestoreAll(env, s, s.manifest.value.records, 0)
  }

  /** The hooks directory and hugit's own files, changed in place. */
  class HookFiles {
    const env: Env
    var hooks: map<string, Hook>
    var backups: map<(string, Digest), Bytes>
    var manifest: Option<Manifest>

    constructor (env: Env, hooks: map<string, Hook>)
      ensures this.env == env && Contents() == Store(hooks, map[], None)
    {
      this.env := env;
      this.hooks, backups, manifest := hooks, map[], None;
    }

    function Contents(): Store
      reads this
    {
      Store(hooks, backups, manifest)
    }

    /** The first loop: look at every hook kind, change nothing. */
    method PlanHooks() returns (plans: Option<seq<Plan>>)
      ensures plans.None? <==> !HooksRegular(Contents(), HOOK_KINDS)
      ensures plans.Some? ==> plans.value == PlanAll(env, Contents())
    {
      var found: seq<Plan> := [];
      for i := 0 to |HOOK_KINDS|
        invariant |found| == i
        invariant forall j :: 0 <= j < i && HOOK_KINDS[j] in hooks ==> hooks[HOOK_KINDS[j]].Regular?
        invariant forall j :: 0 <= j < i ==> found[j] == PlanFor(env, Contents(), HOOK_KINDS[j])
      {
        var kind := HOOK_KINDS[i];
        if kind in hooks && hooks[kind].Irregular? { return None; }
        found := found + [PlanFor(env, Contents(), kind)];
      }
      assert found == PlanAll(env, Contents());
      return Some(found);
    }

    /** The second loop: back up, install and record, until a token does not match. */
    method InstallHooks(plans: seq<Plan>, requested: Option<string>) returns (records: Option<seq<Record>>)
      requires PlansOk(plans)
      modifies this`hooks, this`backups
      ensures (Contents(), records.Some?) == InstallAll(env, old(Contents()), plans, 0, requested)
      ensures records.Some? ==> records.value == RecordAll(env, plans)
    {
      var done: seq<Record> := [];
      for i := 0 to |plans|
        invariant |done| == i && forall j :: 0 <= j < i ==> done[j] == RecordFor(env, plans[j])
        invariant InstallAll(env, old(Contents()), plans, 0, requested) ==
                  InstallAll(env, Contents(), plans, i, requested)
      {
        var p := plans[i];
        if p.previous.None? && p.foreign.Some? {
          var bytes := p.foreign.value.bytes;
          if requested != Some(Token(env, p.kind, bytes)) { return None; }
          var address := (p.kind, env.sha256(bytes));
          if address !in backups { backups := backups[address := bytes]; }
        }
        hooks := hooks[p.kind := Regular(Script(env, p), true)];
        done := done + [RecordFor(env, p)];
      }
      assert done == RecordAll(env, plans);
      return Some(done);
    }

    method Attach(requested: Option<string>) returns (r: Outcome)
      modifies this
      ensures (Contents(), r) == AttachTo(env, old(Contents()), requested)
    {
      if manifest.Some? && !ManifestOk(env, manifest.value) { return InvalidManifest; }
      var planned := PlanHooks();
      if planned.None? { return UnsafePath; }
      var plans := planned.value;
      if requested.None? && exists i :: 0 <= i < |plans| && plans[i].foreign.Some? { return AdoptionRequired; }
      var records := InstallHooks(plans, requested);
      if records.None? { return TokenMismatch; }
      manifest := Some(Manifest(MANIFEST_VERSION, env.hooksPath, records.value));
      return Attached;
    }

    method Detach() returns (r: Outcome)
      modifies this
      ensures (Contents(), r) == DetachFrom(env, old(Contents()))
    {
      if manifest.None? { return NoManifest; }
      if !ManifestOk(env, manifest.value) { return InvalidManifest; }
      ghost var s := Contents();
      var records := manifest.value.records;
      for i := 0 to |records|
        invariant manifest == s.manifest && backups == s.backups
        invariant RestoreAll(env, s, records, 0) == RestoreAll(env, Contents(), records, i)
      {
        var record := records[i];
        if record.kind in hooks && hooks[record.kind].Irregular? { return UnsafePath; }
        if record.kind !in hooks || env.sha256(hooks[record.kind].bytes) != record.dispatcherDigest { continue; }
        if record.backup.Some? {
          if record.backup.value !in backups || Some(env.sha256(backups[record.backup.value])) != record.foreignDigest {
            return BackupChanged;
          }
          hooks := hooks[record.kind := Regular(backups[record.backup.value], record.foreignExecutable)];
        } else {
          hooks := hooks - {record.kind};
        }
      }
      return Detached;
    }
  }
}
