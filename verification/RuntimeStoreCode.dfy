/** The same commands as sequential code over the store's files, for a caller that runs undisturbed.
    Each is proved to do what its steps do when run alone, on any files at all, and to leave what
    the recovery theorems promise on files that a run can leave. */
module RuntimeStoreCode {
  import opened Common
  import opened Hex
  import opened RuntimeModel
  import opened RuntimeInvariant
  import opened RuntimeExclusion
  import opened RuntimeAlone
  import opened RuntimeRecovery

  class RuntimeStore {
    const env: Env
    var snapshot: Option<Bytes>
    var canonical: Option<seq<LogRecord>>
    var metadata: Option<Metadata>

    constructor (env: Env)
      ensures this.env == env && Contents() == FRESH_DISK
    {
      this.env := env;
      snapshot, canonical, metadata := None, None, None;
    }

    function Contents(): Disk
      reads this
    {
      Disk(snapshot, canonical, metadata)
    }

    /** `migrate_inner`, with the metadata recheck of a bootstrap caller. From any files at all it
        never replaces a snapshot or metadata; from files a run can leave it completes them. */
    method MigrateInner(bootstrap: bool) returns (ok: bool)
      modifies this
      ensures !bootstrap || old(metadata).None? ==>
                (ok <==> Migratable(env, old(Contents()))) && Contents() == Published(env, old(Contents()))
      ensures bootstrap && old(metadata).Some? ==>
                (ok <==> InputsOk(env, Contents()) && Preparable(env, Contents())) && Contents() == old(Contents())
      ensures DiskSafe(env, old(Contents())) && LegacyOk(env) ==> ok && Contents() == Complete(env, old(Contents()))
      ensures !LegacyOk(env) ==> !ok && Contents() == old(Contents())
      ensures DiskSafe(env, old(Contents())) ==> DiskSafe(env, Contents())
      ensures old(snapshot).Some? ==> snapshot == old(snapshot)
      ensures old(metadata).Some? ==> metadata == old(metadata)
      ensures ok ==> metadata.Some?
    {
      var source := env.legacy;
      if source.Some? && !env.chainOk(source.value) { return false; }
      var copy := source;
      if snapshot.Some? {
        if source.Some? && snapshot != source { return false; }
        copy := snapshot;
      }
      if copy.Some? && !env.chainOk(copy.value) { return false; }
      var digest := SnapshotDigest(env, copy);
      if bootstrap {
        match PreparedMatches(env, metadata) {
          case Matches => return true;
          case Conflict => return false;
          case NotPrepared =>
        }
      }
      if snapshot.None? && copy.Some? { snapshot := copy; }
      var log := if canonical.Some? then canonical.value else [];
      if digest.Some? {
        if log == [] {
          log := [LegacyPrefix(digest.value)];
        } else if log[0] != LegacyPrefix(digest.value) {
          return false;
        }
      }
      if canonical.None? || log != [] { canonical := Some(log); }
      var legacySource := if source.Some? then Some(env.path)
                          else if metadata.Some? then metadata.value.source else None;
      var recorded := Metadata(legacySource, digest, None);
      if metadata.Some? && metadata.value.repositoryId.Some? {
        if !IsHex256(metadata.value.repositoryId.value) { return false; }
        recorded := recorded.(repositoryId := metadata.value.repositoryId);
      }
      if metadata.Some? { return metadata.value == recorded; }
      metadata := Some(recorded);
      return true;
    }

    /** `prepare_runtime_log`. */
    method Prepare() returns (ok: bool)
      modifies this
      ensures (ok <==> Preparable(env, old(Contents()))) && Contents() == PreparedDisk(env, old(Contents()))
      ensures DiskSafe(env, old(Contents())) && LegacyOk(env) ==> ok && Contents() == Complete(env, old(Contents()))
      ensures DiskSafe(env, old(Contents())) ==> DiskSafe(env, Contents())
      ensures old(metadata).Some? ==> Contents() == old(Contents())
      ensures ok ==> metadata.Some?
    {
      match PreparedMatches(env, metadata) {
        case Matches =>
          if DiskSafe(env, Contents()) { CompletedIsComplete(env, Contents()); }
          return true;
        case Conflict => return false;
        case NotPrepared =>
      }
      ok := MigrateInner(true);
    }

    /** `repository_id`: on files that a run can leave it always succeeds, it returns the recorded
        identity when there is one, and it changes nothing but the identity. */
    method RepositoryId(entropy: Entropy) returns (id: Option<Bytes>)
      modifies this
      ensures id.Some? <==> IdentityOk(env, old(Contents()))
      ensures Contents() == AfterIdentity(env, old(Contents()), entropy)
      ensures DiskSafe(env, old(Contents())) && LegacyOk(env) ==>
                id.Some? && IsHex256(id.value) && Recorded(Contents(), id.value) &&
                Contents() == Complete(env, old(Contents())).(metadata := metadata)
      ensures old(metadata).Some? && old(metadata).value.repositoryId.Some? ==>
                Contents() == old(Contents()) && (id.None? || id == old(metadata).value.repositoryId)
      ensures id.Some? ==> IsHex256(id.value) && Recorded(Contents(), id.value)
    {
      var ok := Prepare();
      if !ok { return None; }
      var value := metadata.value;
      if value.repositoryId.Some? {
        return if IsHex256(value.repositoryId.value) then value.repositoryId else None;
      }
      var generated := ToHex(entropy);
      HexRoundTrip(entropy);
      metadata := Some(value.(repositoryId := Some(generated)));
      return Some(generated);
    }

    /** A gated append: whatever log the caller has built, only one that carries the legacy
        prefix reaches the file, and a caller that built one starting with it gets it written. */
    method Append(built: seq<LogRecord>) returns (ok: bool)
      modifies this
      ensures (ok <==> AppendOk(env, old(Contents()), built)) && Contents() == AfterAppend(env, old(Contents()), built)
      ensures DiskSafe(env, old(Contents())) ==> DiskSafe(env, Contents())
      ensures DiskSafe(env, old(Contents())) && LegacyOk(env) ==>
                && (ok <==> built == [] || Bound(env, built))
                && Contents() == Complete(env, old(Contents())).(
                                   canonical := if !ok then Some(CompleteLog(env, old(canonical)))
                                                else if built == [] then Some(CompleteLog(env, None)) else Some(built))
    {
      ok := Prepare();
      if !ok { return; }
      var digest := metadata.value.digest;
      if digest.Some? && (snapshot.None? || !env.chainOk(snapshot.value) || SnapshotDigest(env, snapshot) != digest) {
        return false;
      }
      var bound := BindLog(digest, built);
      if bound.None? { return false; }
      canonical := bound;
    }
  }
}
