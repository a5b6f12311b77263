/** What attach and detach may touch, whatever was edited in between: from any hooks, backups and
    manifest at all. */
module HookEdits {
  import opened Common
  import opened HookAttach
  import opened HookAttachProofs

  ghost predicate DistinctKinds(records: seq<Record>) {
    forall i, j :: 0 <= i < j < |records| ==> records[i].kind != records[j].kind
  }

  /** The recorded hook still holds the dispatcher that was installed. */
  predicate StillOwned(env: Env, s: Store, r: Record) {
    r.kind in s.hooks && s.hooks[r.kind].Regular? && env.sha256(s.hooks[r.kind].bytes) == r.dispatcherDigest
  }

  /** Detaching gets past this record: the path is no irregular file, and a backup that is needed is
      there and unchanged. */
  predicate Passable(env: Env, s: Store, r: Record) {
    && !(r.kind in s.hooks && s.hooks[r.kind].Irregular?)
    && (StillOwned(env, s, r) && r.backup.Some? ==>
        r.backup.value in s.backups && Some(env.sha256(s.backups[r.backup.value])) == r.foreignDigest)
  }

  predicate SameHook(s: Store, t: Store, kind: string) {
    (kind in t.hooks <==> kind in s.hooks) && (kind in s.hooks ==> t.hooks[kind] == s.hooks[kind])
  }

  /** The hook is gone, or holds the backup with the recorded executable flag. */
  predicate Restored(s: Store, r: Record, t: Store) {
    if r.backup.None? then r.kind !in t.hooks
    else
      r.backup.value in s.backups && r.kind in t.hooks &&
      t.hooks[r.kind] == Regular(s.backups[r.backup.value], r.foreignExecutable)
  }

  /** The records from `i` on were handled: hooks still owned are restored, all others are as they were. */
  ghost predicate Handled(env: Env, s: Store, records: seq<Record>, i: nat, t: Store)
    requires i <= |records|
  {
    && (forall j :: i <= j < |records| && StillOwned(env, s, records[j]) ==> Restored(s, records[j], t))
    && (forall kind :: (forall j :: i <= j < |records| ==> records[j].kind != kind || !StillOwned(env, s, records[j]))
          ==> SameHook(s, t, kind))
  }

  lemma RestoreEffect(env: Env, s: Store, r: Record)
    ensures var (t, outcome) := Restore(env, s, r);
            && (outcome.Detached? <==> Passable(env, s, r))
            && t.backups == s.backups && t.manifest == s.manifest
            && (forall kind :: kind != r.kind ==> SameHook(s, t, kind))
            && (outcome.Detached? && StillOwned(env, s, r) ==> Restored(s, r, t))
            && (!StillOwned(env, s, r) ==> t == s)
  {
  }

  lemma {:induction false} RestoreAllEffect(env: Env, s: Store, records: seq<Record>, i: nat)
    requires i <= |records| && DistinctKinds(records)
    ensures var (t, outcome) := RestoreAll(env, s, records, i);
            && (outcome.Detached? <==> forall j :: i <= j < |records| ==> Passable(env, s, records[j]))
            && t.backups == s.backups && t.manifest == s.manifest
            && (outcome.Detached? ==> Handled(env, s, records, i, t))
    decreases |records| - i
  {
    if i == |records| {
    } else {
      var (mid, outcome) := Restore(env, s, records[i]);
      RestoreEffect(env, s, records[i]);
      if outcome.Detached? {
        RestoreAllEffect(env, mid, records, i + 1);
        assert forall j :: i < j < |records| ==> SameHook(s, mid, records[j].kind);
        HandledFirst(env, s, mid, records, i, RestoreAll(env, mid, records, i + 1));
      }
    }
  }

  lemma HandledFirst(env: Env, s: Store, mid: Store, records: seq<Record>, i: nat, rest: (Store, Outcome))
    requires i < |records| && DistinctKinds(records) && mid.backups == s.backups && Passable(env, s, records[i])
    requires forall kind :: kind != records[i].kind ==> SameHook(s, mid, kind)
    requires StillOwned(env, s, records[i]) ==> Restored(s, records[i], mid)
    requires !StillOwned(env, s, records[i]) ==> mid == s
    requires rest.1.Detached? ==> Handled(env, mid, records, i + 1, rest.0)
    requires rest.1.Detached? <==> forall j :: i < j < |records| ==> Passable(env, mid, records[j])
    ensures rest.1.Detached? <==> forall j :: i <= j < |records| ==> Passable(env, s, records[j])
    ensures rest.1.Detached? ==> Handled(env, s, records, i, rest.0)
  {
    forall j | i < j < |records|
      ensures StillOwned(env, s, records[j]) <==> StillOwned(env, mid, records[j])
      ensures Passable(env, s, records[j]) <==> Passable(env, mid, records[j])
    {
      assert records[i].kind != records[j].kind && SameHook(s, mid, records[j].kind);
    }
    if rest.1.Detached? {
      var t := rest.0;
      assert forall j :: i < j < |records| ==> records[j].kind != records[i].kind;
      assert SameHook(mid, t, records[i].kind);
      forall kind | forall j :: i <= j < |records| ==> records[j].kind != kind || !StillOwned(env, s, records[j])
        ensures SameHook(s, t, kind)
      {
        assert SameHook(mid, t, kind);
        if kind == records[i].kind { assert mid == s; } else { assert SameHook(s, mid, kind); }
      }
    }
  }

  /** Detach, exactly: it succeeds when the manifest is its own and no recorded hook stands in its way;
      then every hook that still holds its dispatcher is restored, and every other hook, edited or
      foreign, is left as it is. Backups and manifest stay in any case. */
  lemma DetachExactly(env: Env, s: Store)
    requires s.manifest.Some? ==> DistinctKinds(s.manifest.value.records)
    ensures var (t, outcome) := DetachFrom(env, s);
            && (outcome.Detached? <==>
                && s.manifest.Some? && s.manifest.value.version == 1 && s.manifest.value.hooksPath == env.hooksPath
                && forall j :: 0 <= j < |s.manifest.value.records| ==> Passable(env, s, s.manifest.value.records[j]))
            && t.backups == s.backups && t.manifest == s.manifest
            && (outcome.Detached? ==> Handled(env, s, s.manifest.value.records, 0, t))
  {
    if s.manifest.Some? { RestoreAllEffect(env, s, s.manifest.value.records, 0); }
  }

  /** A hook that was edited since is left alone, for every outcome of a detach. */
  lemma {:induction false} EditedHookIsLeft(env: Env, s: Store, records: seq<Record>, i: nat, kind: string)
    requires i <= |records|
    requires forall j :: 0 <= j < |records| && records[j].kind == kind ==> !StillOwned(env, s, records[j])
    ensures SameHook(s, RestoreAll(env, s, records, i).0, kind)
    decreases |records| - i
  {
    if i == |records| {
    } else {
      var (mid, outcome) := Restore(env, s, records[i]);
      RestoreEffect(env, s, records[i]);
      assert SameHook(s, mid, kind);
      if outcome.Detached? { EditedHookIsLeft(env, mid, records, i + 1, kind); }
    }
  }

  // ----- attach -----

  /** What an attach never does: change a backup that is there, or a hook that is not managed. */
  ghost predicate Keeps(s: Store, t: Store) {
    && (forall a :: a in s.backups ==> a in t.backups && t.backups[a] == s.backups[a])
    && (forall kind :: !IsKind(kind) ==> SameHook(s, t, kind))
  }

  lemma {:induction false} InstallAllKeeps(env: Env, s: Store, plans: seq<Plan>, i: nat, requested: Option<string>)
    requires i <= |plans| && PlansOk(plans) && forall j :: 0 <= j < |plans| ==> IsKind(plans[j].kind)
    ensures Keeps(s, InstallAll(env, s, plans, i, requested).0)
    ensures InstallAll(env, s, plans, i, requested).0.manifest == s.manifest
    decreases |plans| - i
  {
    if i == |plans| {
    } else if TokenOk(env, plans[i], requested) {
      InstallAllKeeps(env, Install(env, s, plans[i]), plans, i + 1, requested);
    }
  }

  /** A hook that hugit did not put there: no record of its kind has its digest. */
  ghost predicate Foreign(env: Env, s: Store, kind: string) {
    && kind in s.hooks && s.hooks[kind].Regular?
    && (s.manifest.Some? ==> forall r :: r in s.manifest.value.records && r.kind == kind ==>
          r.dispatcherDigest != env.sha256(s.hooks[kind].bytes))
  }

  lemma ForeignIff(env: Env, s: Store, i: nat)
    requires i < |HOOK_KINDS| && HooksRegular(s, HOOK_KINDS)
    ensures IsForeign(env, s, i) <==> Foreign(env, s, HOOK_KINDS[i])
  {
    var kind := HOOK_KINDS[i];
    if kind in s.hooks && s.manifest.Some? {
      var records, digest := s.manifest.value.records, env.sha256(s.hooks[kind].bytes);
      if FindRecord(records, kind, digest).Some? {
        FoundRecordIsListed(records, kind, digest);
      } else {
        forall r | r in records && r.kind == kind ensures r.dispatcherDigest != digest {
          ListedRecordIsFound(records, r);
        }
      }
    }
  }

  ghost predicate AnyIrregular(s: Store) {
    exists i :: 0 <= i < |HOOK_KINDS| && HOOK_KINDS[i] in s.hooks && s.hooks[HOOK_KINDS[i]].Irregular?
  }

  ghost predicate AnyForeign(env: Env, s: Store) {
    exists i :: 0 <= i < |HOOK_KINDS| && Foreign(env, s, HOOK_KINDS[i])
  }

  /** The manifest of another version or of another hooks path. */
  predicate NotOurs(env: Env, s: Store) {
    s.manifest.Some? && (s.manifest.value.version != 1 || s.manifest.value.hooksPath != env.hooksPath)
  }

  lemma AnyForeignIff(env: Env, s: Store)
    requires HooksRegular(s, HOOK_KINDS)
    ensures AnyForeign(env, s) <==> exists i :: 0 <= i < |HOOK_KINDS| && PlanAll(env, s)[i].foreign.Some?
  {
    forall i | 0 <= i < |HOOK_KINDS| ensures PlanAll(env, s)[i].foreign.Some? <==> Foreign(env, s, HOOK_KINDS[i]) {
      ForeignIff(env, s, i);
    }
  }

  /** When an attach refuses, and why; a refusal before the first write changes nothing. */
  lemma AttachRefusesIff(env: Env, s: Store, requested: Option<string>)
    ensures var (t, outcome) := AttachTo(env, s, requested);
            && (outcome.InvalidManifest? <==> NotOurs(env, s))
            && (outcome.UnsafePath? <==> !NotOurs(env, s) && AnyIrregular(s))
            && (outcome.AdoptionRequired? <==>
                !NotOurs(env, s) && !AnyIrregular(s) && requested.None? && AnyForeign(env, s))
            && (outcome.InvalidManifest? || outcome.UnsafePath? || outcome.AdoptionRequired? ==> t == s)
  {
    assert HooksRegular(s, HOOK_KINDS) <==> !AnyIrregular(s);
    if HooksRegular(s, HOOK_KINDS) { AnyForeignIff(env, s); }
  }

  /** Whatever its outcome, an attach changes no backup that is there and no unmanaged hook, and the
      manifest only when it succeeds. */
  lemma AttachKeeps(env: Env, s: Store, requested: Option<string>)
    ensures var (t, outcome) := AttachTo(env, s, requested);
            Keeps(s, t) && (!outcome.Attached? ==> t.manifest == s.manifest)
  {
    if (s.manifest.Some? ==> ManifestOk(env, s.manifest.value)) && HooksRegular(s, HOOK_KINDS) {
      var plans := PlanAll(env, s);
      forall j | 0 <= j < |plans| ensures IsKind(plans[j].kind) { assert plans[j].kind == HOOK_KINDS[j]; }
      InstallAllKeeps(env, s, plans, 0, requested);
    }
  }
}
