/** What attaching promises: detaching undoes it, over any run of successful attaches and detaches. */
module HookAttachProofs {
  import opened Common
  import opened HookAttach

  predicate IsKind(kind: string) { exists i :: 0 <= i < |HOOK_KINDS| && HOOK_KINDS[i] == kind }

  lemma KindsDistinct()
    ensures forall i, j :: 0 <= i < j < |HOOK_KINDS| ==> HOOK_KINDS[i] != HOOK_KINDS[j]
    ensures forall i :: 0 <= i < |HOOK_KINDS| ==> ':' !in HOOK_KINDS[i]
  {
    assert |HOOK_KINDS[0]| == 11 && |HOOK_KINDS[1]| == 13 && |HOOK_KINDS[2]| == 8;
    assert |HOOK_KINDS[3]| == 10 && |HOOK_KINDS[4]| == 12 && |HOOK_KINDS[5]| == 21;
  }

  /** The backup, if any, that belongs to a hook's original content. */
  function OriginalBackup(env: Env, original: map<string, Hook>, kind: string): Option<(string, Digest)>
    requires kind in original ==> original[kind].Regular?
  {
    if kind in original then Some((kind, env.sha256(original[kind].bytes))) else None
  }

  function OriginalExecutable(original: map<string, Hook>, kind: string): bool
    requires kind in original ==> original[kind].Regular?
  {
    kind in original && original[kind].executable
  }

  function OriginalScript(env: Env, original: map<string, Hook>, kind: string): Bytes
    requires kind in original ==> original[kind].Regular?
  {
    env.dispatcher(kind, if OriginalExecutable(original, kind) then OriginalBackup(env, original, kind) else None)
  }

  /** The one record that describes a hook whose original content is known. */
  function OriginalRecord(env: Env, original: map<string, Hook>, kind: string): Record
    requires kind in original ==> original[kind].Regular?
  {
    Record(kind, env.sha256(OriginalScript(env, original, kind)), OriginalBackup(env, original, kind),
           if kind in original then Some(env.sha256(original[kind].bytes)) else None,
           OriginalExecutable(original, kind))
  }

  ghost predicate RegularKinds(original: map<string, Hook>) {
    forall k :: IsKind(k) && k in original ==> original[k].Regular?
  }

  ghost predicate RecordsOriginal(env: Env, original: map<string, Hook>, records: seq<Record>)
    requires RegularKinds(original)
  {
    |records| == |HOOK_KINDS| && forall i :: 0 <= i < |records| ==>
      records[i] == OriginalRecord(env, original, HOOK_KINDS[i])
  }

  /** Backups that bear an original's address hold that original. */
  ghost predicate BackupsSound(env: Env, original: map<string, Hook>, s: Store)
    requires RegularKinds(original)
  {
    forall k :: IsKind(k) && k in original ==>
      ((k, env.sha256(original[k].bytes)) in s.backups ==>
       s.backups[(k, env.sha256(original[k].bytes))] == original[k].bytes)
  }

  ghost predicate HasBackups(env: Env, original: map<string, Hook>, s: Store)
    requires RegularKinds(original)
  {
    forall k :: IsKind(k) && k in original ==> (k, env.sha256(original[k].bytes)) in s.backups
  }

  ghost predicate Known(env: Env, original: map<string, Hook>, s: Store)
    requires RegularKinds(original)
  {
    && BackupsSound(env, original, s)
    && (s.manifest.Some? ==> ManifestOk(env, s.manifest.value) && HasBackups(env, original, s) &&
                             RecordsOriginal(env, original, s.manifest.value.records))
    && (forall k :: !IsKind(k) ==> (k in s.hooks <==> k in original) && (k in original ==> s.hooks[k] == original[k]))
  }

  /** Every managed hook holds its original content, or its dispatcher. */
  ghost predicate IsOriginal(original: map<string, Hook>, s: Store, kind: string) {
    (kind in s.hooks <==> kind in original) && (kind in original ==> s.hooks[kind] == original[kind])
  }

  ghost predicate IsDispatched(env: Env, original: map<string, Hook>, s: Store, kind: string) {
    (kind in original ==> original[kind].Regular?) && kind in s.hooks &&
      s.hooks[kind] == Regular(OriginalScript(env, original, kind), true)
  }

  ghost predicate AtRest(env: Env, original: map<string, Hook>, s: Store)
    requires RegularKinds(original)
  {
    Known(env, original, s) && forall k :: IsKind(k) ==> IsOriginal(original, s, k)
  }

  ghost predicate InPlace(env: Env, original: map<string, Hook>, s: Store)
    requires RegularKinds(original)
  {
    Known(env, original, s) && s.manifest.Some? && forall k :: IsKind(k) ==> IsDispatched(env, original, s, k)
  }

  lemma {:induction false} FoundRecordIsListed(records: seq<Record>, kind: string, digest: Digest)
    requires FindRecord(records, kind, digest).Some?
    ensures FindRecord(records, kind, digest).value in records && FindRecord(records, kind, digest).value.kind == kind
    ensures FindRecord(records, kind, digest).value.dispatcherDigest == digest
  {
    if records[0].kind == kind && records[0].dispatcherDigest == digest {
    } else {
      FoundRecordIsListed(records[1..], kind, digest);
    }
  }

  lemma {:induction false} ListedRecordIsFound(records: seq<Record>, r: Record)
    requires r in records
    ensures FindRecord(records, r.kind, r.dispatcherDigest).Some?
  {
    if records[0].kind == r.kind && records[0].dispatcherDigest == r.dispatcherDigest {
    } else {
      ListedRecordIsFound(records[1..], r);
    }
  }

  /** A record found for a kind describes that kind's original. */
  lemma FoundRecordIsOriginal(env: Env, original: map<string, Hook>, records: seq<Record>, kind: string, digest: Digest)
    requires RegularKinds(original) && RecordsOriginal(env, original, records) &&
             FindRecord(records, kind, digest).Some?
    ensures IsKind(kind) && FindRecord(records, kind, digest).value == OriginalRecord(env, original, kind)
  {
    FoundRecordIsListed(records, kind, digest);
    var i :| 0 <= i < |records| && records[i] == FindRecord(records, kind, digest).value;
    assert records[i] == OriginalRecord(env, original, HOOK_KINDS[i]);
  }

  /** Whether at rest or in place, the plan for a kind leads to its original's script and record. */
  lemma PlanLeadsToOriginal(env: Env, original: map<string, Hook>, s: Store, i: nat)
    requires RegularKinds(original) && (AtRest(env, original, s) || InPlace(env, original, s)) && i < |HOOK_KINDS|
    ensures HOOK_KINDS[i] in s.hooks ==> s.hooks[HOOK_KINDS[i]].Regular?
    ensures var p := PlanFor(env, s, HOOK_KINDS[i]);
            && p.kind == HOOK_KINDS[i]
            && Script(env, p) == OriginalScript(env, original, HOOK_KINDS[i])
            && RecordFor(env, p) == OriginalRecord(env, original, HOOK_KINDS[i])
            && (p.foreign.Some? ==> p.previous.None? && p.kind in original && p.foreign.value == original[p.kind])
            && (p.kind in original && p.foreign.None? ==> s.manifest.Some?)
  {
    var kind := HOOK_KINDS[i];
    assert IsKind(kind);
    if InPlace(env, original, s) {
      assert IsDispatched(env, original, s, kind);
      var records := s.manifest.value.records;
      assert records[i] == OriginalRecord(env, original, kind);
      ListedRecordIsFound(records, records[i]);
      FoundRecordIsOriginal(env, original, records, kind, env.sha256(s.hooks[kind].bytes));
    } else {
      assert IsOriginal(original, s, kind);
      if kind in original && s.manifest.Some? {
        var digest := env.sha256(original[kind].bytes);
        if FindRecord(s.manifest.value.records, kind, digest).Some? {
          FoundRecordIsOriginal(env, original, s.manifest.value.records, kind, digest);
        }
      }
    }
  }

  /** How far the second loop of an attach has come. */
  ghost predicate Installing(env: Env, original: map<string, Hook>, start: Store, plans: seq<Plan>, i: nat, s: Store)
    requires RegularKinds(original) && PlansOk(plans) && i <= |plans| == |HOOK_KINDS|
  {
    && BackupsSound(env, original, s) && s.manifest == start.manifest
    && (forall a :: a in start.backups ==> a in s.backups)
    && (forall k :: !IsKind(k) ==> IsOriginal(original, s, k))
    && (forall j :: 0 <= j < i ==> IsKind(HOOK_KINDS[j]) && IsDispatched(env, original, s, HOOK_KINDS[j]))
    && (forall j :: 0 <= j < i && plans[j].foreign.Some? ==>
        (plans[j].kind, env.sha256(plans[j].foreign.value.bytes)) in s.backups)
  }

  lemma InstallOne(env: Env, original: map<string, Hook>, start: Store, plans: seq<Plan>, i: nat, s: Store)
    requires RegularKinds(original) && PlansOk(plans) && i < |plans| == |HOOK_KINDS|
    requires Installing(env, original, start, plans, i, s)
    requires var p := plans[i];
             && p.kind == HOOK_KINDS[i] && IsKind(p.kind) && Script(env, p) == OriginalScript(env, original, p.kind)
             && (p.foreign.Some? ==> p.previous.None? && p.kind in original && p.foreign.value == original[p.kind])
    ensures Installing(env, original, start, plans, i + 1, Install(env, s, plans[i]))
  {
    KindsDistinct();
    var after := Install(env, s, plans[i]);
    forall j | 0 <= j < i + 1 ensures IsKind(HOOK_KINDS[j]) && IsDispatched(env, original, after, HOOK_KINDS[j]) {
      assert HOOK_KINDS[j] == HOOK_KINDS[i] <==> j == i;
    }
  }

  lemma {:induction false} InstallAllReaches(env: Env, original: map<string, Hook>, start: Store, plans: seq<Plan>,
                                             i: nat, s: Store,
                                             requested: Option<string>)
    requires RegularKinds(original) && PlansOk(plans) && i <= |plans| == |HOOK_KINDS|
    requires AtRest(env, original, start) || InPlace(env, original, start)
    requires HooksRegular(start, HOOK_KINDS) && plans == PlanAll(env, start)
    requires Installing(env, original, start, plans, i, s) && InstallAll(env, s, plans, i, requested).1
    ensures Installing(env, original, start, plans, |plans|, InstallAll(env, s, plans, i, requested).0)
    decreases |plans| - i
  {
    if i == |plans| {
    } else {
      PlanLeadsToOriginal(env, original, start, i);
      assert plans[i] == PlanFor(env, start, HOOK_KINDS[i]);
      InstallOne(env, original, start, plans, i, s);
      InstallAllReaches(env, original, start, plans, i + 1, Install(env, s, plans[i]), requested);
    }
  }

  /** The store after a completed second loop and the manifest write. */
  lemma InstalledIsInPlace(env: Env, original: map<string, Hook>, start: Store, plans: seq<Plan>, s: Store)
    requires RegularKinds(original) && HooksRegular(start, HOOK_KINDS) && plans == PlanAll(env, start)
    requires AtRest(env, original, start) || InPlace(env, original, start)
    requires Installing(env, original, start, plans, |plans|, s)
    ensures var manifest := Manifest(MANIFEST_VERSION, env.hooksPath, RecordAll(env, plans));
            InPlace(env, original, s.(manifest := Some(manifest)))
  {
    var after := s.(manifest := Some(Manifest(MANIFEST_VERSION, env.hooksPath, RecordAll(env, plans))));
    forall i | 0 <= i < |plans| ensures RecordAll(env, plans)[i] == OriginalRecord(env, original, HOOK_KINDS[i]) {
      PlanLeadsToOriginal(env, original, start, i);
    }
    forall k | IsKind(k) && k in original ensures (k, env.sha256(original[k].bytes)) in after.backups {
      var i :| 0 <= i < |HOOK_KINDS| && HOOK_KINDS[i] == k;
      PlanLeadsToOriginal(env, original, start, i);
      assert plans[i] == PlanFor(env, start, k);
    }
    forall k | IsKind(k) ensures IsDispatched(env, original, after, k) {
      var i :| 0 <= i < |HOOK_KINDS| && HOOK_KINDS[i] == k;
      assert IsDispatched(env, original, s, HOOK_KINDS[i]);
    }
    assert forall k :: !IsKind(k) ==> IsOriginal(original, s, k);
  }

  /** A successful attach puts every dispatcher in place, from either situation. */
  lemma AttachPutsInPlace(env: Env, original: map<string, Hook>, s: Store, requested: Option<string>)
    requires RegularKinds(original) && (AtRest(env, original, s) || InPlace(env, original, s))
    requires AttachTo(env, s, requested).1.Attached?
    ensures InPlace(env, original, AttachTo(env, s, requested).0)
  {
    var plans := PlanAll(env, s);
    InstallAllReaches(env, original, s, plans, 0, s, requested);
    InstalledIsInPlace(env, original, s, plans, InstallAll(env, s, plans, 0, requested).0);
  }

  /** How far the loop of a detach has come. */
  ghost predicate Restoring(env: Env, original: map<string, Hook>, s: Store, i: nat)
    requires RegularKinds(original) && i <= |HOOK_KINDS|
  {
    && Known(env, original, s) && s.manifest.Some?
    && (forall j :: 0 <= j < i ==> IsOriginal(original, s, HOOK_KINDS[j]))
    && (forall j :: i <= j < |HOOK_KINDS| ==>
          IsOriginal(original, s, HOOK_KINDS[j]) || IsDispatched(env, original, s, HOOK_KINDS[j]))
  }

  /** Restoring one hook, original or dispatched, makes it original and touches nothing else. */
  lemma RestoreKind(env: Env, original: map<string, Hook>, s: Store, kind: string)
    requires RegularKinds(original) && Known(env, original, s) && s.manifest.Some? && IsKind(kind)
    requires IsOriginal(original, s, kind) || IsDispatched(env, original, s, kind)
    ensures var (after, outcome) := Restore(env, s, OriginalRecord(env, original, kind));
            && outcome.Detached? && IsOriginal(original, after, kind)
            && after.manifest == s.manifest && after.backups == s.backups
            && (forall k :: k != kind ==>
                (k in after.hooks <==> k in s.hooks) && (k in s.hooks ==> after.hooks[k] == s.hooks[k]))
  {
  }

  lemma RestoreOne(env: Env, original: map<string, Hook>, s: Store, i: nat)
    requires RegularKinds(original) && i < |HOOK_KINDS| && Restoring(env, original, s, i)
    ensures var (after, outcome) := Restore(env, s, OriginalRecord(env, original, HOOK_KINDS[i]));
            outcome.Detached? && Restoring(env, original, after, i + 1) && after.manifest == s.manifest
  {
    KindsDistinct();
    var kind := HOOK_KINDS[i];
    assert IsKind(kind);
    RestoreKind(env, original, s, kind);
    var after := Restore(env, s, OriginalRecord(env, original, kind)).0;
    forall j | 0 <= j < i ensures IsOriginal(original, after, HOOK_KINDS[j]) {
      assert HOOK_KINDS[j] != kind && IsOriginal(original, s, HOOK_KINDS[j]);
    }
    forall j | i < j < |HOOK_KINDS|
      ensures IsOriginal(original, after, HOOK_KINDS[j]) || IsDispatched(env, original, after, HOOK_KINDS[j])
    {
      assert HOOK_KINDS[j] != kind;
      assert IsOriginal(original, s, HOOK_KINDS[j]) || IsDispatched(env, original, s, HOOK_KINDS[j]);
    }
    assert Known(env, original, after);
  }

  lemma {:induction false} RestoreAllReaches(env: Env, original: map<string, Hook>, s: Store, i: nat)
    requires RegularKinds(original) && i <= |HOOK_KINDS| && Restoring(env, original, s, i)
    ensures var (after, outcome) := RestoreAll(env, s, s.manifest.value.records, i);
            outcome.Detached? && Restoring(env, original, after, |HOOK_KINDS|)
    decreases |HOOK_KINDS| - i
  {
    if i == |HOOK_KINDS| {
    } else {
      RestoreOne(env, original, s, i);
      var records := s.manifest.value.records;
      assert records[i] == OriginalRecord(env, original, HOOK_KINDS[i]);
      RestoreAllReaches(env, original, Restore(env, s, records[i]).0, i + 1);
    }
  }

  /** A detach never fails here, and it brings every hook back. */
  lemma DetachRestores(env: Env, original: map<string, Hook>, s: Store)
    requires RegularKinds(original) && (AtRest(env, original, s) || InPlace(env, original, s)) && s.manifest.Some?
    ensures DetachFrom(env, s).1.Detached? && AtRest(env, original, DetachFrom(env, s).0)
  {
    forall j | 0 <= j < |HOOK_KINDS| ensures IsKind(HOOK_KINDS[j]) {}
    RestoreAllReaches(env, original, s, 0);
    var after := DetachFrom(env, s).0;
    forall k | IsKind(k) ensures IsOriginal(original, after, k) {
      var i :| 0 <= i < |HOOK_KINDS| && HOOK_KINDS[i] == k;
      assert IsOriginal(original, after, HOOK_KINDS[i]);
    }
  }

  datatype Action = DoAttach(requested: Option<string>) | DoDetach

  function Perform(env: Env, s: Store, a: Action): (Store, Outcome) {
    if a.DoAttach? then AttachTo(env, s, a.requested) else DetachFrom(env, s)
  }

  /** A run of commands: the final store, and whether all of them succeeded. */
  function RunActions(env: Env, s: Store, actions: seq<Action>): (Store, bool) {
    if actions == [] then (s, true)
    else
      var n := |actions| - 1;
      var (before, ok) := RunActions(env, s, actions[..n]);
      var (after, outcome) := Perform(env, before, actions[n]);
      (after, ok && (outcome.Attached? || outcome.Detached?))
  }

  /** Nothing of hugit's is there yet, and no managed hook path is irregular. */
  ghost predicate CleanStart(s: Store) { s.manifest.None? && s.backups == map[] && RegularKinds(s.hooks) }

  lemma {:induction false} RunStaysKnown(env: Env, start: Store, actions: seq<Action>)
    requires CleanStart(start) && RunActions(env, start, actions).1
    ensures var s := RunActions(env, start, actions).0;
            if actions == [] || actions[|actions| - 1].DoDetach? then AtRest(env, start.hooks, s)
            else InPlace(env, start.hooks, s)
  {
    if actions == [] {
    } else {
      var n := |actions| - 1;
      RunStaysKnown(env, start, actions[..n]);
      var before := RunActions(env, start, actions[..n]).0;
      if actions[n].DoAttach? {
        AttachPutsInPlace(env, start.hooks, before, actions[n].requested);
      } else {
        DetachRestores(env, start.hooks, before);
      }
    }
  }

  /** Attach then detach is the identity: after any run of successful attaches and detaches that
      ends in a detach, every hook has its original presence, bytes and executable flag. */
  lemma DetachUndoesAttach(env: Env, start: Store, actions: seq<Action>)
    requires CleanStart(start) && RunActions(env, start, actions).1
    requires actions != [] && actions[|actions| - 1].DoDetach?
    ensures RunActions(env, start, actions).0.hooks == start.hooks
  {
    RunStaysKnown(env, start, actions);
    var s := RunActions(env, start, actions).0;
    forall k ensures (k in s.hooks <==> k in start.hooks) && (k in start.hooks ==> s.hooks[k] == start.hooks[k]) {
      if IsKind(k) { assert IsOriginal(start.hooks, s, k); }
    }
  }

  /** Once attached, detaching always succeeds. */
  lemma DetachAlwaysSucceeds(env: Env, start: Store, actions: seq<Action>)
    requires CleanStart(start) && RunActions(env, start, actions).1
    requires exists i :: 0 <= i < |actions| && actions[i].DoAttach?
    ensures DetachFrom(env, RunActions(env, start, actions).0).1.Detached?
  {
    RunStaysKnown(env, start, actions);
    ManifestStays(env, start, actions);
    DetachRestores(env, start.hooks, RunActions(env, start, actions).0);
  }

  lemma {:induction false} RestoreKeepsManifest(env: Env, s: Store, records: seq<Record>, i: nat)
    requires i <= |records|
    ensures RestoreAll(env, s, records, i).0.manifest == s.manifest
    decreases |records| - i
  {
    if i == |records| {
    } else {
      RestoreKeepsManifest(env, Restore(env, s, records[i]).0, records, i + 1);
    }
  }

  lemma {:induction false} ManifestStays(env: Env, start: Store, actions: seq<Action>)
    requires RunActions(env, start, actions).1 && exists i :: 0 <= i < |actions| && actions[i].DoAttach?
    ensures RunActions(env, start, actions).0.manifest.Some?
  {
    var n := |actions| - 1;
    if actions[n].DoDetach? {
      var i :| 0 <= i < |actions| && actions[i].DoAttach?;
      assert actions[..n][i] == actions[i];
      ManifestStays(env, start, actions[..n]);
      var before := RunActions(env, start, actions[..n]).0;
      RestoreKeepsManifest(env, before, before.manifest.value.records, 0);
    }
  }

  // ----- when an attach succeeds -----

  lemma {:induction false} InstallAllIff(env: Env, s: Store, plans: seq<Plan>, i: nat, requested: Option<string>)
    requires i <= |plans| && PlansOk(plans)
    ensures InstallAll(env, s, plans, i, requested).1 <==>
              forall j :: i <= j < |plans| ==> TokenOk(env, plans[j], requested)
    decreases |plans| - i
  {
    if i == |plans| || !TokenOk(env, plans[i], requested) {
    } else {
      InstallAllIff(env, Install(env, s, plans[i]), plans, i + 1, requested);
    }
  }

  /** A hook that hugit does not own: there, and not a recorded dispatcher. */
  predicate IsForeign(env: Env, s: Store, i: nat)
    requires i < |HOOK_KINDS| && HooksRegular(s, HOOK_KINDS)
  {
    PlanFor(env, s, HOOK_KINDS[i]).foreign.Some?
  }

  lemma TokensDiffer(env: Env, i: nat, j: nat, a: Bytes, b: Bytes)
    requires i < |HOOK_KINDS| && j < |HOOK_KINDS| && Token(env, HOOK_KINDS[i], a) == Token(env, HOOK_KINDS[j], b)
    ensures i == j
  {
    KindsDistinct();
    var t, m, n := Token(env, HOOK_KINDS[i], a), |HOOK_KINDS[i]|, |HOOK_KINDS[j]|;
    assert t[m] == ':' && t[n] == ':';
    assert forall k :: 0 <= k < m ==> t[k] == HOOK_KINDS[i][k];
    assert forall k :: 0 <= k < n ==> t[k] == HOOK_KINDS[j][k];
    assert m == n;
    assert HOOK_KINDS[i] == t[..m] == HOOK_KINDS[j];
  }

  /** An attach succeeds exactly when there is no foreign hook, or there is exactly one and the
      request names its token. With two foreign hooks no request can succeed. */
  lemma AttachSucceedsIff(env: Env, s: Store, requested: Option<string>)
    requires HooksRegular(s, HOOK_KINDS) && (s.manifest.Some? ==> ManifestOk(env, s.manifest.value))
    ensures AttachTo(env, s, requested).1.Attached? <==>
              || (forall i :: 0 <= i < |HOOK_KINDS| ==> !IsForeign(env, s, i))
              || (exists i :: 0 <= i < |HOOK_KINDS| && IsForeign(env, s, i) &&
                    requested == Some(Token(env, HOOK_KINDS[i], s.hooks[HOOK_KINDS[i]].bytes)) &&
                    forall j :: 0 <= j < |HOOK_KINDS| && IsForeign(env, s, j) ==> j == i)
  {
    var plans := PlanAll(env, s);
    InstallAllIff(env, s, plans, 0, requested);
    assert forall i :: 0 <= i < |plans| ==> (plans[i].foreign.Some? <==> IsForeign(env, s, i));
    if AttachTo(env, s, requested).1.Attached? {
      if i :| 0 <= i < |HOOK_KINDS| && IsForeign(env, s, i) {
        assert TokenOk(env, plans[i], requested);
        forall j | 0 <= j < |HOOK_KINDS| && IsForeign(env, s, j) ensures j == i {
          assert TokenOk(env, plans[j], requested);
          TokensDiffer(env, i, j, s.hooks[HOOK_KINDS[i]].bytes, s.hooks[HOOK_KINDS[j]].bytes);
        }
      }
    }
  }
}
