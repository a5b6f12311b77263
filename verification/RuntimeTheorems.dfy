/** What the migration protocol guarantees over every run: any number of explicit migrators,
    bootstrap migrators, gated writers and identity readers, interleaved in any way, each
    able to crash between any two file accesses. The results on identities are for runs whose
    reclaims of locks are orderly. */
module RuntimeTheorems {
  import opened Common
  import opened Hex
  import opened RuntimeModel
  import opened RuntimeInvariant
  import opened RuntimeExclusion

  /** Migration safety, also in runs where two processes end up with the same lock. */
  lemma MigrationSafety(env: Env, actions: seq<Action>)
    ensures var d := RunAll(env, actions).world.disk;
            && (d.snapshot.Some? ==> d.snapshot == env.legacy)
            && (d.canonical.Some? && d.canonical.value != [] && env.legacy.Some? ==>
                d.canonical.value[0] == LegacyPrefix(env.sha256(env.legacy.value)))
            && (d.metadata.Some? ==>
                && d.metadata.value.digest == LegacyDigest(env)
                && d.snapshot == env.legacy
                && d.canonical.Some?
                && (env.legacy.Some? ==> d.canonical.value != []))
  {
    RunIsSafe(env, actions);
  }

  /** A legacy file whose chain does not verify blocks everything: nothing is ever created. */
  lemma BrokenLegacyCreatesNothing(env: Env, actions: seq<Action>)
    requires !LegacyOk(env)
    ensures RunAll(env, actions).world.disk == FRESH_DISK
    ensures forall pid :: pid in RunAll(env, actions).procs ==> !RunAll(env, actions).procs[pid].pc.Done?
  {
    RunIsSafe(env, actions);
  }

  /** A writer that prepares again under its own lock never waits for that lock, and the
      metadata recovery inside `bind_legacy_prefix` never finds anything to recover. */
  lemma WritersNeverWaitOnThemselves(env: Env, actions: seq<Action>, pid: nat)
    requires pid in RunAll(env, actions).procs
    ensures var s := RunAll(env, actions);
            !s.procs[pid].pc.SelfWait? && (Gated(s.procs[pid].pc) ==> s.world.disk.metadata.Some?)
  {
    RunIsSafe(env, actions);
  }

  lemma MetadataGrowsTransitive(a: Option<Metadata>, b: Option<Metadata>, c: Option<Metadata>)
    requires MetadataGrows(a, b) && MetadataGrows(b, c)
    ensures MetadataGrows(a, c)
  {
  }

  lemma {:induction false} RunGrows(env: Env, before: seq<Action>, after: seq<Action>)
    requires OrderlyRun(env, before + after)
    ensures MetadataGrows(RunAll(env, before).world.disk.metadata, RunAll(env, before + after).world.disk.metadata)
    decreases |after|
  {
    if after == [] {
      assert before + after == before;
    } else {
      var most, last := after[..|after| - 1], after[|after| - 1];
      assert (before + after)[..|before + after| - 1] == before + most;
      RunGrows(env, before, most);
      RunPreserves(env, before + most);
      ApplyPreserves(env, RunAll(env, before + most), last);
      RunSnoc(env, before + most, last);
      assert before + after == before + most + [last];
      MetadataGrowsTransitive(RunAll(env, before).world.disk.metadata, RunAll(env, before + most).world.disk.metadata,
                              RunAll(env, before + after).world.disk.metadata);
    }
  }

  /** An identity once written is never dropped or replaced, whatever runs afterwards. */
  lemma IdentityPersists(env: Env, before: seq<Action>, after: seq<Action>, id: Bytes)
    requires OrderlyRun(env, before + after) && Recorded(RunAll(env, before).world.disk, id)
    ensures Recorded(RunAll(env, before + after).world.disk, id)
  {
    RunGrows(env, before, after);
  }

  ghost predicate Identified(s: State, pid: nat) {
    pid in s.procs && s.procs[pid].task.Identity? && s.procs[pid].pc.Done?
  }

  /** Any two successful `repository_id` calls of one run return the same, well-formed id. */
  lemma IdentityAgreement(env: Env, actions: seq<Action>, p: nat, q: nat)
    requires OrderlyRun(env, actions) && Identified(RunAll(env, actions), p) && Identified(RunAll(env, actions), q)
    ensures RunAll(env, actions).procs[p].id == RunAll(env, actions).procs[q].id
    ensures IsHex256(RunAll(env, actions).procs[p].id)
  {
    RunPreserves(env, actions);
    var s := RunAll(env, actions);
    assert Local(env, s.world, p, s.procs[p]) && Local(env, s.world, q, s.procs[q]);
  }

  /** The next step of a process sends it to release the log's lock and report failure. */
  predicate FailsNext(env: Env, s: State, pid: nat, c: Choice)
    requires pid in s.procs
  {
    var p := Step(env, pid, s.world, s.procs[pid], c).1;
    p.pc.ReleaseLog? && p.next.Failed?
  }

  /** A replayed migration reports conflicting metadata in exactly one case: an identity was
      recorded between its last two reads of the metadata. The metadata itself is sound. */
  lemma ReplayBlockedIff(env: Env, actions: seq<Action>, pid: nat, c: Choice)
    requires OrderlyRun(env, actions)
    requires pid in RunAll(env, actions).procs && RunAll(env, actions).procs[pid].pc.CompareMetadata?
    ensures var s := RunAll(env, actions);
            FailsNext(env, s, pid, c) <==>
              && s.world.disk.metadata.Some? && s.world.disk.metadata.value.repositoryId.Some?
              && s.procs[pid].metadata.repositoryId.None?
  {
    RunPreserves(env, actions);
    var s := RunAll(env, actions);
    assert Local(env, s.world, pid, s.procs[pid]);
  }
}
