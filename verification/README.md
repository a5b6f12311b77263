# hugit in Dafny

A model of the parts of hugit where correctness rests on an argument that spans several
functions or whole runs, with proofs in Dafny 4.11. `dafny verify dfyconfig.toml` checks
everything.

| files | models | in short |
|---|---|---|
| `RuntimeModel`, `RuntimeInvariant`, `RuntimeExclusion`, `RuntimeReclaim`, `RuntimeTheorems`, `RuntimeSolo`, `RuntimeAlone`, `RuntimeRecovery`, `RuntimeRuns`, `RuntimeStoreCode` | runtime log migration | crash-safe and convergent under every interleaving; identities agree as long as locks are reclaimed in an orderly way |
| `EventFraming`, `EventReader`, `EventChain`, `EventAcceptance`, `MarkerOrder` | hash-chained event log with redactions | the head hash fixes the log exactly when no marker looks ahead |
| `Projection`, `ProjectionChunks`, `ProjectionOnce`, `ProjectionFacts` | resumable projection | any chunking that drains the log equals one pass; exactly once under any failures |
| `GitEnumeration`, `GitPaths`, `GitTree`, `GitTreeProofs`, `GitTreeReader`, `ByteOrder` | Git tree root of a flat listing | the parser inverts rendering; the root fixes the entries |
| `PlanGraph`, `AffectedSet` | plan reduction, affected packages | transitive reduction is right and minimal; least fixed point |
| `TenantIsolation`, `TenantHistory` | tenant-partitioned memo store | noninterference over whole runs, with its exact condition |
| `HookAttach`, `HookAttachProofs`, `HookEdits` | hook attach and detach | detach undoes any run of successful attaches |
| `Common`, `Hex` | bytes, numbers, hexadecimal | shared definitions |
| `FenceCodecs`, `PriceCard`, `AttentionQueue` | base64, shell quoting, cost, ranking | round trips, exact floor, canonical order |

## How the model is built

The migration is a state machine over the snapshot, the canonical log, the metadata and the two lock
files. One step is one file access, a process may stop for good between any two steps, and a stopped
process leaves its lock file behind. Reclaiming a lock is what the code does: find the file old,
whoever owns it, remove whatever file is there, create one. A run is orderly if, at every moment
before its end, whoever was about to remove a lock file was alone in that and the file was that of a
stopped process. The proof has two layers. What the files satisfy and what each program point knows
of them needs no lock at all and holds in all runs. What a process may rely on under its lock is
proved by rely and guarantee, for orderly runs. `RuntimeStoreCode` is the same code in sequential,
in-place form. `RuntimeAlone` ties the steps of each command, run alone on any files at all, to one
reading of the files before and after, and the sequential code is tied to the same reading. The test
for a file and the read that follows are one step, because no file but a lock file is removed in a
run and each is replaced atomically.

Hashes, HMAC and parsers are parameters. No hash is taken to be injective everywhere, which a
fixed-size hash cannot be. Each theorem that needs it assumes no collision among the finitely
many byte strings it hashes.

Loops and objects of the source are methods and classes proved against specification functions.
The theorems are about those functions. Byte formats have a reader of their own, written from the
format's description, which reads back what the model writes.

## Where the code and its documentation differ

The model follows the code.

- Comments in `filelock.rs` call an old lock that of a dead holder, while others there warn that age
  does not show it, and say that of two reclaimers exactly one wins. Only the file's age is tested, and a reclaimer can remove a file that another
  one has just created. So two processes can own one lock (`RuntimeReclaim.WrongRemovalLoses`,
  `RuntimeReclaim.TwoRemoversBothOwn`), and then a recorded identity can be lost
  (`RuntimeRuns.SlowOwnerLosesIdentity`, `RuntimeRuns.IdentityCanBeLost`) and two identity calls can
  disagree (`RuntimeRuns.IdentitiesCanDiffer`). The exact condition is that whoever is about to remove
  a lock file is alone in that and the file is a stopped process's (`RuntimeReclaim.ExclusionLostIff`).
  Migration safety and recovery do not depend on it.
- Redaction markers are collected before the walk and accepted at any position. The head hash fixes
  the log if and only if no marker looks ahead (`MarkerOrder.HeadFixesIff`): as soon as a marker may
  redact the record after it, there are two accepted logs with one head, whatever the hash.
- `TenantSecret` asks for distinct secrets. HMAC hashes a long key and pads a short one with zero
  bytes (section 2 of RFC 2104), so distinct secrets can give one key. The exact condition is
  distinct padded secrets (`TenantIsolation.IsolatedIffBlockKeysDiffer`).
- With two or more foreign hooks the hint says to pass every token shown, but a call takes one
  token and each foreign hook demands its own, so no call succeeds
  (`HookAttachProofs.AttachSucceedsIff`).
- The mandatory floor is documented without a bound on the blast radius. It holds exactly for
  the inputs that keep the score below one billion (`AttentionQueue.FloorHoldsIff`).
- A replayed explicit migration can report `migration_blocked` although nothing is wrong, when an
  identity is recorded between its last two looks at the metadata
  (`RuntimeTheorems.ReplayBlockedIff`, `RuntimeRuns.SoundReplayIsBlocked`).
- The metadata recovery inside `bind_legacy_prefix` and the preparation inside the write gate never
  act for a writer that came through the lock (`RuntimeTheorems.WritersNeverWaitOnThemselves`).

## Model

| member | source | states |
|---|---|---|
| `RuntimeTheorems.MigrationSafety` | crates/hugit-cli/src/runtime_store.rs:366-621 | In every interleaving of explicit migrators, bootstrap migrators, gated writers and identity readers, with crashes between any two file accesses, and even when two processes hold one lock: a snapshot present is the legacy file; a non-empty canonical log starts with the record binding its digest; metadata present carries that digest and implies both others. |
| `RuntimeTheorems.BrokenLegacyCreatesNothing` | crates/hugit-cli/src/runtime_store.rs:371-385 | If the legacy chain does not verify, no run ever creates a snapshot, log or metadata file, and no command ever succeeds. |
| `RuntimeTheorems.WritersNeverWaitOnThemselves` | crates/hugit-cli/src/runtime_store.rs:717-741 | The preparation inside the write gate, which would wait for the lock its caller holds, is never entered: whoever passes the gate finds metadata present. |
| `RuntimeInvariant.StepIsSafe` | crates/hugit-cli/src/runtime_store.rs:366-741 | Each step keeps the file invariant and its process's knowledge of the files, and takes back nothing that was published, whether or not the process still has its lock. |
| `RuntimeInvariant.KnowledgeIsStable` | crates/hugit-cli/src/runtime_store.rs:366-741 | What a process knows of the files survives every step of every other process. |
| `RuntimeInvariant.RunIsSafe` | crates/hugit-cli/src/runtime_store.rs:366-741 | The file invariant and that knowledge hold after every sequence of starts, steps and crashes. |
| `RuntimeExclusion.StepPreserves` | crates/hugit-cli/src/runtime_store.rs:366-741 | Each step keeps what its process may rely on under its lock, and changes only what that lock allows. |
| `RuntimeExclusion.Stable` | crates/hugit-cli/src/runtime_store.rs:425-451 | That reliance survives any step another process is allowed to take; a process may remove a lock file only if its owner stopped. |
| `RuntimeExclusion.RunPreserves` | crates/hugit-cli/src/runtime_store.rs:366-741 | The lock-dependent invariant, with every lock file owned by a process past its acquisition or stopped, holds after every orderly run. |
| `RuntimeExclusion.MutualExclusion` | crates/hugit-cli/src/pr/filelock.rs:151-204 | After every orderly run, reclaims included, no two processes are inside sections of the same lock. |
| `RuntimeReclaim.TwoRemoversBothOwn` | crates/hugit-cli/src/pr/filelock.rs:172-183 | From any state of any run in which two processes are about to remove the same lock file, four steps make both of them owners. |
| `RuntimeReclaim.WrongRemovalLoses` | crates/hugit-cli/src/pr/filelock.rs:341-353 | After an orderly run, a single process about to remove a lock file that is not a stopped process's also ends in two owners: with the file's live owner, or with a new process where there is no file. |
| `RuntimeReclaim.ExclusionLostIff` | crates/hugit-cli/src/pr/filelock.rs:151-204 | After an orderly run, exclusion can be lost without any further lock file being found old if and only if the state is no longer orderly. |
| `RuntimeTheorems.RunGrows` | crates/hugit-cli/src/runtime_store.rs:557-611 | In every orderly run, metadata is never removed over any continuation, and changes only by gaining an identity. |
| `RuntimeTheorems.IdentityPersists` | crates/hugit-cli/src/runtime_store.rs:557-611 | In every orderly run, an identity once recorded stays recorded, whatever migrations are replayed. |
| `RuntimeTheorems.IdentityAgreement` | crates/hugit-cli/src/runtime_store.rs:66-113 | In every orderly run, all successful identity calls return the same, well-formed identity, although they race migrations that use a different lock. |
| `RuntimeRuns.IdentityCanBeLost` | crates/hugit-cli/src/pr/filelock.rs:172-183 | For every legacy file that verifies there is a run, orderly until two processes are about to remove the lock file of a stopped one, that then records an identity and overwrites it with metadata that has none. |
| `RuntimeRuns.SlowOwnerLosesIdentity` | crates/hugit-cli/src/pr/filelock.rs:341-353 | The same with one remover and no crash, when the lock file it finds old belongs to a migration that is only slow. |
| `RuntimeRuns.IdentitiesCanDiffer` | crates/hugit-cli/src/pr/filelock.rs:341-353 | For every legacy file that verifies and any two different random values there is a run, orderly until one identity call is about to remove the lock file of another, in which both succeed with different identities. |
| `RuntimeTheorems.ReplayBlockedIff` | crates/hugit-cli/src/runtime_store.rs:591-611 | In every orderly run, the final metadata comparison of a migration reports a conflict exactly when an identity was recorded after this migration last looked for one. |
| `RuntimeRuns.SoundReplayIsBlocked` | crates/hugit-cli/src/runtime_store.rs:557-611 | Such a run exists for every legacy file that verifies, without crashes or reclaims: a second migration stops at its comparison, an identity call completes, and the migration's next step reports the conflict. |
| `RuntimeRecovery.StepKeepsCompletion` | crates/hugit-cli/src/runtime_store.rs:452-620 | No step of a migration changes the state that completing the migration would reach, appended records and identity included. |
| `RuntimeRecovery.MigratorsConverge` | crates/hugit-cli/src/runtime_store.rs:452-620 | However migrators interleave, crash and reclaim, the state that completion leads to is the one an untouched directory leads to. |
| `RuntimeRecovery.SoloProgress` | crates/hugit-cli/src/runtime_store.rs:366-621 | A migrator on its way, with its lock and nothing recorded behind its back, gets strictly closer to success at each step and never fails. |
| `RuntimeRecovery.TakeoverCompletes` | crates/hugit-cli/src/pr/filelock.rs:168-198 | An explicit migration that finds the lock file old, whoever left it, removes it, creates its own and, undisturbed, completes. |
| `RuntimeRecovery.RecoveryCompletes` | crates/hugit-cli/src/runtime_store.rs:366-621 | After any run whatever, half-done migrations included, one migration that gets the lock, free or by age, and then runs alone succeeds, releases the lock and leaves exactly the completed state. |
| `RuntimeRecovery.RerunChangesNothing` | crates/hugit-cli/src/runtime_store.rs:526-620 | A migration run again on finished files succeeds and changes no file. |
| `RuntimeRecovery.RecoveryIsUninterruptedRun` | crates/hugit-cli/src/runtime_store.rs:394-620 | After migrators crashed anywhere, also under the lock, recovery ends with the same files as one uninterrupted migration of a fresh directory. |
| `RuntimeAlone.MigrationAlone` | crates/hugit-cli/src/runtime_store.rs:366-621 | The steps of an explicit migration run alone, on any files at all: it succeeds exactly when the inputs verify and agree, the log is empty or bound to the digest, and existing metadata is its own; what it writes is stated for success and for each failure. |
| `RuntimeAlone.PrepareAlone` | crates/hugit-cli/src/runtime_store.rs:266-311 | The same for the preparation that every other command starts with: existing metadata is left alone and only its digest is compared, otherwise bootstrap. |
| `RuntimeAlone.LateBootstrapLeavesFiles` | crates/hugit-cli/src/runtime_store.rs:442-448 | A bootstrap caller that finds metadata once it has the lock changes no file and succeeds exactly when the digest matches. |
| `RuntimeAlone.ChangedSourceIsRefused` | crates/hugit-cli/src/runtime_store.rs:313-333 | One that finds no metadata, and whose legacy file is no longer what it read, writes nothing and fails. |
| `RuntimeAlone.BootstrapNeverReclaims` | crates/hugit-cli/src/pr/filelock.rs:144-149 | A bootstrap caller that finds the lock taken waits without changing anything, however old the lock file looks, until it gives up. |
| `RuntimeAlone.TakenIsReported` | crates/hugit-cli/src/pr/filelock.rs:192-196 | An explicit migration or writer that finds the lock taken, and not old, reports it without changing anything. |
| `RuntimeAlone.WriterAlone` | crates/hugit-cli/src/runtime_store.rs:626-741 | The steps of a gated append run alone, on any files at all: it succeeds exactly when the files can be prepared, the recorded digest is that of a snapshot that verifies, and the log fits it; then the canonical log is the one that was built, or the binding record for an empty one, and otherwise only the preparation is written. |
| `RuntimeAlone.IdentityAlone` | crates/hugit-cli/src/runtime_store.rs:66-113 | The steps of an identity call run alone, on any files at all: it succeeds exactly when the files can be prepared and hold no malformed identity, records one where there is none, and returns the one on record. |
| `RuntimeRecovery.SafeFiles` | crates/hugit-cli/src/runtime_store.rs:366-741 | On files that a run can leave, running alone means completing, and a log is taken exactly when it is empty or carries the prefix. |
| `RuntimeRecovery.AppendInRun` | crates/hugit-cli/src/pr/filelock.rs:233-243 | In any run, with the log's lock free, a new writer that runs alone ends in success exactly for such a log, which is then in the file; nothing else changes beyond completion. |
| `RuntimeRecovery.OnlyAppendsChangeLog` | crates/hugit-cli/src/runtime_store.rs:452-524 | In every orderly run a non-empty canonical log is changed by a writer's write only, and to that writer's log. |
| `RuntimeStoreCode.RuntimeStore.MigrateInner` | crates/hugit-cli/src/runtime_store.rs:366-621 | The sequential code does, on any files, what the steps do alone; on safe files it reaches the completed state, on a broken legacy log it changes nothing, and an existing snapshot or metadata is never changed. |
| `RuntimeStoreCode.RuntimeStore.Prepare` | crates/hugit-cli/src/runtime_store.rs:266-311 | The sequential preparation does, on any files, what the steps do alone; prepared files are left alone. |
| `RuntimeStoreCode.RuntimeStore.RepositoryId` | crates/hugit-cli/src/runtime_store.rs:66-113 | The sequential identity call does, on any files, what the steps do alone; a returned identity is well formed and on record, the old one if there was one. |
| `RuntimeStoreCode.RuntimeStore.Append` | crates/hugit-cli/src/runtime_store.rs:626-741 | The sequential append does, on any files, what the steps do alone; on safe files it accepts exactly an empty or bound log. |
| `EventFraming.LpPrefixFree` | scripts/verify-evidence-report.py:667-670 | A length-prefixed field can be read back from the front of any byte string in only one way. |
| `EventFraming.LpAllPrefixFree` | scripts/verify-evidence-report.py:676-676 | So can a list of such fields once its count is known, for lists of any length. |
| `EventFraming.PreImageInjective` | scripts/verify-evidence-report.py:673-678 | Two records with the same pre-image agree on previous hash, kind, principals, payload and position. |
| `EventFraming.EventHashFixesContent` | crates/hugit-contracts/src/event_record.rs:19-46 | Without a collision among the pre-images hashed, equal event hashes mean equal hashed content; `recorded_at` is free. |
| `EventReader.PreImageIsRead` | crates/hugit-contracts/src/event_record.rs:19-46 | A reader written from the documented layout, with its own place values, returns from the hashed bytes exactly previous hash, kind, principals, payload and position, with nothing left over. |
| `EventReader.PreImageIff` | scripts/verify-evidence-report.py:667-678 | A record has hashed bytes exactly when every field, the list and the position fit their places. |
| `EventChain.CollectRedactions` | scripts/verify-evidence-report.py:686-700 | The redactions dictionary holds, for each position, the last marker in the log that names it. |
| `EventChain.VerifyEventChain` | scripts/verify-evidence-report.py:681-726 | The two loops accept exactly the logs in which every record has its position, links to its predecessor and carries its own hash or the one its marker preserves. |
| `EventAcceptance.AcceptedIff` | scripts/verify-evidence-report.py:686-726 | Acceptance in the terms of the log alone: position, time, named principals, link, well-formed hash, readable payload, and the hash of the content or the two hashes of the last marker that names the record. |
| `EventChain.StepBack` | scripts/verify-evidence-report.py:701-726 | A record before an agreeing suffix agrees too, redacted or not. |
| `EventChain.HeadGivesLength` | scripts/verify-evidence-report.py:673-726 | Equal head hashes give equal lengths. |
| `EventChain.HeadFixesLog` | scripts/verify-evidence-report.py:681-726 | Two accepted logs with the same head hash, whose markers do not look ahead or state their own content hash, have the same length and the same records, redacted ones included. |
| `EventChain.HeadHashFixesLog` | scripts/verify-evidence-report.py:667-726 | The same with the framing and SHA-256 spelled out, given no collision among the byte strings hashed for the two logs. |
| `EventChain.RedactionKeepsChain` | scripts/verify-evidence-report.py:719-726 | Redacting a record in place and appending its marker turns an accepted log into an accepted log, with no other record changed. |
| `MarkerOrder.LookAheadUnfixesLog` | scripts/verify-evidence-report.py:686-724 | For every hash and every marker format that is read back, any accepted log whose markers look at most one record ahead can be continued by four records in two ways, both accepted and looking no further, with one head hash and different content. |
| `MarkerOrder.HeadFixesIff` | scripts/verify-evidence-report.py:686-724 | With the verifier's own marker parser, the head hash fixes all accepted logs whose markers look at most a given number of records ahead, without a hash collision or a marker that states its own record's hash, if and only if that number is zero or less. |
| `Projection.Declare` | crates/hugit-cli/src/projection.rs:187-253 | The loops compute the one-pass specification: skip up to the cursor, process up to the budget, stop at the first failure. |
| `ProjectionChunks.ProjectFailsAgain` | crates/hugit-cli/src/projection.rs:207-246 | Retrying a record that fails again leaves the status as the first failure left it. |
| `ProjectionChunks.CursorNeverMovesBack` | crates/hugit-cli/src/projection.rs:198-252 | No call lowers the cursor, for any log and any failures. |
| `ProjectionChunks.SplitBudget` | crates/hugit-cli/src/projection.rs:187-253 | A call with limit a followed by one with limit b equals one call with limit a + b. |
| `ProjectionChunks.PassOnLongerLog` | crates/hugit-cli/src/projection.rs:187-253 | A call on a log equals a call on any extension of it with the budget it spent. |
| `ProjectionChunks.RunIsOneCall` | crates/hugit-cli/src/projection.rs:187-253 | Any series of calls on a growing log equals one call on the final log. |
| `ProjectionChunks.DrainIsOnePass` | crates/hugit-cli/src/projection.rs:187-253 | After any series of calls on a growing log, with any limits, the status is that of one unlimited pass over the final log exactly when one more call with limit 1 would change nothing. |
| `ProjectionChunks.EnoughCallsDrain` | crates/hugit-cli/src/projection.rs:187-253 | Calls on one log drain it as soon as their limits together reach its length, however small each limit is. |
| `ProjectionOnce.ProjectAdvances` | crates/hugit-cli/src/projection.rs:207-246 | One record's projectors extend the completed list along a fixed order, whichever of them fail. |
| `ProjectionOnce.ProcessAdvances` | crates/hugit-cli/src/projection.rs:198-251 | Handling the first record past the cursor keeps the status on track, with success or failure. |
| `ProjectionOnce.PassAdvances` | crates/hugit-cli/src/projection.rs:187-253 | So does a whole call. |
| `ProjectionOnce.RunAdvances` | crates/hugit-cli/src/projection.rs:187-253 | So does any series of calls on a growing log, with failures chosen afresh at each call. |
| `ProjectionOnce.RunsAreExactlyOnce` | crates/hugit-cli/src/projection.rs:193-252 | Over any such series: no source and projector pair is completed twice, every valid record up to the cursor has all projectors done, only the first record past it may be partly done, and a pending retry lies past the cursor and is not completed. |
| `ProjectionFacts.SourceIff` | crates/hugit-cli/src/projection.rs:35-84 | A record gives a fact exactly when it is a reference update by the hook alone with a readable payload, a receipt and a hash; each field of the fact is the payload's first text that is not empty. |
| `ProjectionFacts.PassIsGenuine` | crates/hugit-cli/src/projection.rs:198-252 | Every entry a call adds carries the outcome that a projector of that call produced for a record of its log; a new retry carries the way one failed; a retry goes away exactly when its pair is completed. |
| `ProjectionFacts.RunIsGenuine` | crates/hugit-cli/src/projection.rs:193-252 | Over any run each completed entry was added by one of its calls, with the outcome produced there. |
| `ProjectionFacts.RunFailureIsGenuine` | crates/hugit-cli/src/projection.rs:216-234 | Over any run a pending retry was left by one of its calls, with the code of the refusal or the panic code. |
| `ProjectionFacts.LastCallStops` | crates/hugit-cli/src/projection.rs:198-252 | A call moves the cursor by its limit, to the end of the log, or up to a record on which a projector fails; it never stops earlier or goes further. |
| `Hex.HexRoundTrip` | scripts/plan/verify_inventory.py:109-109 | Hexadecimal object ids decode back to their bytes. |
| `Hex.HexCanonical` | scripts/plan/verify_inventory.py:38-39 | Every accepted hexadecimal text is the rendering of what it decodes to. |
| `GitEnumeration.RowIff` | scripts/plan/verify_inventory.py:78-86 | A row is read as an entry exactly when the entry is admissible and the row is its rendering. |
| `GitEnumeration.ParseEnumeration` | scripts/plan/verify_inventory.py:74-89 | The parser returns a list of entries exactly when the input is the rendering of that admissible, duplicate-free list within the record limit; otherwise it rejects. |
| `GitEnumeration.EnumerationIsValid` | scripts/plan/verify_inventory.py:41-48 | What the parser returns satisfies the conditions under which the tree results hold. |
| `GitPaths.SplitOnIff` | scripts/plan/verify_inventory.py:44-44 | Splitting gives exactly the pieces between delimiters. |
| `GitPaths.PathOkIff` | scripts/plan/verify_inventory.py:41-48 | A path is admitted exactly when it is UTF-8 of 1 to 4096 bytes with fewer than 64 slashes, without NUL, backslash or colon, and no component is empty, `.` or `..`. |
| `GitPaths.RowsAsPrinted` | scripts/plan/verify_inventory.py:78-84 | The rows that are parsed are those Git prints for an index and for a tree. |
| `GitTree.FoldTree` | scripts/plan/verify_inventory.py:101-110 | The fold succeeds exactly on trees in canonical order, with the recursive tree hash as its value. |
| `GitTree.GitTreeOid` | scripts/plan/verify_inventory.py:91-111 | Building and folding succeed exactly on accepted enumerations, and give the hash of the built tree. |
| `GitTreeReader.HashedIsTreeObject` | scripts/plan/verify_inventory.py:101-110 | A reader for Git's tree objects, with its own constants, reads what is hashed for any directory as one row per child in order: a file by its mode and id, a directory by mode 40000 and the hash of a tree object for it, all the way down. |
| `GitTreeReader.RootIsGitsTree` | scripts/plan/verify_inventory.py:91-111 | The root of an accepted enumeration is the hash of Git's tree object for a tree that holds exactly the enumerated entries. |
| `GitTreeProofs.InsertAdds` | scripts/plan/verify_inventory.py:94-100 | Inserting a path adds exactly that leaf and no other change to the leaves. |
| `GitTreeProofs.BuildContents` | scripts/plan/verify_inventory.py:91-100 | The leaves of the built tree are exactly the enumerated entries. |
| `GitTreeProofs.FlatSorted` | scripts/plan/verify_inventory.py:101-106 | Canonical order in every directory puts the flattened full paths in byte order. |
| `GitTreeProofs.FlatInjective` | scripts/plan/verify_inventory.py:91-100 | A tree is determined by its flattening. |
| `GitTreeProofs.SameBlobsSameTree` | scripts/plan/verify_inventory.py:91-111 | Accepted enumerations of the same entries build the same tree. |
| `GitTreeProofs.SortedAcceptedIff` | scripts/plan/verify_inventory.py:91-106 | A byte-sorted enumeration is accepted exactly when no file is also a directory, and flattening its tree gives the enumeration back. |
| `GitTreeProofs.BodyInjective` | scripts/plan/verify_inventory.py:101-110 | Without a hash collision, equal directory bodies come from equal trees. |
| `GitTreeProofs.RootFixesEntries` | scripts/plan/verify_inventory.py:74-111 | Two accepted enumerations have the same root exactly when they hold the same paths, modes and blob ids. |
| `PlanGraph.Ancestors` | scripts/plan/sync_github.py:26-28 | The sweep succeeds exactly when every listed task comes after its dependencies, and then gives exactly the tasks reachable along dependencies. |
| `PlanGraph.ReachLowersRank` | scripts/plan/sync_github.py:27-28 | An ancestor comes earlier in the order, so no listed task is its own ancestor. |
| `PlanGraph.Climb` | scripts/plan/sync_github.py:29-29 | From every dependency one can climb to a kept one that still leads to it. |
| `PlanGraph.ResolvedIsListedOrOne` | scripts/plan/sync_github.py:29-29 | A task the reduction resolves has only listed dependencies, or a single unlisted one. |
| `PlanGraph.ReductionKeepsRelation` | scripts/plan/sync_github.py:29-33 | Full and reduced edges have the same ancestors for every task, unlisted tasks and circles among them included. |
| `PlanGraph.SelfCheckHolds` | scripts/plan/sync_github.py:31-33 | The second sweep gives the same ancestor sets as the first. |
| `PlanGraph.ReductionIsMinimal` | scripts/plan/sync_github.py:29-29 | With duplicate-free dependencies, dropping any kept edge loses an ancestor. |
| `PlanGraph.KeepExactly` | scripts/plan/sync_github.py:29-29 | The reduction of one task fails exactly when it reaches an unlisted task before finding the answer, and otherwise keeps, in order, the dependencies no other one leads to. |
| `PlanGraph.ListedIsResolvable` | scripts/plan/sync_github.py:29-29 | Such a failure is only possible for a task the order leaves out. |
| `PlanGraph.Graph` | scripts/plan/sync_github.py:25-34 | The relation-changed error never occurs; a lookup error occurs exactly in the stated cases; the result is the irredundant edges, has the same ancestors for every task, and with duplicate-free dependencies is minimal. |
| `AffectedSet.ReverseIndex` | crates/hugit-checks/affected/mod.rs:140-145 | The index lists, for each name, exactly its direct dependents. |
| `AffectedSet.Seeds` | crates/hugit-checks/affected/mod.rs:147-155 | The seeds are exactly the packages that own a changed path. |
| `AffectedSet.Search` | crates/hugit-checks/affected/mod.rs:157-170 | The worklist search ends with the least set that holds the seeds and is closed under dependents. |
| `AffectedSet.Affected` | crates/hugit-checks/affected/mod.rs:116-173 | Full set with its reason exactly when a full-set rule fires, the first matching path being named; otherwise the least fixed point. |
| `AffectedSet.TouchesRootIff` | crates/hugit-checks/affected/mod.rs:125-136 | A path touches the root exactly when it is a slice of some root manifest's name or the other way round. |
| `AffectedSet.LeastIsTransitiveDependents` | crates/hugit-checks/affected/mod.rs:158-172 | That least set is exactly the owners and their transitive dependents along chains of dependencies. |
| `AffectedSet.AffectedDistributes` | crates/hugit-checks/affected/mod.rs:147-172 | The targeted result of a union of changes is the union of the results. |
| `AffectedSet.AffectedIsMonotone` | crates/hugit-checks/affected/mod.rs:116-173 | More changed paths never give fewer packages, across all branches. |
| `TenantIsolation.MemoStore.AdmitEntry` | crates/hugit-invariants/x1/isolation.rs:270-319 | A forgery exactly when the claimed key is not the derived one; a poisoning exactly when the slot holds other bytes; otherwise stored. Entries change only when admitted, and one audit event is added that alerts exactly when refused. |
| `TenantIsolation.MemoStore.LookupEntry` | crates/hugit-invariants/x1/isolation.rs:330-344 | A hit with the bytes of the derived slot or a miss; no entry changes, and one audit event without alert is added. |
| `TenantIsolation.Noninterference` | crates/hugit-invariants/x1/isolation.rs:116-344 | Deleting every other tenant's operations from a run changes none of a tenant's own outcomes, if no foreign slot is one of its own. |
| `TenantIsolation.IsolationIff` | crates/hugit-invariants/x1/isolation.rs:116-344 | Over all runs of two tenants, one never sees the other exactly when their derived keys never coincide. |
| `TenantIsolation.IsolatedIffBlockKeysDiffer` | crates/hugit-invariants/x1/isolation.rs:71-121 | With a collision-free keyed hash the exact condition is distinct padded secrets, not distinct secrets. |
| `TenantIsolation.SecretsShareBlockIff` | crates/hugit-invariants/x1/isolation.rs:71-121 | Two secrets of any length give the same key exactly when what is padded of them, the secret or its digest, differs only by zero bytes at the end. |
| `TenantIsolation.DistinctSecretsShareBlock` | crates/hugit-invariants/x1/isolation.rs:71-121 | So a short secret shares its key with its zero-extended form, and a long secret with its own digest. |
| `TenantIsolation.NeverPoisoned` | crates/hugit-invariants/x1/isolation.rs:270-319 | An entry once stored keeps its value whatever is attempted afterwards. |
| `TenantHistory.RunByHistory` | crates/hugit-invariants/x1/isolation.rs:270-344 | Every outcome of a run is decided by its history: a lookup returns what the first rightful admission of its slot stored, another claimed key is a forgery, and other bytes for a held slot are refused. |
| `TenantHistory.StoredWasAdmitted` | crates/hugit-invariants/x1/isolation.rs:283-319 | Every stored entry comes from an admission that claimed its own slot, with its bytes. |
| `TenantHistory.DerivedKeysIff` | crates/hugit-invariants/x1/isolation.rs:116-121 | With a collision-free keyed hash, derived keys coincide exactly for one padded secret and one base key. |
| `HookAttach.HookFiles.PlanHooks` | crates/hugit-cli/src/attach.rs:72-105 | The first loop rejects exactly when a hook path is not a regular file, changes nothing, and plans each kind. |
| `HookAttach.HookFiles.InstallHooks` | crates/hugit-cli/src/attach.rs:120-177 | The second loop backs up, installs and records plan by plan and stops at the first token that does not match. |
| `HookAttach.HookFiles.Attach` | crates/hugit-cli/src/attach.rs:63-187 | An attach has the specified effect and outcome, error cases included. |
| `HookAttach.HookFiles.Detach` | crates/hugit-cli/src/attach.rs:189-240 | A detach has the specified effect and outcome, error cases included. |
| `HookAttachProofs.AttachPutsInPlace` | crates/hugit-cli/src/attach.rs:72-187 | A successful attach, first or repeated, leaves every hook dispatched, its original backed up and recorded. |
| `HookAttachProofs.DetachRestores` | crates/hugit-cli/src/attach.rs:189-240 | A detach from there restores presence, bytes and executable flag of every managed hook. |
| `HookAttachProofs.RunStaysKnown` | crates/hugit-cli/src/attach.rs:63-240 | Over any run of successful attaches and detaches the hooks are either all original or all dispatched, by the last action. |
| `HookAttachProofs.DetachUndoesAttach` | crates/hugit-cli/src/attach.rs:63-240 | Any such run that ends in a detach leaves every hook of the directory as it was at the start. |
| `HookAttachProofs.DetachAlwaysSucceeds` | crates/hugit-cli/src/attach.rs:189-240 | After at least one successful attach a detach cannot fail. |
| `HookAttachProofs.AttachSucceedsIff` | crates/hugit-cli/src/attach.rs:110-146 | An attach succeeds exactly when there is no foreign hook, or a single one whose token was passed. |
| `HookEdits.AttachRefusesIff` | crates/hugit-cli/src/attach.rs:72-117 | From any store: which refusal occurs, exactly when, and that a refusal before the first write changes nothing. |
| `HookEdits.AttachKeeps` | crates/hugit-cli/src/attach.rs:120-187 | Whatever its outcome, an attach changes no existing backup and no unmanaged hook, and the manifest only on success. |
| `HookEdits.DetachExactly` | crates/hugit-cli/src/attach.rs:189-240 | From any store whose manifest names each hook once: exactly when a detach succeeds, and that then every hook that still holds its dispatcher is restored and every other hook is left as it is. |
| `HookEdits.EditedHookIsLeft` | crates/hugit-cli/src/attach.rs:211-215 | A hook that no longer holds the recorded dispatcher is left alone, whatever the outcome of the restoring loop. |
| `FenceCodecs.Base64Encode` | crates/hugit-fence/src/util.rs:51-73 | The loop over chunks computes the encoding specified group by group. |
| `FenceCodecs.EncodedLength` | crates/hugit-fence/src/util.rs:51-73 | The output is four characters for each three bytes, rounded up. |
| `FenceCodecs.Base64RoundTrip` | crates/hugit-fence/src/util.rs:51-73 | A strict decoder for section 4 of RFC 4648 gives back every byte string. |
| `FenceCodecs.Base64Canonical` | crates/hugit-fence/src/util.rs:51-73 | Every text that decoder accepts is the encoding of what it decodes to. |
| `FenceCodecs.QuotedIsRead` | crates/hugit-fence/src/util.rs:42-44 | By sections 2.2.1 and 2.2.2 of the POSIX Shell Command Language, quoted text is read as one word equal to the original, whatever follows it. |
| `FenceCodecs.QuotedArgumentsAreRead` | crates/hugit-fence/src/util.rs:42-44 | A command line of quoted arguments is read back as exactly those arguments. |
| `PriceCard.RateIsFirstListed` | crates/hugit-contracts/src/model_price_card.rs:136-141 | The rate found is that of the first pair with exactly this model, and none exactly when no pair has it. |
| `PriceCard.CostIsExactFloor` | crates/hugit-contracts/src/model_price_card.rs:189-202 | A cost exists exactly when the model is listed and the exact sum fits in 64 bits, whatever the order of the checked steps, and is the floor of the exact value. |
| `PriceCard.BatchingBound` | crates/hugit-contracts/src/model_price_card.rs:189-202 | The cost of combined usage is at least the sum of the batch costs and exceeds it by at most the number of batches less one. |
| `AttentionQueue.RankIsTheStableSort` | crates/hugit-cli/attention/rank.rs:125-133 | The queue is a permutation of the items in the documented order, and is what every stable sort by that comparison returns. |
| `AttentionQueue.OrderIsCanonical` | crates/hugit-cli/attention/rank.rs:125-138 | The shown order depends only on the multiset of items. |
| `AttentionQueue.QueueDescends` | crates/hugit-cli/attention/rank.rs:125-133 | From the top, scores do not rise, at one score policies do not fall in byte order, and at one score and policy intents do not. |
| `AttentionQueue.ScoreCounts` | crates/hugit-cli/attention/rank.rs:99-111 | By comparison: a unit of blast radius counts 100, a missing unit of confidence one, being mandatory one billion, as long as the product does not saturate; no radius, full confidence and no mandate count zero. |
| `AttentionQueue.ScoreIsMonotone` | crates/hugit-cli/attention/rank.rs:99-111 | More blast radius or less confidence never lowers a score, also where the product saturates. |
| `AttentionQueue.FloorHoldsIff` | crates/hugit-cli/attention/rank.rs:99-111 | An item that is not mandatory scores below every mandatory one exactly when its blast radius is at most 9,999,899, or at most 9,999,999 with a confidence above 100 for each unit past 9,999,900. |
| `AttentionQueue.MandatoryFirst` | crates/hugit-cli/attention/rank.rs:99-133 | Under that condition every mandatory item precedes every other one. |
| `AttentionQueue.FloorFailsAt` | crates/hugit-cli/attention/rank.rs:99-133 | At blast radius 9,999,900 with no confidence a tie is possible and the other item can come first. |

## Left out

- Git subprocesses, path canonicalisation, permissions, fsync, I/O faults and wall-clock waits in
  `runtime_store.rs` and `attach.rs`; a bounded wait may end at any time, as a choice of the run.
- The lock file's age: any lock file may be found old at any time. A failed creation and the age test
  after it are one step.
- A legacy file that is rewritten during a run: explicit migration does not recheck it under the lock
  and promises nothing there. The bootstrap recheck is modelled and refuses a changed file, but
  in a run, where the file is fixed, it always passes.
- Metadata that cannot be parsed, and a runtime root that is not a directory.
- SHA-1, SHA-256 and HMAC internals; JSON parsing, so that a payload's readability, its marker and its
  projected fields are functions given as parameters.
- The type and field-set tests of `verify_event_chain` on raw JSON; records are typed here.
- The bodies of the default projectors, and overflow of the summary counter of `projection.rs`.
- Aliasing of the nested dictionaries of `git_tree_oid`; the tree is a value that each insertion replaces,
  with entries in insertion order as Python keeps them.
- Which hooks a failed attach has already written is specified by `HookAttach.InstallAll`, but the
  round-trip results are about successful attaches, which is all the code promises.
- HookEdits.DetachExactly: a manifest that lists one hook twice, which attach never writes, is excluded.
- `attach --preview`, the dispatcher script's text, and the separate quoting function of `attach.rs`.
- AttentionQueue.OrderIsCanonical: a score sum over 64 bits is excluded by hypothesis.
- The current price table and its construction from cents; `normalize_path`; the shared registry and
  anonymised attestations of `isolation.rs`: they would only add easy members.
- POSIX shell syntax other than quoting and word separation.
- The scrub engine, the union queue, the GitHub client, HTTP, command dispatch, report building, tar
  handling, the revocation ledger, fast-approve, the degraded view and the focus gate.
