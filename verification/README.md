# Verified model of the PowerContext release, evaluation and upgrade scripts

A Dafny 4.11 model of the small protocols in this repository whose correctness is not obvious from reading one
function, with proofs that hold for every input, every run and every interleaving the model admits. Check it with
`dafny verify dfyconfig.toml`.

**Recovery scoring** (`evaluation/agent_tool_recovery`). `CodexReader` reads an event stream into one turn, `Binding`
pairs overlapping calls with gateway events and Server requests, `Attribution` decides which call answers which
failure, and `RetryTallies` recounts the stored rows. The `…Theorems` modules and `BindingOrder` say what this is
worth: a transcript is accepted exactly when it holds one complete turn; pairing by rank is refused exactly when some
arrival order that respects real time would have bound a call differently; the incremental scan computes a definition
over the whole turn; two tallies agree. `BindingArrivals` turns orders into arrival instants, at the gateway and at
the Server, in half-open and in closed windows. `RecoveryPipeline` composes the stages, and `GatewayFaults` carries
the result back to the gateway: with whatever lock order and log order, the declared faults are stored on the first
calls issued.

**Release publication** (`scripts/publish_desktop_release.py`). `GitHubRelease` is the remote side as an object whose
calls follow a script of outcomes: done, refused, done with the response lost, an empty "starter" row left behind,
wrong bytes stored. A crash between two calls is a refusal of the next one. It records every state it was in, so
`Publication` can state safety over the whole history of any sequence of runs, and recovery from every state such a
sequence can reach.

**Process supervisor** (`scripts/upgrade_process.py`). `ProcessTable` is a kernel with incarnations, reparenting, PID
reuse and a fork budget, in which owned processes may be subreapers themselves; between any two system calls of
`UpgradeSupervisor` an oracle takes any finite number of steps. Termination rests on two assumptions, both in the
table: forks are finite (a budget) and a killed process exits after a finite number of rounds (its patience).

**Exactly-once acceptance.** `AcceptanceShards` covers the producers and the verifier of strided test shards,
`UpgradeGates` the parallel upgrade gate and its agreement with the sequential one.

**Resolution, traversal and automata.** `RuntimeArchive`, `RuntimeExtraction` and `RuntimeFolding` (tar aliases),
`SchemaRefs` (JSON Pointer references), `ActionReferences` (a worklist over a cyclic object graph), `RestartLog` (a
one-pass recogniser), `RequestJournal` (a resumable request journal) and `LogSampling` (sampling under a shared
budget). `Chains`, `Counting`, `Sequences`, `Strings`, `Transcripts` and `Wrappers` are shared.

Code that changes state step by step is a method or a class with the same loops and branches, proved against a
specification function or a property; expressions are functions. Every induction is written out; the attribute
`{:induction false}` stands on the lemmas for which Dafny would otherwise add one of its own. Times are integers. A
digest stands for the content it is the digest of, so equal digests mean equal contents.

What the proofs found out about the code:

- `bind_calls` treats a call issued at the instant another result was received as later. For requests that arrive
  strictly before their results are received that is right. If they may arrive at that very instant, the stored
  bindings are right for all arrivals exactly when no call is issued at an earlier call's result instant with a
  different binding (`BindingTheorems.ClosedWindowExact`, `BindingArrivals.BoundForClosedArrivalsExactly`); increasing
  receipt times rule such calls out.
- An upload that stores wrong bytes cannot be recovered from: uploaded rows are never replaced, so the draft stays a
  draft for ever, and a run without failures completes a draft exactly when it has no such row.
- The path checks of `extract_runtime` compare names exactly. Writing an accepted archive to a tree that folds case
  fails after the first write exactly when a file folds like a directory that is spelled differently
  (`RuntimeFolding.WriteFolded`).
- The last check of `verify_group` cannot fail for its counter, only for a missing index.
- `call` in the request journal guarantees one outcome per request only for replies that reach the file: a process
  killed between reply and write, or a reply that is no JSON, leaves no record, and a process killed after moving a
  failure aside forgets it. The name is open to another request exactly when the last call left no file in one of these
  ways (`RequestJournal.GuardedExactly`), and two requests go out under it exactly when one is then sent
  (`RequestJournal.OneRequestExactly`). A status of 600 or above is returned as a success but is sent again on
  resumption.

## Model

| member | source | states |
|---|---|---|
| CodexReader.ReadTranscript | evaluation/agent_tool_recovery/codex.py:353-437 | the event loop, line by line, computes `Read`: the turn, or every problem found |
| CodexTheorems.ReadReturnsExactly | evaluation/agent_tool_recovery/codex.py:353-437 | a transcript is accepted if and only if there is one receipt per line, one prompt and one complete turn: opened once, never failed, completed, every item finished once as a bindable call, nothing open, answered after all of them |
| CodexTheorems.AcceptedTurn | evaluation/agent_tool_recovery/codex.py:353-437 | the calls of an accepted turn are, as a multiset, exactly the finished items of the stream, with distinct IDs, in issue order, all answered |
| CodexTheorems.AcceptedAnswer | evaluation/agent_tool_recovery/codex.py:395-437 | the terminal answer is a message received after every issue and every result of the turn |
| CodexTheorems.AcceptedTimes | evaluation/agent_tool_recovery/codex.py:353-437 | with receipts in order no call is answered before its issue, and the answer is no earlier than any result |
| CodexTheorems.AcceptedInstants | evaluation/agent_tool_recovery/codex.py:353-437 | with distinct receipts no call is issued at the instant another result arrives |
| CodexTheorems.ScanIsFaithful | evaluation/agent_tool_recovery/codex.py:353-437 | every call the loop has collected stands for its own finished item with the time of its last issue, after any prefix of the stream |
| Binding.GroupCalls | evaluation/agent_tool_recovery/report.py:98-103 | the dictionary of operations holds, per operation, its calls in issue order, and the operations in first-call order |
| Binding.GroupEvents | evaluation/agent_tool_recovery/report.py:104-106 | the dictionary of events holds each operation's gateway events in log order |
| Binding.ServerStatuses | evaluation/agent_tool_recovery/report.py:54-79 | the statuses in arrival order and the problems, in the correlated and the uncorrelated form; no problem means one status per forwarded call |
| Binding.FindConflict | evaluation/agent_tool_recovery/report.py:131-139 | the nested scan finds a conflict exactly when some call overlaps a later one that was bound differently |
| Binding.PairCalls | evaluation/agent_tool_recovery/report.py:115-130 | the bindings of one operation are those of pairing calls, events and forwarded statuses by rank |
| Binding.BindOneOperation | evaluation/agent_tool_recovery/report.py:109-139 | one round of the loop adds exactly the operation's bindings and problems |
| Binding.BindCalls | evaluation/agent_tool_recovery/report.py:82-142 | the loops compute `Bind`: all bindings, or all problems |
| BindingTheorems.BindReturnsExactly | evaluation/agent_tool_recovery/report.py:82-142 | bind_calls returns if and only if, for every operation, the gateway recorded as many calls as were issued, the Server as many as were forwarded with at most one request each, and no pair of arrival orders that respects real time would bind a call differently |
| BindingTheorems.BindingsOrderIndependent | evaluation/agent_tool_recovery/report.py:109-142 | when it returns, pairing by any gateway order and any Server order admissible in half-open windows gives every call the stored fault, reached flag and status |
| BindingOrder.OverlapCheckExact | evaluation/agent_tool_recovery/report.py:131-139 | for half-open and for closed arrival windows: two calls that real time leaves unordered are bound differently exactly when the records are ambiguous |
| BindingOrder.OrderIndependent | evaluation/agent_tool_recovery/report.py:109-139 | bindings that are constant on unordered calls do not depend on the arrival orders |
| BindingOrder.CutIsKept | evaluation/agent_tool_recovery/report.py:92-95 | every admissible arrival order keeps each side of an instant that separates the calls |
| BindingOrder.DifferentBindingsAreCut | evaluation/agent_tool_recovery/report.py:131-139 | two calls bound differently are separated by such an instant |
| BindingOrder.ConflictIsAmbiguous | evaluation/agent_tool_recovery/report.py:131-139 | a refused overlap really has an arrival order that binds some call differently |
| BindingTheorems.WindowExact | evaluation/agent_tool_recovery/report.py:131-142 | for either window, a returned session has the bindings of every pair of admissible orders exactly when no two unordered calls are bound differently |
| BindingTheorems.ClosedWindowExact | evaluation/agent_tool_recovery/report.py:131-142 | if requests may arrive up to the instant their results are received, that is exactly when no call is issued at an earlier call's result instant with a different binding |
| BindingArrivals.GatewayOrdersExact | evaluation/agent_tool_recovery/report.py:92-95 | the orders that arrival instants in the windows can give at the gateway are exactly the admissible ones |
| BindingArrivals.ServerOrdersExact | evaluation/agent_tool_recovery/report.py:92-95 | the same for the forwarded calls at the Server |
| BindingArrivals.BoundForHalfOpenArrivals | evaluation/agent_tool_recovery/report.py:109-142 | a returned session is bound right for all arrival instants at gateway and Server that lie strictly before the results |
| BindingArrivals.BoundForClosedArrivalsExactly | evaluation/agent_tool_recovery/report.py:131-142 | it is bound right for all instants up to and including the results exactly when no call is issued at an earlier call's result instant with a different binding |
| BindingArrivals.ClosedIntervalMisbinds | evaluation/agent_tool_recovery/report.py:131-142 | a concrete session that is accepted and, for arrivals at such an instant, has the wrong stored binding |
| Attribution.TurnRows | evaluation/agent_tool_recovery/report.py:145-301 | the one-pass scan computes `Report`, and raises exactly for a call without a result |
| AttributionTheorems.AnswersLatestFailure | evaluation/agent_tool_recovery/report.py:186-192 | a row responds to failure j exactly when, over the whole turn, j's result is the latest of its operation that arrived no later than the issue, and an error; links point backwards |
| AttributionTheorems.UnansweredPeersAreNotRetries | evaluation/agent_tool_recovery/report.py:176-192 | a call sent before any result arrived answers nothing and carries no retry or write flag |
| AttributionTheorems.RetryFlags | evaluation/agent_tool_recovery/report.py:192-212 | a linked row repeats, retries the target and leaves the named field unchanged exactly as its call compares with the call it answers |
| AttributionTheorems.WritesAfterTerminal | evaluation/agent_tool_recovery/report.py:178-226 | a write is flagged exactly when a declared terminal failure had been received when it was issued |
| AttributionTheorems.RecoveryExact | evaluation/agent_tool_recovery/report.py:178-185 | a turn recovers exactly when a target call succeeds that was issued after a declared failure was received |
| AttributionTheorems.OutcomeExact | evaluation/agent_tool_recovery/report.py:313-349 | the outcome of a case, read off the calls of its turns: not triggered, stopped, recovered or violating exactly as the declared failure was met, the calls that repeat it unchanged exceed the budget or another rule was broken, and the target succeeded afterwards |
| RecoveryPipeline.AcceptedTranscriptBindsSoundly | evaluation/agent_tool_recovery/report.py:82-142 | if the calls of an accepted transcript are bound, the stored bindings are right for all arrivals between the receipts of issue and result, strictly before the latter, at the gateway and at the Server |
| RecoveryPipeline.AcceptedTranscriptBindsExactly | evaluation/agent_tool_recovery/report.py:82-142 | with receipts in order, arrivals at the receipt of the result are covered exactly when no call is issued at another's with a different binding |
| RecoveryPipeline.IncreasingReceiptsBindSoundly | evaluation/agent_tool_recovery/report.py:82-142 | with increasing receipts they are covered always |
| RecoveryPipeline.AcceptedTranscriptAttribution | evaluation/agent_tool_recovery/report.py:145-301 | the calls of every accepted transcript with increasing receipts are attributed by the whole-turn definition |
| RetryTallies.RetryCounts | evaluation/agent_tool_recovery/summary.py:169-193 | the triple loop computes the pooled tally of the complete reports |
| RetryTallies.TurnTalliesAgree | evaluation/agent_tool_recovery/summary.py:169-193 | for the case's operation and code, a scored turn's recount splits its stored target retries into repeated and changed |
| RetryTallies.RunTalliesAgree | evaluation/agent_tool_recovery/report.py:329-333 | for a run, the recount equals the number the outcome compares with its budget, and the violation is exactly a recount above the budget |
| RetryTallies.PooledTalliesAgree | evaluation/agent_tool_recovery/summary.py:169-193 | over any set of scored reports the recount agrees with the retries stored in the complete ones |
| GatewayFaults.Budget.TakeFault | evaluation/agent_tool_recovery/proxy.py:105-111 | one locked step takes a fault of the first named operation that has any left, and lowers only that budget |
| GatewayFaults.BudgetConserved | evaluation/agent_tool_recovery/proxy.py:100-111 | after any arrivals, batches included, what is left and what was granted add up to what was declared |
| GatewayFaults.PassesWhenUsedUp | evaluation/agent_tool_recovery/proxy.py:105-111 | a request passes without a fault exactly when every operation it names has used its faults up |
| GatewayFaults.FirstArrivalsAreFaulted | evaluation/agent_tool_recovery/proxy.py:105-111 | with one call per request, the k-th arrival of an operation is faulted exactly when k is below its count |
| GatewayFaults.FaultsLandOnFirstCalls | evaluation/agent_tool_recovery/proxy.py:115-145 | for one session-wide sequence of lock arrivals and one log of the events forward records: if bind_calls returns for that log, the stored fault of a call is the one its own request took, and the faulted calls are the first ones issued, up to the count |
| GitHubRelease.GitHub.Upload | scripts/publish_desktop_release.py:194-197 | every outcome of an upload: stored, refused, response lost, empty starter left, wrong bytes stored; never a second row of a name |
| GitHubRelease.GitHub.RemoveEmptyUpload | scripts/publish_desktop_release.py:199-200 | deletion removes the row of the given ID, whatever it is |
| GitHubRelease.GitHub.CreateDraft | scripts/publish_desktop_release.py:174-187 | every outcome of creating the draft, the lost response included |
| GitHubRelease.GitHub.Update | scripts/publish_desktop_release.py:202-203 | every outcome of changing the release, the lost response included |
| GitHubRelease.GitHub.Download | scripts/publish_desktop_release.py:205-210 | a download succeeds only with the bytes of an uploaded row of that name |
| Publication.VerifyTag | scripts/publish_desktop_release.py:213-214 | passes exactly when the tag resolves to the approved source |
| Publication.RemoteInventory | scripts/publish_desktop_release.py:305-321 | returns exactly when the listing is short enough, without duplicates, and every row is approved bytes or, in a draft, an empty upload; the result says which |
| Publication.AddRowExact | scripts/publish_desktop_release.py:294-321 | one row is accepted exactly when it is acceptable and its name is new |
| Publication.StageOne | scripts/publish_desktop_release.py:326-333 | one round of staging keeps the history lawful under every outcome, and without failures leaves one name less to upload, with one upload |
| Publication.StageMissing | scripts/publish_desktop_release.py:326-333 | the staging loop does so for all missing names |
| Publication.StageDraft | scripts/publish_desktop_release.py:324-337 | a success leaves exactly the bundle; without failures a clean draft succeeds and only the missing assets are uploaded |
| Publication.ConfirmComplete | scripts/publish_desktop_release.py:334-337 | the second listing accepts only the complete approved inventory |
| Publication.VerifyDownloads | scripts/publish_desktop_release.py:344-348 | returns only when every approved asset was downloaded with the approved bytes |
| Publication.VerifyPublic | scripts/publish_desktop_release.py:340-351 | a success means exactly the bundle at the approved source; without failures an exact release passes |
| Publication.FindOrCreate | scripts/publish_desktop_release.py:355-359 | only a missing release is created, as a draft of this bundle, and only for a prerelease |
| Publication.GoPublic | scripts/publish_desktop_release.py:383-388 | a fully staged draft becomes the public prerelease and nothing else changes |
| Publication.PublishPrerelease | scripts/publish_desktop_release.py:379-389 | keeps the law in every outcome; a public release is left as it is |
| Publication.DropPrereleaseFlag | scripts/publish_desktop_release.py:369-378 | promotion clears the flag and records the evidence; the rows stay |
| Publication.PromoteRelease | scripts/publish_desktop_release.py:362-378 | a success is a promoted release with exactly the bundle and this evidence; repeating it changes nothing |
| Publication.Publish | scripts/publish_desktop_release.py:354-390 | in every outcome the remote side only moves lawfully: a success is the public release of exactly this bundle, a public or foreign release is not touched, and without failing calls a prerelease run succeeds exactly when the rows are approved bytes or empty uploads, with one upload per missing asset |
| Publication.RunAll | scripts/publish_desktop_release.py:354-390 | any sequence of runs, of any bundles, each failing at any call, keeps the history lawful |
| Publication.RecoverAfterRuns | scripts/publish_desktop_release.py:354-390 | after any runs, one run without failing calls ends in the complete public release exactly when no row holds wrong bytes, which runs without corrupted uploads guarantee; it uploads each missing asset once |
| Publication.HistoryKeeps | scripts/publish_desktop_release.py:324-390 | in a lawful history every earlier state is kept by every later one: uploaded rows, identity, order of the lifecycle |
| Publication.PublicForEver | scripts/publish_desktop_release.py:354-390 | once public, a release holds exactly its own bundle at every later point and its stage never goes back |
| Publication.UploadedForEver | scripts/publish_desktop_release.py:328-332 | an uploaded row is never deleted or overwritten |
| Publication.SpoiltForEver | scripts/publish_desktop_release.py:294-337 | a draft with an uploaded row that its manifest does not approve stays a draft for ever |
| Publication.NoStageSkipped | scripts/publish_desktop_release.py:354-390 | the lifecycle passes none, draft, prerelease and release one by one |
| ProcessTable.NoChildrenNoDescendants | scripts/upgrade_process.py:68-76 | without direct children of the subreaper there is no descendant left, live or zombie |
| ProcessTable.ApplyAllEvolves | scripts/upgrade_process.py:27-45 | any environment run of forks, exits, reparenting to the nearest subreaper above and PID reuse keeps the table consistent and neither signals for the supervisor nor reaps its children |
| UpgradeSupervisor.System.SendSignal | scripts/upgrade_process.py:78-85 | kill on a listed child reaches that same incarnation and no other, whatever happens in between |
| UpgradeSupervisor.System.WaitPid | scripts/upgrade_process.py:48-53 | a poll reaps the child with the PID exactly when it is finished, and nothing else |
| UpgradeSupervisor.ReapFinished | scripts/upgrade_process.py:48-53 | exactly the returned children are reaped, among them every finished one but the excluded |
| UpgradeSupervisor.NotifyOwned | scripts/upgrade_process.py:78-85 | every listed child has been sent the requested signal, and the dictionary still names the right incarnations |
| UpgradeSupervisor.TracksAfterReaping | scripts/upgrade_process.py:70-73 | forgetting exactly the reaped PIDs keeps the dictionary right even if the PIDs are reused |
| UpgradeSupervisor.TracksAfterSignal | scripts/upgrade_process.py:79-85 | a signal to a PID not yet told keeps every incarnation at each signal at most once, SIGTERM first |
| UpgradeSupervisor.RoundProgress | scripts/upgrade_process.py:71-89 | a round after the deadline lowers the fork budget or the weight of what is left, although killing a parent makes new direct children appear |
| UpgradeSupervisor.ReapRound | scripts/upgrade_process.py:71-89 | one round: only SIGTERM before the deadline, done only with nothing left, progress in the time or in the measure |
| UpgradeSupervisor.ReapDescendants | scripts/upgrade_process.py:68-89 | terminates, and on return no live or zombie descendant exists and each incarnation got each signal at most once and only as a direct child; a cleanup that ends within the shutdown time has killed nobody |
| UpgradeSupervisor.WaitCommand | scripts/upgrade_process.py:56-65 | the command stays the supervisor's own unreaped child until the poll that returns its result, which has reaped exactly that child; a timeout is only reported after the timeout |
| UpgradeSupervisor.WaitForKilled | scripts/upgrade_process.py:118-120 | waiting for the killed command ends, with that command reaped |
| UpgradeSupervisor.Supervise | scripts/upgrade_process.py:92-122 | however the wait ends, nothing owned is left and the signal discipline held; the status is the command's own end if it ended in time, 124 or 130 otherwise, and at most the command got one SIGINT, never after ending in time |
| UpgradeSupervisor.Unwind | scripts/upgrade_process.py:112-120 | a command that outlived its wait is reaped in the end: it had ended meanwhile, unwound after SIGINT, or was killed |
| AcceptanceShards.StridesPartition | scripts/check_atomic_memory_migration_shards.py:67-74 | for every collection and shard count the slices `nodes[i::n]` partition the collection as a multiset |
| AcceptanceShards.CompleteIndicesSuffice | scripts/check_atomic_memory_migration_shards.py:70-74 | accepted reports with a complete index set already imply the equality of the counters |
| AcceptanceShards.VerifyGroup | scripts/check_atomic_memory_migration_shards.py:28-75 | returns exactly when the reports are one complete account of every stride, with the size of the collection; the last check only ever fails for a missing index |
| AcceptanceShards.Produce | scripts/run_atomic_memory_clean_migration.py:104-171 | a summary is complete exactly when the collection is valid and every selected node passed, and then it lists exactly its stride |
| AcceptanceShards.CompletedProducersAccepted | scripts/run_atomic_memory_clean_migration.py:156-169 | every full set of completed summaries, in any order, is accepted |
| UpgradeGates.Matching | scripts/parallel_upgrade_release_gate.py:43-53 | the selected indices are exactly the matching cases, increasing |
| UpgradeGates.SequentialGate | scripts/upgrade_release_gate.py:521-558 | accepts exactly when there are cases and all of them pass (and a release is a supported upgrade); a broken case stops no other |
| UpgradeGates.CountCovers | scripts/parallel_upgrade_release_gate.py:173-197 | as many distinct selected indices as selected cases leave no case out, so the lookup by index cannot fail |
| UpgradeGates.GatherResults | scripts/parallel_upgrade_release_gate.py:174-196 | accepts exactly distinct good results, and stores each under its index |
| UpgradeGates.Collect | scripts/parallel_upgrade_release_gate.py:152-227 | returns exactly for unchanged plans and one good result per selected case; then every selected case has exactly one passing result and the artifacts have the planned digests |
| UpgradeGates.GatesAgree | scripts/parallel_upgrade_release_gate.py:152-227 | with a full selection and one report from every runner, the parallel gate accepts exactly when the sequential gate does |
| RestartLog.RestartEvidence | scripts/probe_seekdb_migration_lock.py:215-234 | the one-pass recogniser passes exactly the logs in which every path opens and exits alternately with positive distinct PIDs, none left open, and some path twice; it returns each path's PIDs |
| RestartLog.ValidityStep | scripts/probe_seekdb_migration_lock.py:221-232 | one more event keeps all projections alternating exactly when it fits its own path |
| RestartLog.Verdict | scripts/probe_seekdb_migration_lock.py:233-234 | the three final conditions are the property of all projections |
| SchemaRefs.ResolveRef | scripts/generate_js_operations.py:154-164 | one reference is resolved to its target, and to nothing when it is not local or was followed before |
| SchemaRefs.Deref | scripts/generate_js_operations.py:167-174 | terminates on every document and never returns a node that is itself a string reference |
| SchemaRefs.DereferenceExact | scripts/generate_js_operations.py:154-174 | the result is that of unbounded dereferencing wherever that ends, and None wherever it does not |
| SchemaRefs.EndingChain | scripts/generate_js_operations.py:154-174 | remembering references does not disturb a chain that ends |
| SchemaRefs.EndlessChain | scripts/generate_js_operations.py:154-174 | a chain that goes on for ever is cut off at None |
| SchemaRefs.ReferenceWalksItsKeys | scripts/generate_js_operations.py:158-164 | escaping a nonempty list of keys (section 3 of RFC 6901) and resolving it walks exactly those keys |
| SchemaRefs.UnescapeEscape | scripts/generate_js_operations.py:160-160 | decoding undoes escaping for every key |
| SchemaRefs.OtherOrderLosesKeys | scripts/generate_js_operations.py:160-160 | decoding in the other order would lose exactly the keys that contain `~1` |
| RuntimeArchive.Regular | scripts/prepare_managed_resources.py:196-210 | resolution terminates on every link graph, and a result is a regular member |
| RuntimeArchive.RegularExact | scripts/prepare_managed_resources.py:196-210 | resolution finds a file exactly when following links without any memory leads to that regular member |
| RuntimeArchive.TargetStaysInside | scripts/prepare_managed_resources.py:202-210 | what an alias points at is a nonempty name inside the tree without `..`, `.` or empty parts |
| RuntimeArchive.NormaliseIsClean | scripts/prepare_managed_resources.py:205-209 | a normalised path has `..` only at its front |
| RuntimeArchive.PlainLinkTarget | scripts/prepare_managed_resources.py:205-210 | a link without parts to resolve names the file beside its own name, or, as a hard link, the one from the root of the archive |
| RuntimeExtraction.ReadMembers | scripts/prepare_managed_resources.py:175-194 | the members are accepted exactly when all are sound, none clash when case is folded, and every running total and the count are within the limits |
| RuntimeExtraction.ResolveAll | scripts/prepare_managed_resources.py:212-212 | succeeds exactly when every name that is no directory resolves |
| RuntimeExtraction.ShadowingIsAncestry | scripts/prepare_managed_resources.py:213-216 | looking up every ancestor in the member table finds exactly the names that are ancestors of another |
| RuntimeExtraction.CheckShadows | scripts/prepare_managed_resources.py:213-218 | refuses exactly when some file has an ancestor that is no directory, and lists the aliases with their sources |
| RuntimeExtraction.SumSizes | scripts/prepare_managed_resources.py:219-220 | the materialised total counts every alias with the size of its source |
| RuntimeExtraction.Output.Write | scripts/prepare_managed_resources.py:222-229 | creating the parents and opening exclusively works exactly when no ancestor is a file and the name is free |
| RuntimeExtraction.WriteAll | scripts/prepare_managed_resources.py:222-229 | writing distinct names succeeds exactly when none is an ancestor of another, in whatever order they come, and leaves exactly those files; otherwise it fails after the first write |
| RuntimeExtraction.FilesStayInside | scripts/prepare_managed_resources.py:182-210 | every file written and every source copied has a portable name inside the tree |
| RuntimeExtraction.ExtractRuntime | scripts/prepare_managed_resources.py:165-232 | accepts exactly the acceptable archives; a refusal has written nothing, and an accepted one is written completely, each name with the bytes of the member it resolves to |
| RuntimeFolding.FoldedPrefixFreeExactly | scripts/prepare_managed_resources.py:213-229 | folded names are free of ancestors of each other exactly when the names are and no file is spelled differently from a directory that folds like it |
| RuntimeFolding.WriteFolded | scripts/prepare_managed_resources.py:222-229 | writing the files of an accepted archive to a tree that folds names succeeds exactly when no file is spelled differently from a directory that folds like it, and then each name leads to its bytes; otherwise it fails after the first write and leaves a first part of the files |
| RuntimeFolding.AcceptedNamesMayFoldTogether | scripts/prepare_managed_resources.py:186-216 | the checks do not ensure that: `Foo` and `foo/bar` are accepted together |
| ActionReferences.VisitMapping | scripts/check_workflow_actions.py:98-103 | one mapping adds its other values to the worklist and at most its own reference to the list |
| ActionReferences.CollectReferences | scripts/check_workflow_actions.py:86-106 | on every object graph the collection ends, with exactly one entry per mapping with a `uses` key that is reachable without passing through a `uses` entry |
| ActionReferences.AllVisited | scripts/check_workflow_actions.py:88-97 | when the worklist is empty, exactly the reachable objects were visited |
| RequestJournal.Journal.Request | scripts/dashboard_replay.py:79-116 | one call changes the files and answers as `Step` and `Answered` say, case by case |
| RequestJournal.AttemptsKept | scripts/dashboard_replay.py:97-98 | over any run the attempts are numbered 1 to k without gaps, are failures, and are never overwritten |
| RequestJournal.FinalRecord | scripts/dashboard_replay.py:90-95 | a success, an unknown outcome or a file cut off in the middle of writing is final: nothing is sent and no file changes |
| RequestJournal.SuccessRepeats | scripts/dashboard_replay.py:90-95 | after a success every later call gets the same response, or a refusal if its payload changed |
| RequestJournal.UnknownStays | scripts/dashboard_replay.py:93-94 | after an unknown outcome the request is never sent again |
| RequestJournal.TornStays | scripts/dashboard_replay.py:90-90 | a file cut off in the middle of writing stops every later call of the name |
| RequestJournal.RequestsAccountedFor | scripts/dashboard_replay.py:79-116 | the requests sent are the attempts, the current record, and those whose reply reached no readable file |
| RequestJournal.RecordComplete | scripts/dashboard_replay.py:99-112 | every request sent is on record exactly when no reply was lost (process dead before the record was whole, undecodable reply) |
| RequestJournal.OneRequestExactly | scripts/dashboard_replay.py:89-112 | over any run, GETs included, two different requests go out under a name exactly when some call sends another request than the first while it finds no file to respect |
| RequestJournal.OneRequest | scripts/dashboard_replay.py:89-98 | while the file of the name stands, everything sent under it is one request, and a readable record is of that request |
| RequestJournal.GuardedExactly | scripts/dashboard_replay.py:89-112 | after a run that sent one request, no next call can send another exactly when the last call left a file: it neither died before writing nor got a reply that is no JSON |
| RequestJournal.RefusedExactly | scripts/dashboard_replay.py:89-92 | a request other than the recorded one is refused and not sent exactly when the last call left a file |
| RequestJournal.ResumeExact | scripts/dashboard_replay.py:95-116 | a call that answered is answered again from the record exactly when its status is below 400; 600 and above are sent again |
| RequestJournal.KilledSendsTwice | scripts/dashboard_replay.py:99-112 | a process killed between reply and write leaves nothing, and the request goes out twice |
| RequestJournal.RenameForgetsRequest | scripts/dashboard_replay.py:97-100 | a process killed after moving a failure aside and before sending leaves no record of the request: another one goes out under the same name |
| LogSampling.SampleFile | scripts/upgrade_release_gate.py:329-358 | one file takes at most its cap and the budget left, as a whole or as its head and its tail |
| LogSampling.PreserveLogs | scripts/upgrade_release_gate.py:311-358 | captured and remaining bytes always add up to the budget, every regular file is recorded until it is used up, and with unchanged files the total captured is the smaller of the budget and what the files would take |
| LogSampling.PlacedSegments | scripts/upgrade_release_gate.py:335-351 | the segments lie inside the file one behind the other |
| LogSampling.TruncatedExactly | scripts/upgrade_release_gate.py:333-358 | with unchanged files a file is marked truncated exactly when it is longer than the cap or than the budget left |
| LogSampling.KeepsBothEnds | scripts/upgrade_release_gate.py:335-340 | what is kept of a truncated unchanged file is its first and its last bytes, not overlapping |

## Left out

- Network, file system, Docker, subprocess, tar, zip and YAML libraries: only the state they change and the failures they produce are modelled, as parameters or scripts of outcomes.
- SHA-256, regular expressions, `fnmatch`, JSON and YAML parsing, Unicode case folding and normalisation, time zones: digests stand for contents, what a pattern finds in a text is part of the record, and the Unicode functions are parameters.
- `transcript.py` and `server.py` of the recovery suite are not part of this model; their records are datatypes.
- Attribution.TurnRows: usage, durations, message counts and host tool counts of the report are left out; they are sums over the same rows.
- `_retry_behavior`, `_case_summary` and `merge_findings` in the summary: flat aggregation.
- GatewayFaults.Budget.TakeFault: the locked step only; headers, streaming bodies and after-response actions of the gateway are left out.
- GatewayFaults.FaultsLandOnFirstCalls: for requests with one call each, as hosts send them, and sessions whose every request was logged; batches are covered by the conservation lemmas.
- The URL comparison of public asset rows, several releases for one tag, uploads that complete after the run gave up on them, and two runs at the same time.
- Publication.StageMissing: visits the missing names in any order; the source sorts them.
- Publication.VerifyDownloads: compares sizes and digests of what was downloaded; a transfer cut short is a failed call.
- UpgradeSupervisor.Supervise: failure to start the command, the set-up of the subreaper and of the signal handlers, and races inside `/proc` reads are left out. A cancellation arrives at most once, at the end of a polling round. In the source it can arrive anywhere until `finally` ignores the signals: while the command is being started or inside an `except` clause it ends the run with an exception after the cleanup, instead of a status, and between entering `finally` and ignoring the signals it skips the cleanup.
- Reading the shard argument and report files; `parse_shard` only checks the form of its text.
- The field checks of `validate_platform`, `validate_catalog`, `validate_provision`, `validate_server_qualification` and the policy loader: each claim is one branch. `validate_bundle` enters as the condition that assets have positive sizes and are at most 27.
- RuntimeExtraction.ExtractRuntime: file modes and the order of the returned alias list; a trailing slash in the name of a regular member is dropped before the model starts.
- RuntimeExtraction.ReadMembers: reports one reason for all refusals of a member.
- SchemaRefs.Deref: numbers and booleans are one kind of value, since only strings, objects and lists matter here.
- RequestJournal.Journal.Request: attempts are counted by the archived files of the name; names of which one continues another with `.attempt-` would share the count.
- LogSampling.PreserveLogs: the list of log paths and the disk usage in the manifest.
- The message window of the dashboard replay, document and SVG rendering, model prompts, host commands, deployment scripts, wheel and OpenSSL builds.
- The Rust gateway, the desktop application and the Server.
