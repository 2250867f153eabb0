# Radar: a Dafny model of its hard algorithms and state machines

Radar is a Kubernetes viewer. This project models the parts of it that compute rather than
forward, and proves what they promise. Each module follows one component; loops, maps, arrays
and fields that the program updates in place are updated in place here, and each such method is
tied to a specification about which the properties are then proved as lemmas.

| component | modules | what is proved |
|---|---|---|
| Manifest diff | `Lcs`, `UnifiedDiff` | the dynamic-programming table gives a longest common subsequence; the emitter, which has a path that advances nothing, stops on every input; every hunk header names exactly its lines; read with shared context written once, the hunks take the old file to the new and, flipped, back; the removed and added lines are the complements of a longest common subsequence; as much context is printed as there should be and no more |
| Image file system | `LayerOverlay`, `FileTree` | what is in the file map after any layers; the map stays closed under parents; the tree shows each reachable entry once and is the same for every map iteration order; exactly when the single-file reader agrees with the map and with the tree, past the file-count limit too |
| Kubeconfig contexts | `ContextRegistry`, `ContextClient` | build, refresh and merge keep names and (file, context) pairs in bijection; plain names and the start go to the first file; the unbounded suffix search stops; an incremental refresh agrees with a rebuild and changes no published map |
| Sessions | `SessionRevocation` | over every run, exactly when a revoked session stays shut out, and which tokens revoke one; collection is invisible |
| Issues | `Issues`, `IssueDedupe`, `IssueEvidence`, `IssueGrouping`, `IssueQueue`, `IssueOrder`, `DiagnosticFacts` | what the four dedupe passes may drop and exactly when they keep the worst severity; exactly when grouping ignores the order of its input, and that the queue ignores the order of detection; counts are conserved; exactly when no subject is lost on the way; the cap cuts the end of the queue; the fact builder holds the top four ranks |
| Connecting | `ClusterBootstrap` | over every interleaving of three threads, the outcome stored for what the server answered, its finality, and exactly when a late message can still land on it |
| Permissions | `CapabilityProbes` | every schedule of the probes gives the same scopes; the reported namespace is the first that grants anything |
| Chart upgrades | `HelmUpgrade` | checking all releases at once equals checking each alone |
| Tunnel | `WsConn` | the byte stream over WebSocket frames is exact |

`Ordering` holds what several modules share: options, string and key orders, sorting, counting.

## Where the code falls short of what is said of it

Each of these is stated here for the code as it is, with the exact condition.

- Session revocation. A cookie keeps its expiry in whole seconds and counts through the last of
  them; a revocation ends at an exact instant. A revoked session therefore stays shut out if and
  only if none of its cookies expires in the very second in which the revocation does
  (`RevokedForGoodIff`). A cookie issued in the second before the logout can be in that second
  (`LoginAndLogoutInOneSecond`); one issued a full second earlier never is.
- Sub-only logout tokens. The comment at `internal/auth/oidc.go:461-463` says a 501 keeps the
  identity provider from believing the logout was done. The token's id is recorded before the
  refusal, so a retry of the same token is answered 200 although nothing was revoked, after every
  run on which the collector has not passed the token's expiry; and later the signature check
  turns an expired token away (`SubjectOnlyRetry`).
- Grouping. The comment at `internal/issues/grouping.go:228-233` calls the choice of
  representative deterministic. Rows that tie on its key may still differ in restart count or last
  termination reason, which are copied from the representative: as a function of any rows, grouping
  ignores the order if and only if tied rows agree on them (`OrderIndependent`, `OrderDependent`,
  `EnrichedTopRowsAgreeIff`; `RestartCountsTie` gives two rows). The rows the detectors report do
  not tie so: restart data is set at `internal/k8s/detect.go:502-503` only, once for a pod, and under
  that the whole way from detection to the grouped queue ignores the order (`QueueIgnoresOrder`).
- The dedupe chain. Only the workload pass has a severity gate. The chain keeps the worst severity of
  every subject if and only if each row that evidence replaces leaves one at least as severe that is
  neither replaced nor suppressed (`ChainKeepsWorstIff`), so always when evidence is as severe as
  what it explains (`ChainKeepsWorst`). A pod whose init container cannot pull its image is
  critical (`internal/k8s/health.go:275-279`), and a recent failed mount on the same pod is a
  warning (`internal/k8s/detect_scheduling.go:1044-1051`): only the warning is left
  (`ChainMayLowerWorst`). A subject can be lost too: the termination detector reports a pod without
  its owner (`internal/k8s/detect.go:1400-1439`), the scheduling detectors report it with one, and the
  second row replaces the first (`ChainMayLoseSubject`). No subject is lost if and only if each
  replaced row leaves one of its subject that stays (`ChainKeepsSubjectsIff`, `QueueShowsSubjectsIff`).
- Order of the queue. The comment at `internal/issues/compose.go:101-103` says rows are ordered by last-seen
  time; the code orders them by source and first-seen time (`internal/issues/grouping.go:295-312`), and so
  does the model.
- Whiteouts. One that is read after the file-count limit is ignored, and one that names the root
  empties the tree.
- Reading one file. The reader compares whole paths, looks at no ancestor and knows no file-count
  limit. It disagrees with the tree on a target, other than the root, exactly when the last entry
  past the limit to touch it writes it as a file and the tree does not show it, or whites it out and
  the tree does; or none touches it there and the entries before the limit shadow it, or hold it
  where something above hides it (`ReaderAgreesWithTreeIff`, which covers a deleted root entry). A
  link that a later layer puts in a directory's place hides what was below it (`LinkOverDirectory`),
  and a file past the limit is found and not shown (`WrittenPastTheLimit`).
- Kubeconfig merge. The comment at `internal/k8s/client.go:786-791` relies on published maps never
  being mutated. A merge that takes the fast path writes to them: a reader that captured them sees
  other contents exactly when the overwritten file parses to something new
  (`MergeAndSwitchContext`, `CapturedKeepIff`). The registry is left as it was, so it stays in step
  with the parsed files exactly when the contexts are those known for the file, which are none once
  a refresh has dropped it (`MergeAndSwitchContext`, `OverwriteMatchesIff`); and a later refresh does
  not repair it (`RefreshAfterMerge`).
- Sync progress. The check that the state is still connecting and the store of the message are two
  steps (`internal/k8s/cache.go:299-311`), so a message can land on a status that has left the
  connecting phase; it can exactly when a report is between the two (`LateReportIff`). None of the
  attempt's own reports reaches a connected status (`OwnReportsEndBeforeConnected`).
- Upgrade checks. Two semantic versions are compared as such and any other two as strings
  (`internal/helm/client.go:1426-1443`), which is no order on a mix of both: of three repositories the
  scan can choose an older version than another offers (`MixedVersionsMislead`). It chooses a latest
  one whenever the comparison is an order on the versions it chooses among (`ChoiceMeaning`), as it is
  on semantic ones. With a repository file that lists no repository the single check says that none
  is configured and the batch check that the chart was not found (`SingleEqualsBatch`); the
  wording of two other messages differs as well.

## Assumptions

- Names have no `/`, `|`, NUL or empty segment of their own, so the string keys of the program are
  the tuples they are made of; an issue id is the tuple it is a hash of, without collisions.
- A library sort is `Ordering.Sort`; it is proved sorted and a permutation, and where there are no
  ties any other sort gives the same list.
- File contents, times, answers of the API server, chart indexes, random session ids and the
  comparison of versions are parameters.
- A chart index lists no empty version, as loading one guarantees.

## Model

| member | source | states |
|---|---|---|
| Lcs.CellBounds | internal/helm/client.go:1039-1047 | every cell of the table bounds the length of all common subsequences of its two prefixes |
| Lcs.FillRow | internal/helm/client.go:1040-1046 | a row is filled from the row above it, and no other row changes |
| Lcs.FillTable | internal/helm/client.go:1033-1047 | the finished table holds the recurrence at every pair of prefixes |
| Lcs.ComputeLcs | internal/helm/client.go:1027-1065 | the result is a common subsequence and no common subsequence is longer |
| UnifiedDiff.LeadingContext | internal/helm/client.go:988-995 | a hunk opens with the at most three old lines before it |
| UnifiedDiff.OpenFollows | internal/helm/client.go:984-996 | leading context copied from the old file only is exact for both files, and the header's starts match it |
| UnifiedDiff.GrowFollows | internal/helm/client.go:997-1000 | a hunk that takes the next line still names exactly its ranges and still continues the diff |
| UnifiedDiff.FlushClosed | internal/helm/client.go:971-977 | when four common lines close a hunk, enough of them are at hand to open the next one exactly |
| UnifiedDiff.TakeCommon | internal/helm/client.go:962-981 | a common line keeps the emitter's invariant, whether or not a hunk is open or full: a hunk ends with its fourth common line in a row and not before |
| UnifiedDiff.TakeChange | internal/helm/client.go:982-1018 | a removed or an added line keeps it too, and opens a hunk with its leading context where none is open |
| UnifiedDiff.Complete | internal/helm/client.go:1022 | with both files read, closing the open hunk makes the hunks a whole diff of the right shape |
| UnifiedDiff.EmitHunks | internal/helm/client.go:961-1023 | for any common subsequence the loop ends, although one path advances nothing, with exact aligned hunks, each with a change, whose changed lines merged with the common ones give back both files; a hunk opens with three context lines unless at the top of the old file, has four in a row only at its end, ends in exactly four unless it reaches the ends of both files, and removes before it adds |
| UnifiedDiff.ComputeUnifiedDiff | internal/helm/client.go:932-1024 | the removed lines number the old file's less a longest common subsequence, the added lines the new file's, there are no hunks exactly when the files are equal, and context is printed around the changes as just said and no further |
| UnifiedDiff.SilentIffEqual | internal/helm/client.go:961-1023 | a diff against a longest common subsequence is empty exactly for equal files |
| UnifiedDiff.PatchYieldsNew | internal/helm/client.go:948-959 | the emitted hunks say what the new file is: copying the old file around them, and context that two of them share once, gives it |
| UnifiedDiff.FlippedPatchYieldsOld | internal/helm/client.go:948-959 | with signs and ranges swapped they take the new file back to the old |
| LayerOverlay.AllReadIff | internal/images/inspector.go:511-515 | nothing is left unread exactly when the limit is not reached before the last entry |
| LayerOverlay.WithParentsAdds | internal/images/inspector.go:597-612 | creating parents adds exactly the missing proper ancestors although the walk stops at the first that exists |
| LayerOverlay.WhiteoutDeletes | internal/images/inspector.go:525-529 | a whiteout deletes the entry it names with what is below it and nothing else; an empty rest or "." names its directory, ".." the one above, and naming the root takes the root entry alone |
| LayerOverlay.WriteAdds | internal/images/inspector.go:532-564 | any other header below the root puts its node at its path and directories above it, and leaves the other entries |
| LayerOverlay.WhiteoutForgets | internal/images/inspector.go:711-720 | the reader forgets its target exactly at a whiteout that names it |
| LayerOverlay.WriteIsFound | internal/images/inspector.go:722-733 | any other header is the content exactly when it is a file or link at the target |
| LayerOverlay.StepClosed | internal/images/inspector.go:524-564 | every write, parent creation and delete keeps the map closed under parents |
| LayerOverlay.FoldClosed | internal/images/inspector.go:488-567 | so does any sequence of entries |
| LayerOverlay.FoldContents | internal/images/inspector.go:488-567 | a path other than the root is in the map exactly when some entry wrote it or a path below it and no later whiteout named it or an ancestor; the root exactly when no whiteout named it |
| LayerOverlay.FoldFile | internal/images/inspector.go:537-563 | a path holds a file or link exactly when the last entry to touch it wrote one, and its node is that entry's |
| LayerOverlay.ReaderFinds | internal/images/inspector.go:683-742 | the reader returns the content of the last file entry for the target that no later whiteout names |
| LayerOverlay.SameEntriesAgreeIff | internal/images/inspector.go:683-742 | on the same entries, reader and map agree on a target exactly when no later entry makes it a directory or deletes one of its ancestors |
| LayerOverlay.ReaderAgreesIff | internal/images/inspector.go:683-742 | the reader of all entries and the map of those before the file-count limit agree on a target exactly when neither an entry past the limit nor shadowing before it separates them |
| LayerOverlay.ReaderAgreesBelowLimitIff | internal/images/inspector.go:511-515 | while the limit is not reached before the last entry, only shadowing separates them |
| LayerOverlay.WrittenPastTheLimit | internal/images/inspector.go:511-515 | a file written past the limit, which the reader finds and the map does not hold |
| LayerOverlay.ReaderContentMatchesNode | internal/images/inspector.go:722-733 | where the map holds a file, its node and the bytes read are of one entry exactly when no entry past the limit touches the target |
| LayerOverlay.FileMap.EnsureParentDirs | internal/images/inspector.go:597-612 | the recursive walk gives the map with the parents added |
| LayerOverlay.FileMap.DeleteFromTree | internal/images/inspector.go:615-623 | deleting while iterating in any order removes exactly the named subtree |
| LayerOverlay.ApplyEntry | internal/images/inspector.go:524-564 | one header changes the map and both counters as the fold says |
| LayerOverlay.BuildFileMap | internal/images/inspector.go:484-567 | the nested loops with their early exit leave the fold of exactly the entries before the limit |
| LayerOverlay.ReadFile | internal/images/inspector.go:678-742 | the loop over layers answers what the reader's fold says, missing when deleted last |
| FileTree.ListingUnique | internal/images/inspector.go:631-639 | a directory has one listing, so siblings are strictly sorted, directories first |
| FileTree.TreeUnique | internal/images/inspector.go:570-593 | there is one tree for a map, whatever order its entries are visited in |
| FileTree.TreeShows | internal/images/inspector.go:570-593 | a tree shows every entry whose ancestors are all directories of the map exactly once, and nothing else |
| FileTree.LinkChildren | internal/images/inspector.go:570-590 | visiting the map in any order links each entry once, to its parent if that is a directory |
| FileTree.SortFileTree | internal/images/inspector.go:626-644 | recursive sorting of the linked children gives the tree of the map |
| FileTree.BuildFilesystemTree | internal/images/inspector.go:473-594 | the whole builder returns the tree of the entries before the limit, their number and size; without the root entry it has no children |
| FileTree.BuiltTreeShows | internal/images/inspector.go:484-593 | a path is shown exactly when some entry wrote it or below it, no later whiteout removed it, and its ancestors are directories of the map |
| FileTree.HasFileIff | internal/images/inspector.go:570-593 | a tree has a file exactly where the map has one that is reachable |
| FileTree.BuiltHasFileIff | internal/images/inspector.go:484-593 | the built tree has a target as a file exactly when the map holds it and nothing above hides it, a deleted root entry included |
| FileTree.ReaderAgreesWithTreeIff | internal/images/inspector.go:683-742 | for any layers, the reader and the tree agree on a target exactly when neither an entry past the limit, nor shadowing, nor something above the target separates them |
| FileTree.LinkOverDirectory | internal/images/inspector.go:546-564 | a link in a directory's place: the file below is in the map and found by the reader, and no tree shows it |
| ContextRegistry.DecimalInjective | internal/k8s/context_registry.go:145-150 | different suffix numbers give different names |
| ContextRegistry.QualifyContextName | internal/k8s/context_registry.go:136-152 | the search without a bound ends with a free name: the plain one, the labelled one, or the least free number from 2 on |
| ContextRegistry.RegisterFile | internal/k8s/context_registry.go:96-102 | registering a file adds exactly its contexts, renames nobody, gives every context its own name or one with the file's label, leaves every plain name taken, and stays injective exactly when none was registered before |
| ContextRegistry.BuildContextRegistry | internal/k8s/context_registry.go:79-105 | the registry holds exactly the contexts of the files that parse, and is a bijection exactly when no file with contexts is listed twice; a plain name goes to the first file that lists the context, and a name is only qualified where the plain one is taken |
| ContextRegistry.FindQualifiedNameForPath | internal/k8s/client.go:1161-1168 | a non-empty answer resolves to the pair asked for, and an empty one means it has no other name |
| ContextRegistry.PickInitialContext | internal/k8s/context_registry.go:163-196 | the current context of the first file that declares a registered one, else some context of the first file with any; fails exactly when no file has one |
| ContextRegistry.BuiltRegistryIsUsable | internal/k8s/context_registry.go:163-196 | a built registry has a context to start in exactly when it is not empty |
| ContextRegistry.ReconcileFile | internal/k8s/context_registry.go:327-360 | rewriting one file drops its dead names, keeps the living under their names and adds what is new, under names that fit |
| ContextRegistry.GroupByFile | internal/k8s/context_registry.go:245-262 | the tracked files are those of the registry and those known by time, each with its names |
| ContextRegistry.RefreshContextRegistry | internal/k8s/context_registry.go:225-363 | a refresh writes to none of its inputs, returns new maps exactly when it reports a change, and leaves registered what each file's presence, time and content say |
| ContextRegistry.RefreshMatches | internal/k8s/context_registry.go:225-363 | a refresh preserves the match between registry and parsed files |
| ContextRegistry.RefreshAgreesWithRebuild | internal/k8s/context_registry.go:225-363 | if equal times mean equal content and every tracked file there parses, the refreshed pairs are those of a rebuild |
| ContextClient.OverwriteMatchesIff | internal/k8s/client.go:1038-1045 | a new parse of one file keeps the registry in step exactly when it has the contexts known for the file, none if the file had been dropped |
| ContextClient.CapturedKeepIff | internal/k8s/client.go:1038-1045 | with what a merge ensures of the maps captured before it, they keep contents and times exactly when nothing new is written |
| ContextClient.OverwriteNotReconciled | internal/k8s/context_registry.go:307-311 | a refresh leaves the entries of a file alone whose time has not moved |
| ContextClient.RefreshAfterMerge | internal/k8s/client.go:1038-1045 | so the registry matches the parsed files after a refresh that follows the fast path exactly when the merge had kept them in step |
| ContextClient.MergeMatches | internal/k8s/client.go:1132-1138 | registering a file nobody refers to neither makes nor breaks the match of registry and parsed files |
| ContextClient.Client.SetupIsolatedLoad | internal/k8s/context_registry.go:28-54 | from distinct paths, start-up fails exactly when no file has a context, and else publishes a bijective registry with plain names for the first files, the files as parsed with their times, and starts in the declared current context of the first file that has one, or some context of the first file with any |
| ContextClient.Client.RefreshAndPublish | internal/k8s/client.go:780-835 | publishing a refresh keeps validity and match, and maps that readers captured keep their contents |
| ContextClient.Client.SwitchTarget | internal/k8s/client.go:874-926 | a target found is a context its file still has, and is what that name alone stands for; while the files say what was parsed, every registered name has one; in single-file mode an empty path has none |
| ContextClient.Client.Overwrite | internal/k8s/client.go:1031-1056 | the exact contents and times cached afterwards, in the maps that were there before; when it succeeds; and when registry and parsed files still match |
| ContextClient.Client.MergeAndSwitchContext | internal/k8s/client.go:1013-1156 | a merge succeeds when the old file can be reused or a new one written and read back, and then returns a name that resolves to it; what paths, contents, times and remembered files are afterwards; no name changes; a failed one publishes nothing; what captured maps hold afterwards; and exactly when the registry still matches the parsed files |
| ContextClient.Client.AddFile | internal/k8s/client.go:1060-1155 | the new-file path keeps bijection and match, appends the file to the paths, records its content, its time and for which context it was written, or changes nothing |
| SessionRevocation.CollectionIsInvisible | internal/auth/revocation.go:85-106 | collecting expired entries changes no later answer |
| SessionRevocation.MemoryRevoker.Revoke | internal/auth/revocation.go:41-46 | sets or replaces one expiry and nothing else |
| SessionRevocation.MemoryRevoker.IsRevoked | internal/auth/revocation.go:50-61 | true exactly for a non-empty id whose expiry is still to come |
| SessionRevocation.MemoryRevoker.SeenJTI | internal/auth/revocation.go:65-76 | true exactly for a recorded id; records a new one, never an empty one, and never moves an expiry |
| SessionRevocation.MemoryRevoker.Gc | internal/auth/revocation.go:85-106 | a tick drops exactly the entries whose expiry has passed |
| SessionRevocation.HandleBackchannelLogout | internal/auth/oidc.go:401-469 | the handler's answer and its effect on the store; a token is refused, with nothing changed, exactly when it lacks the logout event, has a nonce, or names nobody |
| SessionRevocation.LogoutRefuses | internal/auth/oidc.go:408-469 | which tokens get which answer; a refusal changes nothing, and a session that was not revoked is revoked only by a token that has the event and no nonce and names it |
| SessionRevocation.RevokedOnlyByLogout | internal/auth/oidc.go:408-469 | over every run, a session becomes revoked only if such a token was presented for it |
| SessionRevocation.LogoutAnswers | internal/auth/oidc.go:439-469 | a 200 to a new token means the session is revoked at every instant for exactly one lifetime; the answer for any other session never changes; a repeated token changes nothing |
| SessionRevocation.SubjectOnlyRetry | internal/auth/oidc.go:444-467 | over every run, a token without session id is refused with 501 and, retried, answered 200 exactly when it has an id and the collector has not run past its expiry, with nothing revoked |
| SessionRevocation.Authenticate | internal/auth/middleware.go:42-74 | who is let in has a live cookie and no revocation in force, and nobody else is refused; a cookie is issued again exactly in the second half of its life or if it outlives a lifetime, keeps user and session, lasts one lifetime, and is shorter only than one that outlived a lifetime |
| SessionRevocation.ReissueSettles | internal/auth/middleware.go:59-66 | a cookie just issued is not issued again at once |
| SessionRevocation.DeadForGood | internal/auth/middleware.go:42-74 | once every cookie of a session dies before its revocation does, no run lets it in |
| SessionRevocation.RevokedForGoodIff | internal/auth/oidc.go:456-459 | over all runs without reuse of the id, a revoked session stays out exactly when no cookie of it expires in the second its revocation does |
| SessionRevocation.BoundaryRun | pkg/auth/cookie.go:130-134 | otherwise a run lets it in again |
| SessionRevocation.RevokedAfterASecond | pkg/auth/cookie.go:60-66 | cookies issued at least a second before the revocation never are in that second |
| SessionRevocation.LoginAndLogoutInOneSecond | pkg/auth/cookie.go:60-66 | a concrete login, logout and request on which the session returns |
| IssueDedupe.CompactInPlace | internal/issues/dedupe.go:28-35 | the write index never passes the read index, and the front of the array becomes the kept rows in order |
| IssueDedupe.SchedulingDropsIff | internal/issues/dedupe.go:18-36 | a generic pod row goes exactly when a scheduling row names the same pod |
| IssueDedupe.DedupePodSchedulingOverProblem | internal/issues/dedupe.go:18-36 | the pass in place is that filter, also on its early return |
| IssueDedupe.ReferencePassesDropIff | internal/issues/dedupe.go:185-240 | a condition or pending-claim row goes exactly when a missing reference of the same resource and category accounts for it |
| IssueDedupe.DedupeConditionOverMissingRef | internal/issues/dedupe.go:185-203 | the condition pass in place is that filter |
| IssueDedupe.DedupePVCPendingOverMissingRef | internal/issues/dedupe.go:210-228 | the claim pass in place is that filter |
| IssueDedupe.SuppressedIff | internal/issues/dedupe.go:119-135 | a rollup gives way exactly when a child symptom of its subject is at least as severe |
| IssueDedupe.WorstChildren | internal/issues/dedupe.go:97-106 | the map holds the worst child severity of every subject |
| IssueDedupe.SuppressRollups | internal/issues/dedupe.go:117-136 | one pass drops the suppressed rollups and remembers the timing they agree on |
| IssueDedupe.DonateTimings | internal/issues/dedupe.go:137-166 | each kept row takes the donated timing under exactly the guard's conditions |
| IssueDedupe.DedupeWorkloadDegradedOverChild | internal/issues/dedupe.go:96-168 | the whole workload pass in place, also on its early return |
| IssueDedupe.DedupeAll | internal/issues/compose.go:155-158 | the four passes over one array give the chain of the four specifications |
| IssueEvidence.WorkloadKeepsWorst | internal/issues/dedupe.go:96-136 | the workload pass never lowers the worst severity of a subject |
| IssueEvidence.DonatedIs | internal/issues/dedupe.go:117-136 | the donated timing is what the suppressed rollups offer, whatever their order |
| IssueEvidence.DonationIff | internal/issues/dedupe.go:137-166 | a timing is donated exactly to child rows without one when the suppressed rollups of the subject agree on it and, for after-healthy, the row does not cycle through restarts and no row of its subject began at creation |
| IssueEvidence.DonationsAreConsistent | internal/issues/dedupe.go:110-167 | a timing appears only on a child row that had none, is the one all suppressed rollups of the subject agree on, and never says after-healthy beside an at-creation row |
| IssueEvidence.ChainKeepsSubjectsIff | internal/issues/compose.go:155-158 | every subject that had a row still has one after the four passes exactly when each replaced row leaves one of its subject that stays |
| IssueEvidence.ChainKeepsSubjects | internal/issues/compose.go:155-158 | so it has while evidence is about the subject of what it explains |
| IssueEvidence.OwnersAgreeSubjectsAgree | internal/issues/dedupe.go:42-47 | which it is when the rows of one resource share one owner |
| IssueEvidence.ChainMayLoseSubject | internal/issues/dedupe.go:18-36 | two rows of one pod, as two detectors report them, of which the chain loses one's subject |
| IssueEvidence.EvidenceSurvives | internal/issues/category.go:28-71 | scheduling and missing-reference rows, as classified, come through all passes, so what a row is dropped for is never itself dropped |
| IssueEvidence.ChainRowsStay | internal/issues/compose.go:155-158 | every row out of the chain is an input row that no evidence replaces and no child symptom suppresses |
| IssueEvidence.StayingRowsComeThrough | internal/issues/compose.go:155-158 | and every such row comes out, but for its timing |
| IssueEvidence.ChainKeepsWorstIff | internal/issues/compose.go:155-158 | the chain keeps the worst severity of every subject exactly when each replaced row leaves one at least as severe that stays |
| IssueEvidence.ChainKeepsWorst | internal/issues/compose.go:155-158 | it does when evidence is about the subject of what it explains and as severe |
| IssueEvidence.ChainMayLowerWorst | internal/issues/dedupe.go:18-36 | two rows of one pod, as two detectors report them, of which the chain leaves the lesser |
| IssueGrouping.BetterIsWeakOrder | internal/issues/grouping.go:234-249 | being the better representative is irreflexive, asymmetric and splits around any third row: a strict weak order |
| IssueGrouping.PickRepresentative | internal/issues/grouping.go:97-102 | the scan ends on the first row that no row beats |
| IssueGrouping.RepresentativeIsWorstThenNewest | internal/issues/grouping.go:228-249 | the representative is of the worst severity, the newest of those, then the first by its fields, and the earliest of rows that tie |
| IssueGrouping.AgreedDiagnosis | internal/issues/grouping.go:201-221 | a diagnosis is kept exactly when every member has the same one |
| IssueGrouping.AgreedTiming | internal/issues/grouping.go:165-180 | a timing is kept exactly when the members that have one agree, its basis when theirs do |
| IssueGrouping.CollectMembers | internal/issues/grouping.go:141-153 | earliest and latest times over all members, and the members other than the subject |
| IssueGrouping.FoldGroup | internal/issues/grouping.go:96-194 | the folded row: representative's fields, agreed fields, count before truncation, sorted members |
| IssueGrouping.FoldReordered | internal/issues/grouping.go:96-194 | two orders of the same members fold alike exactly when their representatives agree on the copied fields |
| IssueGrouping.QueueTies | internal/issues/grouping.go:295-312 | rows that tie in the queue order have the same id |
| IssueGrouping.GroupIssues | internal/issues/grouping.go:78-89 | visiting the buckets in any order gives one folded row per id, in queue order |
| IssueGrouping.OrderIndependent | internal/issues/grouping.go:78-89 | if tied rows agree on the copied fields, every permutation of the input gives the same list |
| IssueGrouping.OrderDependent | internal/issues/grouping.go:228-249 | if they do not, two orders give different lists |
| IssueGrouping.EnrichedTopRowsAgreeIff | internal/issues/identity.go:22-50 | for rows with derived ids the agreement comes down to the restart count and the last termination reason |
| IssueGrouping.RestartCountsTie | internal/issues/grouping.go:234-249 | two rows that differ in restart count alone group differently in their two orders |
| IssueGrouping.PodRowsAgree | internal/issues/grouping.go:234-249 | with restart data once per pod no such tie arises |
| IssueGrouping.GroupingPartitions | internal/issues/grouping.go:182-187 | the counts and the subject's own rows add up to the input |
| IssueQueue.ApplyClusterScopedAccess | internal/issues/filters.go:30-54 | the rows the caller may read, in order; copied when there is a gate, the same rows otherwise |
| IssueQueue.ReadableRows | internal/issues/filters.go:30-52 | with a gate, a row without a namespace comes out only if the gate allows its kind and group, and every other row does |
| IssueQueue.ApplyFilters | internal/issues/compose.go:175-207 | the rows that match, in order, and how many the caller's expression failed on |
| IssueQueue.ComposeWithStats | internal/issues/compose.go:154-220 | from the rows collected: access gate, passes, grouping, filters; the rows returned are the first of the filtered rows in queue order, for grouped and flat rows, up to the effective limit; the total counts all of them |
| IssueQueue.CapKeepsTheWorst | internal/issues/compose.go:209-219 | every row cut off comes after every row returned and is no more severe |
| IssueQueue.QueueIsLexicographic | internal/issues/grouping.go:295-327 | the queue has critical rows first, then scheduling blockers, missing references, conditions and other problems, then the latest onset, then namespace, name and id |
| IssueQueue.GroupShows | internal/issues/grouping.go:78-89 | every row is behind a grouped row of its id and subject that is at least as severe |
| IssueQueue.QueueShowsEvidence | internal/issues/compose.go:155-172 | every scheduling and missing-reference row is behind a grouped row of its id and subject, at least as severe |
| IssueQueue.QueueShowsSubjectsIff | internal/issues/compose.go:155-172 | dedupe and grouping together show every subject exactly when each replaced row leaves one of its subject that stays |
| IssueQueue.QueueShowsEverySubject | internal/issues/compose.go:155-172 | so they do while evidence is about the subject of what it explains |
| IssueOrder.ChainReordered | internal/issues/compose.go:155-158 | the four passes take permutations of the rows to permutations |
| IssueOrder.QueueIgnoresOrder | internal/issues/compose.go:155-172 | the grouped queue is the same for every order in which the rows were detected |
| DiagnosticFacts.FactBuilder.Add | internal/issues/diagnostic_context.go:248-274 | which fact goes when four are held, and that the held ranks stay the top four of all accepted and the role the highest |
| DiagnosticFacts.FactBuilder.Build | internal/issues/diagnostic_context.go:276-281 | nothing exactly when nothing was accepted; else the role and the at most four facts, all of them accepted ones |
| DiagnosticFacts.Weakest | internal/issues/diagnostic_context.go:257-264 | the scan finds the first of the lowest ranks, when that is below the new one |
| DiagnosticFacts.ReplaceKeepsBest | internal/issues/diagnostic_context.go:268-269 | replacing the weakest keeps the held ranks the best |
| DiagnosticFacts.LeftOutRanksLower | internal/issues/diagnostic_context.go:248-274 | no fact left out outranks one that was kept |
| DiagnosticFacts.HeldRanksIgnoreOrder | internal/issues/diagnostic_context.go:248-274 | the ranks held do not depend on the order of the offers |
| ClusterBootstrap.StepKeepsInv | internal/app/bootstrap.go:219-325 | every step of every thread keeps the invariant |
| ClusterBootstrap.ChannelsCarryAnswers | internal/app/bootstrap.go:400-480 | over every interleaving, the version result is a success exactly when the server's last answer is one, else that answer's failure, or without an answer that of an ended context or a missing client; there are at most two answers, the second only after an error that a retry may cure, and such an error is final only if the context ended; the subsystem result is what that thread finished with |
| ClusterBootstrap.OutcomeIsStored | internal/app/bootstrap.go:276-325 | over every interleaving, on return the stored state is connected exactly when the server's last answer is a success and the subsystems finished with one, else disconnected with the kind of what failed |
| ClusterBootstrap.ConnectedOnlyAtTheEnd | internal/app/bootstrap.go:227-325 | from the attempt's first store on the state is connecting exactly until it returns |
| ClusterBootstrap.MessagesWaitForVersion | internal/app/bootstrap.go:263-274 | no subsystem message is shown before the server has answered the version check with a success |
| ClusterBootstrap.OutcomeIsFinal | internal/app/bootstrap.go:276-297 | no later step of the attempt's threads or of stray reports changes state or error |
| ClusterBootstrap.LateReportIff | internal/k8s/cache.go:293-312 | the returned status can still change, in its message, exactly when a sync report is between its check and its store |
| ClusterBootstrap.OwnReportsEndBeforeConnected | internal/k8s/connection_state.go:62-78 | a connected status carries no message of the attempt's own |
| ClusterBootstrap.AtMostTwoAsks | internal/app/bootstrap.go:400-480 | over every interleaving the version is asked for at most twice, the second time only after an error that a retry may cure |
| ClusterBootstrap.AttemptIsBounded | internal/app/bootstrap.go:219-325 | main and version threads take at most sixteen steps, whatever else happens |
| ClusterBootstrap.Enabled | internal/app/bootstrap.go:276-325 | an attempt that has not returned always has a thread that can go on |
| CapabilityProbes.ProbeKindAccess | internal/k8s/capabilities.go:788-830 | the walk over versions with its early exits gives the specified verdict |
| CapabilityProbes.DiscoveryVerdict | internal/k8s/capabilities.go:788-830 | allowed, refused, doubtful or absent, each exactly when the versions' answers say so |
| CapabilityProbes.PlainVerdict | internal/k8s/capabilities.go:758-778 | a kind that is always there is refused exactly when the server refuses it; not found and other errors leave it allowed with the error noted |
| CapabilityProbes.OutcomeMeaning | internal/k8s/capabilities.go:1063-1135 | the scope is cluster-wide where that is granted, else the first candidate that grants the kind if it was refused and lives in namespaces, else none; a forced kind is asked for in the first candidate alone |
| CapabilityProbes.StepKeepsInv | internal/k8s/capabilities.go:1063-1135 | each goroutine's step keeps its own slot right and no other |
| CapabilityProbes.EveryScheduleAgrees | internal/k8s/capabilities.go:1063-1137 | with one answer for each place, after every complete schedule each kind has the scope it would have alone, and an error is reported exactly when a call met one |
| ProbeAnswers.AnyAnswersAnySchedule | internal/k8s/capabilities.go:1063-1137 | whatever each call is told and in any schedule, a finished kind has the scope that is right for the answers its own calls had, and an error is reported exactly when some call met one |
| ProbeAnswers.GotIsAnswered | internal/k8s/capabilities.go:1063-1137 | those are the answers the schedule had for it, in order, and no other goroutine's |
| ProbeAnswers.RightForIsOutcome | internal/k8s/capabilities.go:1077-1133 | the scope that is right for the answers is the outcome stated for a server with one answer for each place |
| CapabilityProbes.RunGoroutines | internal/k8s/capabilities.go:1063-1137 | the goroutines end under any scheduler, with those outcomes |
| CapabilityProbes.CollectScopes | internal/k8s/capabilities.go:1145-1199 | every kind has one scope and one flag, true exactly when the scope is enabled |
| CapabilityProbes.PickPrimaryNs | internal/k8s/capabilities.go:1000-1022 | the first candidate some kind landed in, else the first candidate |
| CapabilityProbes.PrimaryIsFirstGranting | internal/k8s/capabilities.go:1000-1022 | that is the first candidate that grants any kind refused cluster-wide, although each kind stops at its own first |
| CapabilityProbes.ProbeResourceAccess | internal/k8s/capabilities.go:1043-1216 | the whole prober, forced namespace included |
| CapabilityProbes.MergeScopeCandidates | internal/k8s/capabilities.go:962-990 | the first occurrences up to the cap, and how many names were dropped |
| CapabilityProbes.CandidatesMeaning | internal/k8s/capabilities.go:962-990 | candidates are distinct and named, names are lost only at the cap and then counted, and with room for two the operator's own never |
| HelmUpgrade.BestMatchMeaning | internal/helm/client.go:1290-1298 | the scan finds a latest version among candidates whose URL matches, if the comparison is an order on the candidates' versions |
| HelmUpgrade.ChoiceMeaning | internal/helm/client.go:1265-1303 | repositories that list the installed version come first; among several the chosen one matches a source host, and none that matches is later where their versions are in order; no choice exactly when none can be told apart |
| HelmUpgrade.MixedVersionsMislead | internal/helm/client.go:1426-1443 | three versions the comparison puts in a circle, and the choice of an older one |
| HelmUpgrade.LatestIsLatest | internal/helm/client.go:1827-1834 | the scan of one index finds one of its versions, and none is later |
| HelmUpgrade.ReportMeaning | internal/helm/client.go:1230-1240 | the version reported is one the named repository lists and none it lists is later; an update is available exactly when it lists one later than the installed version |
| HelmUpgrade.TroubleMeaning | internal/helm/client.go:1173-1240 | when each kind of error is reported, in terms of the repositories that list the chart and the installed version; a report with an error offers nothing |
| HelmUpgrade.BestSourceAffinityVersion | internal/helm/client.go:1282-1303 | the loop computes the specified choice among a pool |
| HelmUpgrade.FindBestUpgradeVersion | internal/helm/client.go:1265-1280 | the loop and its tiers compute the specified choice |
| HelmUpgrade.CheckForUpgrade | internal/helm/client.go:1147-1241 | one release's report, errors included |
| HelmUpgrade.MarkCurrentVersion | internal/helm/client.go:1349-1357 | marks a fresh copy exactly where the repository lists the version; the shared base stays as it was |
| HelmUpgrade.TableIndexes | internal/helm/client.go:1811-1846 | the two tables hold every chart's candidates and version lists, whatever order an index is visited in |
| HelmUpgrade.BatchCheckUpgrades | internal/helm/client.go:1746-1873 | the report of every release under its key |
| HelmUpgrade.SingleEqualsBatch | internal/helm/client.go:1190-1241 | single and batch agree on version, repository and update flag for every comparison, and on the kind of error but for an empty repository list |
| HelmUpgrade.ReportsAreSingle | internal/helm/client.go:1848-1872 | each key carries the single check of its last release, and nothing of the others |
| WsConn.Conn.Read | internal/cloud/conn.go:26-49 | what is delivered followed by what is left is what was ahead; empty frames are skipped with a measure that falls; a frame's end is never reported, the stream's only when nothing is left, and a broken connection only by a reader that breaks |
| WsConn.Conn.ReadSeries | internal/cloud/conn.go:26-49 | over any series of reads with any buffer sizes no byte is lost or repeated, and reads enough deliver them all |

## Left out

- Text of hunks, messages and log lines: hunks are data, messages are named cases.
- Tar parsing, corrupt archives, path cleaning and cancellation: layers are lists of entries with cleaned paths; a layer that cannot be opened is an empty one.
- Opaque whiteouts: the program does not implement them.
- The disk cache of layers and its eviction: file-system effects.
- ContextRegistry: the label derived from a kubeconfig's path is a parameter.
- The rest of a context switch after its target is found, and how clients are made from a kubeconfig.
- Authenticate: header authentication, exempt and soft-authenticated paths and sessions without a revoker are not modelled; a signature that does not verify is a request without a cookie.
- HandleBackchannelLogout: starts after the token's signature, issuer, audience and expiry are checked.
- Status callbacks: they are called after the lock is released, so only the stored status is claimed.
- ClusterBootstrap: the error text is replaced by its class, one flag stands for the request's deadline and its cancellation, and other attempts are present only through the reports they left behind.
- CapabilityProbes: a panicking or cancelled probe is not modelled; what is said of the reported namespace takes one answer for each place, as `ProbeAnswers` does not.
- The list of kinds that are probed, the cache of probe results and its lifetimes.
- HelmUpgrade: reading releases, storage namespaces and deriving hosts from a chart's URLs are parameters.
- WsConn: writes, deadlines and closing from this side; a reader that breaks in the middle of a frame is only claimed not to corrupt what was delivered.
- The issue detectors, the other sources of the classifier and the enrichment that offers facts: long and shallow.
- ComposeWithStats: the sources before the access gate are its input, and the diagnostic context that is attached between grouping and filters sets no field that is modelled; the severity and kind filter and the caller's expression are parameters that answer by row.
- MergeAndSwitchContext: that a merge succeeds is promised for a context whose name is not empty.
- Issue ids: collisions of the hash.
- The error ring, header flags, backoff, expression cache and installation mode: they hold little state and no property that spans operations.
