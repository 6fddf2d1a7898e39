# agentrec: what an append-only recorder may claim

agentrec records what coding agents do to a working tree: turns with before/after snapshots in an
append-only log, a content-addressed store, and a coordinator that lets a turn be undone under a grant.
This project models the parts of it whose correctness is hard to see by reading one function, and proves
them over every input, every event sequence and every interleaving. One theme runs through all of them:
what a record may honestly say after any run, crash or merge.

| file | what it models |
|---|---|
| `Records.dfy` | content addresses, file entries, turns, reads and writes of the content store |
| `UndoPlan.dfy` | the undo planner and the revert primitive; when an undo succeeds and when undoing it inverts it |
| `UndoLedger.dfy` | the ledger's rows and its two independent readers; the invariant of every reachable ledger |
| `UndoDecisions.dfy` | preview, grant, claim and deny as decisions about a ledger and a disk |
| `UndoProtocol.dfy`, `UndoTheorems.dfy` | the protocol as micro-steps with crashes, I/O faults, edits and a clock; safety over every run |
| `UndoHonesty.dfy` | over every run, undo turns say exactly what the protocol did to the working tree |
| `UndoCoordinator.dfy` | the coordinator as an object updated in place; an execution is a run of micro-steps |
| `UndoPromises.dfy` | over every run, what a preview showed is what its grant lets a claim do |
| `TurnEngineSpec.dfy`, `TurnEngine.dfy` | the turn-boundary engine as functions and as the object that refines them |
| `TurnObservations.dfy`, `TurnHistory.dfy` | what a turn's file list says about its observations; the invariant of every run |
| `TurnTheorems.dfy`, `TurnChronology.dfy` | what every run guarantees, without and with a clock that never runs backwards |
| `TurnOutcomes.dfy` | what each event returns and leaves open, and how each closed turn ended and by whom, over every run |
| `TurnRecording.dfy` | from what the recorder saw to the record of a turn, and which recorded turns an undo can be undone of |
| `RelativePaths.dfy` | the lexical gate on recorded paths |
| `Bisect.dfy`, `BisectReconstruction.dfy` | probe states by reverse application, and the past they reconstruct |
| `BisectSearch.dfy`, `BisectDriver.dfy` | the binary search with unanswerable holes, and the driver around it |
| `RetentionSpec.dfy`, `Retention.dfy` | budget eviction over a content-shared store |
| `Calendar.dfy`, `Decimals.dfy`, `Rfc3339.dfy` | day counts and dates, decimal text, the time-stamp printer and parser |
| `Orders.dfy`, `MemoryFold.dfy`, `MemoryLoad.dfy` | total orders and stable sorting; the memory fold and the recall walk |
| `Pagination.dfy` | ledger search and its cursors |
| `Ulid.dfy` | turn-id encoding |

Shape: code that computes a value is a function with lemmas; code that changes an object (the turn engine,
the undo coordinator, the blob store, the bisect driver) is a class whose methods are proved equal to those
functions, and the promises are proved about the functions over whole runs.

Conventions: SHA-256 is taken to be injective, so an address is modelled by the bytes it addresses. A read
of the store is missing, corrupt, or exactly the bytes. Clocks, ids and tokens are parameters; an id or a
token is fresh where the source draws it from entropy. A turn lookup is a parameter that may be any turn of
the log or none.

## Results that go against the comments

- The retention walk's author equates "over budget" with "some candidate exists". The exact form is that
  the walk meets a turn that does not fit (`RetentionSpec.BoundaryIffOverBudget`); the candidate form has
  one exception, characterised by `RetentionSpec.CandidatesIff` with the witness
  `RetentionSpec.OverBudgetWithoutCandidates`.
- "The latest observation wins" for a file's terminal flags holds inside one turn; a merge keeps the flags
  of the first fragment that observed the file. `TurnChronology.LatestFlagsExactly` says exactly when the
  two agree, and `TurnChronology.LatestDoesNotAlwaysWin` gives a run in which they do not.
- Undoing an undo does not always give the tree back, even with no modified file admitted: a file that was
  deleted in one fragment and restored in the next is recorded as deleted, and is gone after the second undo
  (`TurnRecording.RestoredFileIsNotInverted`). The same happens when the turn that restored it is not merged
  at all, because the recorded content is that of the last observation in any turn
  (`TurnRecording.RestoredByGitIsNotInverted`). The condition, in both directions, is
  `UndoPlan.UndoInvertsUndo` for what a record says, `TurnRecording.RecordedTurnInverts` for what was
  observed over the whole run, and `UndoPlan.UndoOfUndoExactly` for modified files as well.
- A truncated undo turn need not name every file its write phase changed: the file at which the phase was
  interrupted may have changed and is not listed. It is the only one (`UndoHonesty.UndoTurnIsHonest`,
  `UndoHonesty.InterruptionIsLast`).
- Two spellings of one file in the record are two entries of a probe, and the greater spelling is applied
  last: `BisectReconstruction.TwoSpellingsConflict` shows the wrong tree that can come of it, and
  `BisectReconstruction.ProbeReconstructsExactly` says when the tree is right.
- The time-stamp texts sort like times exactly up to the year 9999 (`Rfc3339.TextOrderIsTimeOrder`).
- An empty path filter selects a whole turn, so a claim is exact only because no reachable grant has an
  empty path list (`UndoDecisions.ClaimExactness`, `UndoDecisions.ClaimIsExact`).
- A file operation outside the three known ones skips the planner's snapshot check, so a planned entry can
  fail for want of a snapshot (`UndoPlan.UnknownOperation`, `UndoPlan.PlannedUndoSucceedsExactly`).

## Model

| member | source | states |
|---|---|---|
| UndoPlan.BuildPlan | agentrec-core/src/undo_coordinator.rs:1827-1999 | one plan row per selected entry, in file order; it may write exactly the selected entries that are not barred, a link, withheld or skipped, have their prior snapshot intact where one is needed, and are as the turn left them unless modified files are admitted |
| UndoPlan.ExecutableMembers | agentrec-core/src/undo_coordinator.rs:1827-1999 | the entries a plan may write are exactly the selected ones that the planner classifies as revertible |
| UndoPlan.ClassifiedExactly | agentrec-core/src/undo_coordinator.rs:1827-1999 | each plan row from the entry and the disk alone: revertible exactly when nothing bars the entry, excluded exactly when only a later modification stands in the way, and refused for the first of the true reasons in order of precedence |
| UndoPlan.ExecutableExactly | agentrec-core/src/undo_coordinator.rs:1827-1999 | for every disk, filter and flag no withheld, skipped or linked entry is ever executable, and every selected fit entry is |
| UndoPlan.FailsExactly | agentrec-core/src/undo_coordinator.rs:1674-1740 | why a revert fails: file over 10 MiB, then a barred path or link, then no snapshot, then an unreadable one, each exactly when it is so |
| UndoPlan.OnlyReplacedContentIsStored | agentrec-core/src/undo_coordinator.rs:1674-1798 | an execution, complete or not, stores nothing but what the reverted paths held on disk, and touches no other path |
| UndoPlan.OneRevert | agentrec-core/src/undo_coordinator.rs:1674-1740 | one revert succeeds exactly when the current file can be snapshotted, the write gates pass and the prior content can be read; then it leaves its target, touches no other path, loses no object, stores what was there and describes it in the inverse entry |
| UndoPlan.SucceedsExactly | agentrec-core/src/undo_coordinator.rs:1674-1798 | a list of reverts succeeds if and only if each of them can be made when its turn comes, counting what earlier ones store |
| UndoPlan.RevertsEverything | cli/src/approvecmd.rs:146-276 | an execution without a failure reverts every path, touches no other, and each inverse entry says what its path held |
| UndoPlan.UndoOfUndo | agentrec-core/src/undo_coordinator.rs:1674-1798 | undo then undo of the undo succeeds, restores the tree exactly and keeps every byte string retrievable |
| UndoPlan.UndoOfUndoExactly | agentrec-core/src/undo_coordinator.rs:1674-1798 | undoing a successful undo restores the tree if and only if each entry's operation matches whether its file is on disk and its content fits the store |
| UndoPlan.UndoInvertsUndo | agentrec-core/src/undo_coordinator.rs:1674-1999 | without modified files, for any part of any turn on any disk: undoing a successful undo restores the tree if and only if each executable entry is a delete exactly when it records no content afterwards, and fits the store; then its plan is fully executable and nothing is lost |
| UndoPlan.PlannedUndoSucceedsExactly | agentrec-core/src/undo_coordinator.rs:1674-1999 | executing any plan succeeds if and only if every replaced file fits the snapshot cap and every entry of an unknown operation finds its prior content when its turn comes |
| UndoPlan.UnknownOperation | agentrec-core/src/undo_coordinator.rs:1827-1999 | an entry of an unknown operation whose snapshot is gone is planned and then fails, where a modify would have been refused |
| UndoLedger.LiveAmongMembers | agentrec-core/src/undo_coordinator.rs:1469-1483 | the live reservations are exactly the unreleased, unexpired grant rows |
| UndoLedger.ResolvedRequestMatches | agentrec-core/src/undo_coordinator.rs:960-980 | a resolved reference is a request row of the ledger whose id the reference is a prefix of |
| UndoLedger.ResolvedExactly | agentrec-core/src/undo_coordinator.rs:960-980 | a reference resolves if and only if exactly one position of the ledger holds a request row whose id begins with it; it is unknown with none, and refused as ambiguous, with their number, with two or more |
| UndoLedger.StateExactly | agentrec-core/src/undo_coordinator.rs:1522-1543 | each state of a request from the rows of its id and the clock: execution before denial before failure before recorded expiry before approval, and only then the expiry time |
| UndoLedger.LivenessShrinks | agentrec-core/src/undo_coordinator.rs:1469-1483 | with later time and more rows nothing becomes live again |
| UndoLedger.AppendGrantOk | agentrec-core/src/undo_coordinator.rs:750-812 | a fresh grant that passed the conflict check keeps the ledger invariant, even when the clock moved between check and append |
| UndoLedger.AppendRowOk | agentrec-core/src/undo_coordinator.rs:1295-1307 | a row that resolves or spends its grant for the first time keeps the ledger invariant |
| UndoLedger.ReadersAgree | agentrec-core/src/undo_coordinator.rs:990-1012 | a request is live exactly when its reported state is pending, and a status reports the state, undo turn and reason of one and the same row |
| UndoLedger.OneKind | agentrec-core/src/undo_coordinator.rs:1522-1543 | all terminal rows of one grant are of one kind |
| UndoLedger.RecordedAtMostOnce | agentrec-core/src/undo_coordinator.rs:1037-1059 | execution, denial, failure and spending are each recorded at most once per grant |
| UndoLedger.ResolutionIsFinal | agentrec-core/src/undo_coordinator.rs:1522-1543 | a recorded resolution never changes, whatever is appended later at whatever time |
| UndoDecisions.LodgeChecksConflicts | agentrec-core/src/undo_coordinator.rs:750-812 | a grant is lodged if and only if no live reservation holds one of its paths |
| UndoDecisions.ClaimExactness | agentrec-core/src/undo_coordinator.rs:1156-1262 | a granted claim executes exactly the granted paths if and only if the grant names a path or the turn has nothing to execute |
| UndoDecisions.PreviewExactly | agentrec-core/src/undo_coordinator.rs:533-729 | a preview shows exactly the selected paths that have a fit entry, modified ones only in confirm mode on request, none for an imported turn that cannot be put back; it is refused exactly in off mode or for a path the turn does not name |
| UndoDecisions.ClaimExactly | agentrec-core/src/undo_coordinator.rs:1156-1262 | a claim is granted if and only if every path holds its lodged content, the turn is found, and each path has a fit entry; otherwise the paths that changed, or else those no longer writable, are named, and the `fail` row is exact |
| UndoDecisions.PreviewIsHonoured | agentrec-core/src/undo_coordinator.rs:1156-1262 | a grant of what a preview showed, claimed on the same disk, is granted and executes exactly the previewed paths, in either mode and with modified files admitted or not |
| UndoDecisions.TokenFindsItsGrant | agentrec-core/src/undo_coordinator.rs:1090-1130 | a token leads to the one reservation that was issued with it |
| UndoDecisions.ClaimIsExact | agentrec-core/src/undo_coordinator.rs:1156-1262 | on a reachable ledger a claim executes exactly its non-empty path list, every path still holds its lodged content, and nothing is appended |
| UndoDecisions.StaleClaimReleases | agentrec-core/src/undo_coordinator.rs:1156-1262 | a drift refusal names a real divergence, releases the grant, keeps the invariant, and leaves its paths free to grant again |
| UndoDecisions.SpentTokenStaysSpent | agentrec-core/src/undo_coordinator.rs:1090-1130 | a spent or released token answers `token_consumed` on every longer ledger and appends nothing |
| UndoProtocol.StepKeepsInv | agentrec-core/src/undo_coordinator.rs:84-122 | every micro-step, including a crash anywhere, keeps the protocol invariant |
| UndoProtocol.ReachableInv | agentrec-core/src/undo_coordinator.rs:84-122 | so does every run from a start without grants |
| UndoTheorems.TokenIsSingleUse | agentrec-core/src/undo_coordinator.rs:1090-1150 | over every interleaving two write phases never belong to one token, and each has its spending row durable |
| UndoTheorems.SpentForever | agentrec-core/src/undo_coordinator.rs:1090-1150 | once spent, a token is never claimed again, whatever crashed in between |
| UndoTheorems.ExecutionHasEvidence | cli/src/approvecmd.rs:146-276 | in every durable state an `execute` row has a complete undo turn in the log that lists exactly the granted paths |
| UndoHonesty.UndoTurnIsHonest | cli/src/approvecmd.rs:146-276 | whatever the protocol does to a file at any step of any run, the turn of that write phase lists it with what it held right before and right after, unless the step was interrupted, and then the turn is marked truncated |
| UndoHonesty.InterruptionIsLast | agentrec-core/src/undo_coordinator.rs:1674-1798 | an I/O fault or a crash in the middle of a revert is the last change of its write phase, so at most one file goes unlisted |
| UndoHonesty.UndoTurnInventsNothing | cli/src/approvecmd.rs:146-276 | each entry of a recorded undo turn is a revert the run made in that write phase, of a granted path, with exactly what the path held before and after; a complete turn covers the grant |
| UndoTheorems.LiveGrantsAreDisjoint | agentrec-core/src/undo_coordinator.rs:880-954 | over every run and from then on, two live reservations of either kind hold no common path |
| UndoTheorems.ExecutionIsExclusive | agentrec-core/src/undo_coordinator.rs:1037-1059 | while a grant executes, even past its expiry, no other live reservation holds one of its paths and it is unresolved |
| UndoTheorems.ClaimsCoverTheirGrant | agentrec-core/src/undo_coordinator.rs:1156-1262 | a claim in progress has at least one entry and covers exactly its granted paths |
| UndoTheorems.OnlyGrantedPathsAreWritten | agentrec-core/src/undo_coordinator.rs:704-713 | the protocol changes a file only by a revert, finished or interrupted, of a granted path, after the token (if any) is spent |
| UndoTheorems.RecordedStateNeverChanges | agentrec-core/src/undo_coordinator.rs:1522-1543 | a recorded resolution stays over every continuation of every run |
| UndoTheorems.RestartInventsNoApproval | agentrec-core/src/undo_coordinator.rs:1266-1307 | without a complete undo turn no run, with any crashes, reads a request as executed or approved |
| UndoTheorems.ReadersAgreeOnEveryRun | agentrec-core/src/undo_coordinator.rs:990-1012 | the two readers agree about every request of every run |
| UndoPromises.RequestIsHonoured | agentrec-core/src/undo_coordinator.rs:880-1059 | over every run: a request lodged from a confirm-mode preview, while live and with the disk as it was, is claimed by any reference that names it alone, and the claim covers exactly the previewed paths |
| UndoPromises.TokenIsHonoured | agentrec-core/src/undo_coordinator.rs:750-1150 | over every run: the unspent token of a live auto-mode reservation, with the disk as it was, is claimed and the claim covers exactly the previewed paths |
| UndoCoordinator.Repository.ReservePaths | agentrec-core/src/undo_coordinator.rs:750-812 | refuses exactly a conflict or a missing token and then appends nothing; otherwise appends a reservation with the hashed token, an expiry one minute on, and for each path the address of its bytes on disk, or none if it is absent; the invariant stays |
| UndoCoordinator.Repository.RequestHuman | agentrec-core/src/undo_coordinator.rs:880-954 | lodges exactly the previewed executable paths with an expiry ten minutes on and the address of each path's current bytes, or refuses and leaves the ledger alone |
| UndoCoordinator.Repository.Recheck | agentrec-core/src/undo_coordinator.rs:1156-1262 | content drift, scope drift, then the plan, with the `fail` row a refusal owes |
| UndoCoordinator.Repository.Approve | agentrec-core/src/undo_coordinator.rs:1037-1059 | a reference that names no request or several leaves the ledger as it was; one that names one request claims it while it is open, records a lapse, and refuses any other state by its name |
| UndoCoordinator.Repository.PresentToken | agentrec-core/src/undo_coordinator.rs:1090-1130 | a token nobody was issued is bad, a spent or released one is consumed, a late one expired, and these append nothing; any other is claimed |
| UndoCoordinator.Repository.DenyPending | agentrec-core/src/undo_coordinator.rs:1266-1290 | a reference that names no request or several leaves the ledger as it was; one that names one request denies it while it is open, records a lapse, and refuses any other state by its name |
| UndoCoordinator.Repository.RevertFile | agentrec-core/src/undo_coordinator.rs:1674-1740 | the revert in place, with the same outcome, tree and store as the revert function |
| UndoCoordinator.Repository.ExecuteClaim | cli/src/approvecmd.rs:146-276 | reverts in order, then appends the undo turn field by field (truncated on failure, none if nothing was reverted), then the terminal row field by field |
| UndoCoordinator.ExecutionIsARun | cli/src/approvecmd.rs:146-276 | what an execution leaves behind is what a run of protocol micro-steps leaves behind |
| TurnEngine.Recorder.ObserveChanges | agentrec-core/src/engine.rs:177-220 | opens a turn if needed and absorbs the changes: first observation fixes the original, later ones the terminal flags |
| TurnEngine.Recorder.ObserveGitChange | agentrec-core/src/engine.rs:238-253 | converts a young quiet turn, or closes an old one out of band |
| TurnEngine.Recorder.ObserveStart | agentrec-core/src/engine.rs:265-293 | closes what is open on its own terms and opens a bracket |
| TurnEngine.Recorder.ObserveStop | agentrec-core/src/engine.rs:326-405 | closes the bracket of its tool or claims the quiet turn, or ends what is open and records a turn of its own, merging what may be merged; what it returns is pinned by `TurnOutcomes.StopReturnsExactly` |
| TurnEngine.Recorder.FoldRecentBares | agentrec-core/src/engine.rs:463-530 | drains the fragments and merges the eligible ones, oldest first |
| TurnEngine.Recorder.MergeFragments | agentrec-core/src/engine.rs:505-530 | the merge loop computes the ids, the earliest opening and the folded file list |
| TurnEngine.Recorder.Tick | agentrec-core/src/engine.rs:412-447 | drains pending turns, forgets old fragments, closes what has timed out |
| TurnEngine.Recorder.ForceClose | agentrec-core/src/engine.rs:451-461 | closes what is open and leaves the pending turns for the next tick |
| TurnObservations.AbsorbAllKeepsTurnOk | agentrec-core/src/engine.rs:202-220 | a turn's list names each observed path once, with the original of its first and the flags of its last observation |
| TurnObservations.FoldFragmentsOk | agentrec-core/src/engine.rs:505-530 | merging fragments in any order names every path any of them observed exactly once |
| TurnObservations.FoldFragmentsOriginals | agentrec-core/src/engine.rs:505-530 | merging in turn order keeps for each path the earliest original of all of them |
| TurnObservations.FlagsExactly | agentrec-core/src/engine.rs:505-530 | a merged entry has the flags of the latest observation exactly when the turn itself observed the path, at most one fragment did, or the first and the last that did agree |
| TurnHistory.EventKeepsInv | agentrec-core/src/engine.rs:177-461 | every event keeps the engine invariant |
| TurnHistory.PlayKeepsInv | agentrec-core/src/engine.rs:177-461 | so does every event sequence |
| TurnTheorems.EachIdHasOneHome | agentrec-core/src/engine.rs:177-461 | each minted id belongs to exactly one turn: returned, pending or open |
| TurnTheorems.MergedAtMostOnce | agentrec-core/src/engine.rs:463-530 | a merged id is a closed bare turn, merged once in the whole run and never offered again |
| TurnTheorems.NoHistoryLostOrDoubled | agentrec-core/src/engine.rs:177-530 | after dropping superseded turns every observation belongs to exactly one turn, which names its path exactly once |
| TurnTheorems.NoHistoryInvented | agentrec-core/src/engine.rs:177-530 | no turn names a path that was not observed in a turn it stands for |
| TurnTheorems.BareTurnsClaimNothing | agentrec-core/src/engine.rs:326-405 | a bare turn has no tool, prompt, session or merges, and a stop-only turn spans at most the fold window |
| TurnTheorems.BracketAbsorbsNothingEarlier | agentrec-core/src/engine.rs:463-505 | a bracket absorbs no fragment that closed before its start signal |
| TurnOutcomes.StopReturnsExactly | agentrec-core/src/engine.rs:326-405 | what a stop returns from any state: the bracket of the same tool with its own prompt and session first, or the quiet turn of the last fifteen minutes as the stop's own, or what was open ended on its own terms and then a new turn of the stop's |
| TurnOutcomes.StopIsAttributed | agentrec-core/src/engine.rs:326-405 | over every run the last turn that a stop returns is rich, whole and of the stop's tool |
| TurnOutcomes.BracketIsOfItsTool | agentrec-core/src/engine.rs:336-347 | over every run a bracket ended by a stop was started and stopped by the same tool; prompt and session are the start's where it gave them and otherwise that stop's |
| TurnOutcomes.AbandonedBracketIsTruncated | agentrec-core/src/engine.rs:348-401 | over every run a started turn that closed in any other way is a timeout, truncated, merged nothing and keeps the attribution of its start |
| TurnOutcomes.EndIsSaid | agentrec-core/src/engine.rs:177-461 | over every run a closed turn is bare exactly after a quiet window and truncated exactly when a bracket was abandoned |
| TurnOutcomes.TickEndsExactly | agentrec-core/src/engine.rs:412-447 | a tick returns every queued turn, ends the open one exactly when its window (in milliseconds) has passed, a bracket as of its last change, and keeps exactly the fragments of the last fifteen minutes |
| TurnOutcomes.GitChangeExactly | agentrec-core/src/engine.rs:238-253 | a git change takes over a quiet turn of at most twelve seconds, ends an older one at its last change as a queued fragment, and leaves anything else |
| TurnOutcomes.ChangesBegin | agentrec-core/src/engine.rs:177-201 | over every run, changes with nothing open begin a git turn exactly within two seconds of the last git change, and otherwise a quiet one |
| TurnOutcomes.StartExactly | agentrec-core/src/engine.rs:265-293 | a start ends what was open on its own terms and opens a bracket with its attribution |
| TurnOutcomes.ShutdownExactly | agentrec-core/src/engine.rs:451-461 | a shutdown ends the open turn on its own terms and leaves the queue |
| TurnOutcomes.StopMergesExactly | agentrec-core/src/engine.rs:463-530 | over every run the turn a stop completes merges exactly the waiting fragments within fifteen minutes of its end that closed no earlier than the last stop and, for a bracket, than its start; it opens with the earliest of them |
| TurnChronology.MergeKeepsTheTrueOriginal | agentrec-core/src/engine.rs:463-530 | for each path of each closed turn, original and unknown-baseline flag are those of the earliest observation among all it stands for |
| TurnChronology.LatestFlagsExactly | agentrec-core/src/engine.rs:463-530 | the same for each path of each closed turn of every run |
| TurnChronology.LatestDoesNotAlwaysWin | agentrec-core/src/engine.rs:517-522 | a run whose merged record says a file is gone while its latest observation says it is there |
| TurnChronology.FragmentsDoNotOverlap | agentrec-core/src/engine.rs:412-447 | the fragments waiting to be merged follow one another and precede the open turn |
| TurnChronology.GitTurnsAreNearAGitChange | agentrec-core/src/engine.rs:177-253 | each git turn opened within the settle and quiet windows around some observed git change |
| TurnRecording.StagedIsLast | cli/src/daemon.rs:1306-1442 | for a path not marked as a link, the staged content is missing exactly when the last observation of the path, in any turn, found it gone, secret or unreadable |
| TurnRecording.EntryExactly | cli/src/daemon.rs:1306-1499 | over every run, each field of a recorded entry from what was seen: operation, withheld and skipped from the last look of the turn that holds the path, content from the last look of any turn, the link mark from the last look that saw anything, a creation exactly when nothing was there before |
| TurnRecording.MarkedExactly | cli/src/daemon.rs:1432-1444 | a path is marked as a link exactly when the last thing seen there was one, gone since or not |
| TurnRecording.SkipReasonSays | cli/src/daemon.rs:1326-1395 | each cause of a skip is told apart, and a secret has none |
| TurnRecording.SecretsAreNeverTouched | cli/src/daemon.rs:1326-1499 | over every run, on any disk and with modified files admitted, no secret, link or uncaptured file of a recorded turn is ever planned for writing; executing the plan leaves every secret alone and stores no secret's bytes |
| TurnRecording.RecordedTurnInverts | cli/src/daemon.rs:1458-1499 | for every turn recorded at the end of any run, undoing a successful undo of it restores the tree if and only if, for each path it wrote, the turn whose flags the record kept saw the file gone exactly when the last observation of the path in any turn captured nothing, and the content fits the store |
| TurnRecording.RestoredFileIsNotInverted | cli/src/daemon.rs:1461-1472 | a run that records a restored file as deleted: its undo and the undo of that succeed, and the file is gone |
| TurnRecording.RestoredByGitIsNotInverted | cli/src/daemon.rs:1458-1472 | a run in which a git turn restores the file and is not merged: the flags are current among the merged turns, and still the file is lost |
| RelativePaths.SafeRelativeExactly | agentrec-core/src/bisect.rs:232-238 | a path is safe exactly when it is non-empty, not absolute, does not start with a dot piece and has no parent piece |
| RelativePaths.SafeStaysInside | agentrec-core/src/bisect.rs:232-238 | following a safe path from any root never leaves that root, at any step |
| RelativePaths.AbsoluteIgnoresTheRoot | agentrec-core/src/bisect.rs:232-238 | an absolute path is refused, and joining it would ignore the root |
| Bisect.SequenceKeepsOrder | agentrec-core/src/bisect.rs:188-211 | the searched sequence is the ledger at exactly the positions of turns that no turn merged, that were not imported, and that are rich (or bare on demand), each once and in ledger order |
| Bisect.ActionExactly | agentrec-core/src/bisect.rs:244-308 | an entry contributes its undoing exactly when its path is safe, it is no link, not synthesized, skipped or withheld, and it created its file or its prior content is intact; otherwise the reason is the first true one |
| Bisect.AnswerableExactly | agentrec-core/src/bisect.rs:244-308 | a probe is answerable exactly when every entry after its point can be undone in that sense |
| Bisect.BlockedExactly | agentrec-core/src/bisect.rs:244-272 | a report names every blocking entry after the probe point and nothing else, with its turn, path and reason, later turns first and in file order within a turn |
| Bisect.ComputeProbe | agentrec-core/src/bisect.rs:244-272 | answerable exactly when every subtracted entry is; the state is each path's earliest action; otherwise every obstruction in order |
| Bisect.NothingBlocks | agentrec-core/src/bisect.rs:244-272 | no obstruction exactly when every entry answers |
| Bisect.ProbesCompose | agentrec-core/src/bisect.rs:220-272 | probing at i is probing at a later j and then subtracting the turns between |
| Bisect.LaterProbesStayAnswerable | agentrec-core/src/bisect.rs:220-272 | once answerable, every later probe point is answerable |
| Bisect.Materialize | cli/src/bisectcmd.rs:335-355 | applies the edits in path order: the greatest spelling of a place decides, other places stay, and it fails exactly when a write goes through a path that cannot name a file |
| Bisect.EditedIsUnique | cli/src/bisectcmd.rs:335-355 | the edits determine the tree |
| BisectReconstruction.ProbeRestoresEachPath | agentrec-core/src/bisect.rs:244-308 | with unrecorded edits between turns, each touched place gets back what the earliest subtracted turn that touches its greatest spelling found there |
| BisectReconstruction.ProbeKeepsUntouched | agentrec-core/src/bisect.rs:244-308 | a place no subtracted turn touches keeps its current bytes |
| BisectReconstruction.ProbeReconstructsExactly | agentrec-core/src/bisect.rs:220-308 | over faithfully recorded turns an applied probe is the tree after the probe point if and only if the first turn of each place's greatest spelling found what was there after the probe point |
| BisectReconstruction.ProbeReconstructsThePast | agentrec-core/src/bisect.rs:220-308 | in particular when each touched file has one spelling |
| BisectReconstruction.Probe | cli/src/bisectcmd.rs:335-355 | computing and materializing a probe gives every obstruction, a write that cannot be made, or a tree that is the past one exactly under that condition |
| BisectReconstruction.TwoSpellingsConflict | agentrec-core/src/bisect.rs:249-258 | two faithful turns that record one file as `d//f` and `d/f` give a baseline probe that shows the tree between them instead of the one before |
| BisectSearch.Pick | cli/src/bisectcmd.rs:229-239 | the untried point closest to the midpoint, or none exactly when all were tried |
| BisectSearch.PickFrom | cli/src/bisectcmd.rs:229-239 | the same from a given distance, the upper neighbour winning a tie |
| BisectSearch.VerdictIsJustified | cli/src/bisectcmd.rs:170-224 | each point is tried at most once; blame falls on an adjacent good/bad pair; an ambiguous span has only tried, unanswerable points inside |
| BisectSearch.TriesAreBounded | cli/src/bisectcmd.rs:170-224 | however many holes, the tries are at most the points inside the span |
| BisectSearch.SearchIsLogarithmic | cli/src/bisectcmd.rs:170-224 | with every point answerable, at most ceil(log2(hi - lo)) probes and a single culprit |
| BisectSearch.CeilLog2Is | cli/src/bisectcmd.rs:225-229 | the bound is the ceiling of the binary logarithm |
| BisectSearch.CulpritFound | cli/src/bisectcmd.rs:170-224 | with one break point the search names it if and only if both sides of it are known; otherwise it reports a span that contains it |
| BisectSearch.BlameIsNeverWrong | cli/src/bisectcmd.rs:170-224 | a single blamed turn is the break point |
| BisectDriver.Driver.Run | cli/src/bisectcmd.rs:170-224 | the driver's verdict, probes and obstructions are those of the search; if every point can be computed and the command passes before some turn and fails from it on, that turn is named, and with holes the verdict still blames it, alone or in a span |
| BisectDriver.Driver.RunProbe | cli/src/bisectcmd.rs:253-275 | over the exit statuses: good if and only if all runs pass, bad if and only if all fail, flaky if and only if all end and two disagree, failed if and only if one cannot run |
| BisectDriver.Driver.RecordUnanswerable | cli/src/bisectcmd.rs:243-249 | records obstructions that are not on record yet |
| BisectDriver.ObstructionsExactlyOnce | cli/src/bisectcmd.rs:243-249 | every obstruction of every tried point is on record exactly once, and nothing else is |
| BisectDriver.RunsAreBounded | cli/src/bisectcmd.rs:253-275 | the command runs at most once per point and never where the state could not be computed |
| RetentionSpec.KeptIsLongestRunThatFits | agentrec-core/src/retention.rs:79-122 | the kept turns are the longest newest-first run that fits, and at least the newest when there are older ones |
| RetentionSpec.LongestRunIsUnique | agentrec-core/src/retention.rs:79-122 | that characterisation determines how many turns are kept |
| RetentionSpec.BoundaryIffOverBudget | agentrec-core/src/retention.rs:253-300 | the walk meets a turn that does not fit if and only if the managed bytes exceed the budget |
| RetentionSpec.CandidatesIff | agentrec-core/src/retention.rs:253-300 | over budget there is a candidate, except when the newest of several turns is alone over budget and the older ones add nothing |
| RetentionSpec.OverBudgetWithoutCandidates | agentrec-core/src/retention.rs:253-263 | that exception occurs |
| RetentionSpec.LargerBudgetKeepsMore | agentrec-core/src/retention.rs:79-122 | a larger budget keeps at least as many turns |
| RetentionSpec.RemovalKeepsMore | agentrec-core/src/retention.rs:79-122 | removing blobs only makes the rest fit better |
| Retention.KeptAndCandidatesPartition | agentrec-core/src/retention.rs:79-122 | kept and candidate addresses partition everything referenced |
| Retention.TurnSnapshotHashes | agentrec-core/src/retention.rs:303-318 | each address of a turn, once |
| Retention.Walk | agentrec-core/src/retention.rs:79-122 | the loop computes the kept set, the candidates and the boundary |
| Retention.ManagedBytes | agentrec-core/src/retention.rs:286-300 | the bytes of every referenced address, each once |
| Retention.ProtectCandidates | agentrec-core/src/retention.rs:124-138 | the caller's protect-set comes off the candidates and its bytes are reported |
| Retention.SelectVictims | agentrec-core/src/retention.rs:140-156 | the victims are the candidates that nothing spares, each once, with their sizes |
| Retention.BlobStore.PlanEviction | agentrec-core/src/retention.rs:59-163 | the plan lists exactly the unspared candidates and deletes nothing |
| Retention.BlobStore.Execute | agentrec-core/src/retention.rs:173-194 | looks at each victim when its turn comes, deletes it if it is there and untouched since the plan, and tallies the sizes it found, whatever others do to the store in between |
| Retention.BlobStore.EnforceBudget | agentrec-core/src/retention.rs:234-244 | plans, then deletes with anything going on in between; managed bytes before, plus what others added less what they took, equal managed bytes after plus the evicted bytes; undisturbed, it removes exactly the unspared candidates |
| Retention.BytesAreConserved | agentrec-core/src/retention.rs:173-194 | after every deletion of a disturbed pass the bytes are conserved |
| Retention.NothingSparedIsRemoved | agentrec-core/src/retention.rs:165-194 | nothing that was kept, a prompt, protected or touched at the plan, or touched by the time of its deletion, is ever deleted, whatever others do between |
| Retention.ExpendableIsRemoved | agentrec-core/src/retention.rs:173-194 | each blob that nothing spared at the plan has exactly one turn, and goes then if it is still there and untouched |
| Retention.ResultIsBounded | agentrec-core/src/retention.rs:196-233 | the result is at most the budget or the newest turn, plus the spared bytes |
| Retention.SecondPassRemovesNothing | agentrec-core/src/retention.rs:234-244 | a second pass under the same protections removes nothing |
| Retention.LargerBudgetEvictsLess | agentrec-core/src/retention.rs:79-122 | a larger budget never evicts more |
| Calendar.CivilIsValid | agentrec-core/src/time.rs:15-26 | every day count prints a date that exists |
| Calendar.DaysOfCivil | agentrec-core/src/stats.rs:263-271 | the parser's day count undoes the printer's date |
| Calendar.CivilOfDays | agentrec-core/src/time.rs:15-26 | the printer's date undoes the parser's day count, on every date that exists |
| Calendar.CivilIsTheCalendar | agentrec-core/src/time.rs:15-26 | day 0 is 1970-01-01 and each next day is the next Gregorian date |
| Calendar.DatesFollowDays | agentrec-core/src/time.rs:15-26 | dates have the order of their day counts |
| Rfc3339.ParseUndoesPrint | agentrec-core/src/stats.rs:230-261 | parsing the text of any 64-bit time gives that time back |
| Rfc3339.FractionsAreMilliseconds | agentrec-core/src/stats.rs:242-253 | a fraction counts by its first three digits, missing ones being zero and further ones ignored |
| Rfc3339.WholeSeconds | agentrec-core/src/stats.rs:238-253 | without a fraction a text is read as whole seconds |
| Rfc3339.BeforeTheEpoch | agentrec-core/src/stats.rs:254-261 | a time before 1970 is refused |
| Rfc3339.ReadTextHasItsMarks | agentrec-core/src/stats.rs:230-246 | a text that is read has the marks of a date, a time of day and UTC in their places |
| Rfc3339.TextOrderIsTimeOrder | agentrec-core/src/time.rs:5-13 | comparing texts is comparing times up to a bound if and only if the bound is at most the end of the year 9999 |
| Rfc3339.TextOrder | agentrec-core/src/time.rs:5-13 | stamps with four-digit years print in their own order |
| Rfc3339.StampOfInRange | agentrec-core/src/time.rs:5-13 | the printed fields are in range and add up to the time |
| Orders.SortedIsUnique | agentrec-core/src/memory.rs:398-424 | there is one sorted arrangement of a collection under a total order |
| MemoryFold.KeysAreOrdered | agentrec-core/src/memory.rs:271-304 | the sort key is a total order: different keys never tie |
| MemoryFold.FoldForgetsOrder | agentrec-core/src/memory.rs:398-459 | for any permutation of one id's records the fold agrees, up to pin order, ties included |
| MemoryFold.RetractionIsNeverLost | agentrec-core/src/memory.rs:271-278 | the effective time is the latest, and retracted means exactly that a latest record retracts |
| MemoryFold.FactOfLatestAssertion | agentrec-core/src/memory.rs:425-447 | fact and pins are those of a latest record that is not a retraction, a reverification going before an assertion of the same millisecond |
| MemoryLoad.FoldGroup | agentrec-core/src/memory.rs:425-447 | the fold loop over a sorted group computes the fold |
| MemoryLoad.GroupById | agentrec-core/src/memory.rs:398-410 | groups by id, ids in order of first appearance |
| MemoryLoad.IdsByFirstAppearance | agentrec-core/src/memory.rs:398-410 | the loaded ids are, in order, those of the records that no earlier record shares its id with |
| MemoryLoad.LoadEffective | agentrec-core/src/memory.rs:398-459 | one effective memory per id, in order of first appearance |
| MemoryLoad.LoadForgetsOrder | agentrec-core/src/memory.rs:398-459 | for any permutation of the file the same ids load, once each, and agree |
| MemoryLoad.VerifyWalk | agentrec-core/src/memory.rs:768-803 | every hit is fresh, at increasing positions among the first 128, at most k; a fresh candidate among those is missing only after k others; capped exactly when still short with more left |
| Pagination.SearchTurn | agentrec-core/src/search.rs:167-226 | the hits of one turn, an unreadable prompt counted without hiding the other fields |
| Pagination.TurnHitsExactly | agentrec-core/src/search.rs:167-226 | a hit exists for a field if and only if the pattern is found in that field's text: a readable prompt, the tool, the model, or a path; and it says where |
| Pagination.TurnHitsInOrder | agentrec-core/src/search.rs:167-226 | prompt, tool and model give at most one hit each in this order, then each matching file one, in file order |
| Pagination.HitsExactly | agentrec-core/src/search.rs:154-226 | over the whole ledger a hit exists exactly for a match in some field of some turn |
| Pagination.DanglingExactly | agentrec-core/src/search.rs:173-198 | a prompt dangles exactly when its object is gone or does not hold what its address says |
| Pagination.DanglingCountExactly | agentrec-core/src/search.rs:195-197 | the reported count is the number of turns whose prompt dangles |
| Pagination.Search | agentrec-core/src/search.rs:154-274 | the page of the whole hit list, with the dangling count of the whole ledger |
| Pagination.CursorResolves | agentrec-core/src/search.rs:233-266 | a minted cursor leads back to where it was minted, with repeated ids, in this and any longer list |
| Pagination.NthOfCount | agentrec-core/src/search.rs:241-247 | an occurrence number names its position |
| Pagination.PageErrors | agentrec-core/src/search.rs:229-251 | each error exactly: zero size first, then another query's cursor, then an occurrence that does not exist |
| Pagination.FollowingIsExact | agentrec-core/src/search.rs:229-274 | following cursors over a growing ledger never fails, repeats or skips, and ends when the pages catch up |
| Pagination.PagesConcatenateToAllHits | agentrec-core/src/search.rs:229-274 | over an unchanging list the pages concatenate to exactly the list |
| Pagination.AppendsExtendHits | agentrec-core/src/search.rs:167-226 | appended turns extend the hit list when earlier prompts read as before |
| Ulid.UlidWith | agentrec-core/src/id.rs:25-41 | filling the 26 slots by shifts gives the base-32 encoding of time and entropy |
| Ulid.DigitByShift | agentrec-core/src/id.rs:25-41 | each shift and mask picks the right digit |
| Ulid.SymbolsAreReadable | agentrec-core/src/id.rs:25-41 | the 32 symbols are the digits and then the capital letters without I, L, O and U |
| Ulid.UlidOrder | agentrec-core/src/id.rs:25-41 | ids sort like the pair (48-bit time, 80-bit entropy) and are equal only when both are |

## Left out

- Torn ledger rows: an append is a whole row or nothing; JSON framing, unknown fields and fsync are not modelled.
- Containment probing (symlinks, FIFOs, hard links, permissions): a set of refused paths per moment, which the environment may change at any time.
- The filter's path spellings in the planner: a filter entry selects a file by the recorded string.
- `undo --confirm` on the command line: its writes appear as environment edits and recorder appends.
- Turn references: prefix matching and same-revert lookup are one abstract lookup; only request references are resolved by prefix.
- Refusal wording, gap windows and cautions attached to a plan.
- The daemon, the lock file's own implementation and the tool server: one lock holder at a time, with the documented call order.
- Overflow of a 64-bit time plus a window, and of day arithmetic on years near the end of a 64-bit integer: times are unbounded, and the parse of a printed time is proved for all 64-bit times.
- The engine's `emitter_turn` comparison and the crash journal of the open turn.
- The `started`/`ended` texts of turns and hits, and the excerpt around a match: a hit keeps the matched text and span.
- Regular expressions, UTF-8 decoding and scrubbing: a matcher and a decoder are parameters.
- BM25 ranking and the recall deadline: the ranked candidates and their freshness are given.
- Copying the working tree for a probe: the tree is a map of regular files, so skipped special files, the recorder's own directory and a file standing where a directory is needed are not modelled.
- BisectDriver.Driver.Run: scratch-directory failures appear only as a test command that could not run, because both end the search with an error.
- The recorder's baseline: the before-hash and the unknown-baseline flag of an observation are inputs, and a file that came and went unseen is no observation.
- Retention.BlobStore.Execute: the freshness check and the deletion of one blob are one moment; what another process does between those two calls is not modelled.
- Retention.SecondPassRemovesNothing: the second pass uses the same start time, because a blob that was fresh in the first pass may be old in a later one.
- Statistics beyond the date parser, annotate and diff rendering, configuration, the doctor and packaging.
