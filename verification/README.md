# run.codes backend: models and proofs

A Dafny 4.11 project that models the parts of the run.codes backend that hold real state,
protocol or arithmetic, and proves properties of them. `dafny verify dfyconfig.toml`
checks everything.

| files | what they model |
|---|---|
| JudgeEvents, Overlay, JudgeReplay, JudgeHub, JudgeSettlement | the judge's event stream: guarded and idempotent writes, replay after any cut, one hub's cursor and broadcasts, and the sweeper that marks commits and closes hubs |
| HubRegistry | the hub registry shared by goroutines, lock by lock |
| Sse | the stream's framing, written and read back |
| Keys, Text | object keys, path cleaning, base names, and the string operations they rest on |
| ObjectReplacer, TestCaseInput, TestCaseRepository | the undo log over an object store, the partial-update merge, and test cases as rows and objects kept in step |
| Sorting, BatchLayout, BatchGroups, BatchArchive, BatchReading, BatchOrder, BatchPaths, BatchPairs, BatchExport, BatchWrapping | the test-case archive: importer, exporter, and what holds between them |
| Limits, OfferingTransfer | execution limits: layered resolution, the frozen snapshot, stored overrides, and their way through an offering archive |
| Gradebook | the grade table in exact arithmetic |
| Cooldown, DeadlineReminders, LimitAlerts | bounded cooldown tables, claimed reminders, and alerts under an advisory lock |
| Wrappers | Option, Result, and "any order" for map iteration |

Code that changes things step by step is imperative here too: classes with the source's
fields, loops with invariants, each proved against a specification. `*` stands for every
choice of the outside world: a failed or ambiguous operation, a cut connection, another
goroutine's step, the order of a map. An operation ends in one of three ways: done,
refused without effect, or done although a failure is reported. A crash is a run in which
everything later is refused.

## Assumptions

- The judge's log has strictly increasing positive sequence numbers; a resume sends only
  later events; `finished` comes last and carries a terminal status. What happens without
  the last point is stated by JudgeReplay.DeliverySettlesIff.
- Each SQL statement, and each transaction at its commit, is one atomic step. Time never
  goes back. Ids from a sequence and the random tokens of backup keys never repeat.
- Database sessions used by a running background job stay alive.
- Strings are sequences of characters that stand for Go's bytes; letters are lower-cased
  in ASCII.

## What turned out not to hold as stated

Each of these comes with the condition under which the property does hold, and most with an input
that shows it fails.

- Replaced keys are not always distinct. ResolveTestCaseInput removes duplicates by base
  name, but the key takes the base name once more, and that is not idempotent: `dir\ b`
  gives " b", which gives "b". (With a slash, the multipart reader would cut the name
  first.) Two such uploads share one key, and then a failed update is not undone exactly,
  and a later update may delete a live object
  (TestCaseInput.ReplacedKeysDistinctIff, TestCaseInput.ClashingUploads,
  ObjectReplacer.UndoIsExactIff, TestCaseRepository.UpdateKeepsObjectsIff).
- A commit that took effect but reported a failure makes CreateTestCase delete the objects
  of a committed row (TestCaseRepository.AmbiguousCreateLosesObjects). One of an update puts
  the old objects back under the new row: the case keeps its objects exactly when every file
  the row names was there before, or shares its key with another new one
  (TestCaseRepository.AmbiguousUpdateKeepsObjectsIff, TestCaseRepository.AmbiguousUpdateLosesNewFile).
- Replace says a failed write leaves the previous object untouched. That holds exactly when
  the write was refused or wrote the same object (ObjectReplacer.ObjectReplacer.Replace);
  otherwise the previous object may be nowhere, and undoing the rest does not bring it back
  (ObjectReplacer.FailedReplaceLosesObject, ObjectReplacer.UnacknowledgedWriteSurvivesUndo).
- Two overlapping updates of one case can lose an object of the later one: exactly when a
  cleanup drops a file the final row names (TestCaseRepository.CaseRepository.OverlappingUpdates,
  TestCaseRepository.OverlapHarmlessIff, TestCaseRepository.OverlapLosesObject).
- A stored verdict is not always the verdict shown. The sweeper may mark the commit between
  two statements of its hub; the verdict's update then changes no row and reports success.
  The row is server_error, with the case results of the events stored before
  (JudgeHub.Hub.Run, JudgeReplay.SweptReplayConverges, JudgeReplay.MarkShowsVerdictIff).
- Nothing ties a release of a cooldown to its own reservation. It frees its own exactly when
  the key was neither released nor granted again in between (Cooldown.LateReleaseIsOwnIff).
  Within the cooldown that is always so (Cooldown.EarlyReleaseIsOwn), and the alerts' send
  timeout of 2 minutes is within their cooldown of 15; a later release can free a newer
  reservation (Cooldown.LateReleaseBreaksSpacing).
- ReplaceExerciseLanguageLimits loads the allowed languages before its transaction; a
  language disallowed in between leaves a forbidden override
  (Limits.ReplaceKeepsOverridesAllowedIff, Limits.StaleValidationStoresForbiddenOverride).
- Wrapping an archive in a folder is not transparent when an ignored root file is too
  large or unreadable, because the first attempt then reads it
  (BatchWrapping.WrappingIsTransparent). Nor is it when an entry name starts with white
  space, or lies in a root __MACOSX folder, unless it is a Finder file
  (BatchWrapping.EntryReadsAlikeIff, BatchWrapping.WrappingIsTransparentIff,
  BatchWrapping.SpacedPairChanges).
- persistFinished accepts a verdict that is not terminal
  (JudgeReplay.DeliverySettlesIff).

Where documentation and code differ, the model follows the code: the comment on the
expanded size says every entry is counted, but macOS metadata is not; mail-throttle.go
speaks of one process, and the tables are per process indeed.

## Model

| member | source | states |
|---|---|---|
| JudgeEvents.CommitStore.PersistEvent | backend/judge/events.go:108-140 | One event changes the tables as its kind says, is skipped without effect when unknown or outside the known values, and a failed write either left no trace or had its whole effect |
| JudgeEvents.CommitStore.PersistStatus | backend/judge/events.go:147-160 | The status changes only while it is not one of the six terminal ones |
| JudgeEvents.CommitStore.PersistCompilation | backend/judge/events.go:163-187 | Compilation fields change only while the commit is not terminal |
| JudgeEvents.CommitStore.PersistArtifact | backend/judge/events.go:190-236 | An artifact row is upserted whatever the commit's status |
| JudgeEvents.CommitStore.PersistCaseResult | backend/judge/events.go:239-296 | A stored case result of an open commit holds each field that was given, cpu time 0, type text, memory 0 or NULL for each that was not; a settled commit and other cases keep theirs |
| JudgeEvents.CommitStore.PersistTimings | backend/judge/events.go:299-367 | Either all phases are stored or none: of each name the last one, with the given source or judge; an unnamed phase or a negative duration rejects them all |
| JudgeEvents.CommitStore.PersistAlert | backend/judge/events.go:370-413 | The first alert of a code stays, with the given severity or warning; a replay changes nothing |
| JudgeEvents.CommitStore.PersistFinished | backend/judge/events.go:416-447 | On an open commit a stored verdict gives its status, its score or 0, its correct count or 0; a nonempty message replaces the stored one and an empty one keeps it; a settled row stays |
| JudgeEvents.CommitStore.MarkServerError | backend/judge/events.go:453-465 | Marks a commit that is not terminal, and leaves a terminal one alone |
| JudgeEvents.VerdictReadsBack | backend/judge/events.go:416-447 | What the row shows after a verdict on an open commit, field by field |
| JudgeEvents.CompilationReadsBack | backend/judge/events.go:163-187 | The compilation columns hold what was given, compiled false when it was not; status and grade stay |
| JudgeEvents.CaseReadsBack | backend/judge/events.go:239-296 | Each given field of a case result is read back, each missing one at its default |
| JudgeEvents.PhasesReadBack | backend/judge/events.go:324-356 | Of several phases of one name the last is read back |
| JudgeEvents.AlertReadsBack | backend/judge/events.go:386-413 | A new alert is read back with its defaults; a known code changes nothing |
| JudgeEvents.StatusReadsBack | backend/judge/events.go:147-160 | A status that is not terminal is stored and changes nothing else, a terminal one is not |
| JudgeReplay.ReplayConverges | backend/judge/events.go:108-447 | Every gap-free delivery of a well-formed log that reaches its end, with any cuts, restarts and repeated or ambiguous writes, leaves the row, case results and artifacts of one pass over the log; timings and alerts too when all were stored |
| JudgeReplay.GuardedConverges | backend/judge/events.go:147-187 | The guarded tables converge: after the first stored verdict later visits change nothing, before it every visit overwrites |
| JudgeReplay.ArtifactsConverge | backend/judge/events.go:190-236 | Artifacts, which no guard protects, converge because the delivery ends on the log's last entry |
| JudgeReplay.SupplementalConverge | backend/judge/events.go:299-413 | Timings and alerts converge when every visit of theirs was stored |
| JudgeReplay.SettledStays | backend/judge/events.go:82-104 | No event and no server-error update changes the row or the case results of a terminal commit |
| JudgeReplay.SettledStaysDelivered | backend/judge/events.go:82-104 | The same over the rest of any delivery |
| JudgeReplay.RowEffect | backend/judge/events.go:147-187 | A guarded statement overwrites exactly its columns while the commit is not terminal |
| JudgeReplay.ResultEffect | backend/judge/events.go:239-296 | A case result overwrites exactly its row, and only the verdict makes a commit terminal |
| JudgeReplay.OpenTablesEffect | backend/judge/events.go:190-236 | Artifacts and timings are overwritten, alerts kept, at any time |
| JudgeReplay.StraightDelivery | backend/judge/events.go:108-140 | Delivering a log once, in order, is applying it |
| JudgeReplay.PassShowsVerdict | backend/judge/events.go:416-447 | One pass over a log on an open commit shows the verdict's status, score, count and messages |
| JudgeReplay.PassShowsCase | backend/judge/events.go:239-296 | And of every case the fields of its last report |
| JudgeReplay.PassShowsArtifact | backend/judge/events.go:190-236 | And of every artifact what its last event gave |
| JudgeReplay.SweptReplayConverges | backend/judge/reconcile.go:53-100 | A complete delivery with a mark of failure in between: the artifacts of one pass; without an effective mark the row and case results of one pass, with one server_error and those of the visits before it |
| JudgeReplay.MarkShowsVerdictIff | backend/judge/events.go:416-465 | After an effective mark the row still shows the verdict's status if and only if that is server_error: any other verdict is reported stored without effect |
| JudgeReplay.SweepLeavesOpenTables | backend/judge/events.go:190-413 | Artifacts, timings and alerts do not depend on a mark |
| JudgeReplay.LateWriteIsHarmlessIff | backend/judge/hub.go:150-158 | A late write of an older hub leaves row, case results and artifacts alone if and only if its artifact is already there and the commit is settled or the cells it writes hold the same |
| Overlay.CompleteDeliveryConverges | backend/judge/hub.go:207-243 | Overwriting writes that may fall back any number of times but never skip forward leave what one pass leaves |
| Overlay.FirstWriteConverges | backend/judge/events.go:370-386 | First-write-wins rows converge under any delivery that visits every entry |
| Overlay.NextWithinReach | backend/judge/hub.go:207-243 | A resuming delivery has visited every entry before the furthest one |
| JudgeHub.Hub.constructor | backend/judge/hub.go:121-142 | A new hub is open, without subscribers, and reads from the start of the log |
| JudgeHub.Hub.Subscribe | backend/judge/hub.go:93-107 | A closed hub takes no subscriber, an open one gets an empty channel |
| JudgeHub.Hub.Broadcast | backend/judge/hub.go:334-350 | Only a handled event is broadcast; every channel with room gets the frame, a full one loses it, and none ever has more than its buffer |
| JudgeHub.Hub.Finish | backend/judge/hub.go:356-376 | Closes the hub and drops every channel, once |
| JudgeHub.Hub.Persist | backend/judge/hub.go:261-299 | A write that is reported done, or had an effect, is recorded as a visit of its entry, with another process free to mark the commit as failed just before it |
| JudgeHub.Hub.PersistTerminalEvent | backend/judge/hub.go:306-328 | Up to three attempts; success means the verdict is stored |
| JudgeHub.Hub.PersistOrdinary | backend/judge/hub.go:261-299 | A failed write of a supplemental event is accepted, any other failure is reported |
| JudgeHub.Hub.HandleOrdinary | backend/judge/hub.go:261-299 | An ordinary event is broadcast only after its write succeeded or it is supplemental |
| JudgeHub.Hub.HandleVerdict | backend/judge/hub.go:261-299 | The hub turns terminal and closes exactly when the verdict was stored |
| JudgeHub.Hub.HandleEvent | backend/judge/hub.go:261-299 | Success means the event was handled and broadcast next; failure leaves the cursor and broadcasts nothing |
| JudgeHub.Hub.Receive | backend/judge/hub.go:207-243 | The cursor only moves past handled events; a frame without an event is passed over |
| JudgeHub.Hub.Stream | backend/judge/hub.go:207-243 | One connection, cut anywhere and interleaved with other goroutines and with processes that mark the commit as failed, keeps the cursor, broadcast and database invariant |
| JudgeHub.Hub.Run | backend/judge/hub.go:165-199 | At most three connections; on return the hub is closed and the verdict was stored, or the context ended, or the commit was given up and is settled if that write worked; a stored verdict means the tables of one pass over the log or, if the commit was marked as failed after some visits, server_error with the row and case results of those visits, artifacts being those of one pass either way; every entry the cursor covers was handled |
| JudgeHub.Hub.SubscriberSeesStoredEvents | backend/judge/hub.go:334-350 | Each subscriber was sent a strictly increasing part of the log, and every frame not supplemental was stored before |
| JudgeHub.Consume | backend/judge/hub.go:85-91 | Over any number of restarts with new hubs from the start of the log, with the sweeper at work between any two statements, a stored verdict means the same |
| JudgeSettlement.SettledForever | backend/judge/reconcile.go:53-100 | Over every interleaving of hubs' events, the server-error update and the sweeper, a terminal commit's row and case results never change again |
| JudgeSettlement.LastUploadWins | backend/judge/events.go:190-236 | At the end of any run an artifact row is what the last action storing it wrote, whether before or after the commit was settled |
| JudgeSettlement.SettledByOneAction | backend/judge/events.go:82-95 | A commit that became terminal did so by exactly one verdict, give-up or sweep, and holds what that action wrote |
| JudgeReplay.DeliverySettlesIff | backend/judge/events.go:416-447 | Any delivery of any log leaves a commit settled if and only if it was settled before or a verdict with a terminal status was stored; the code does not check that status |
| JudgeSettlement.Backend.ReconcileStaleCommits | backend/judge/reconcile.go:53-100 | Only stale compiling or running commits become server errors; after a successful call the open hubs are exactly those open before whose commit was not changed, and the others are unregistered; a failed call closes no hub, even if its update took effect |
| JudgeSettlement.Backend.UpdateStale | backend/judge/reconcile.go:60-97 | Row by row: exactly the ids whose row changed are returned |
| JudgeSettlement.Backend.CloseHub | backend/judge/hub.go:150-158 | The registered hub of the commit is closed, without subscribers, and unregistered; an already closed one is left registered |
| HubRegistry.RegistryIsSafe | backend/judge/hub.go:93-159 | In every interleaving of subscribe, close, CloseHub, broadcast and finish: an open hub is the one registered for its commit, so at most one is open per commit, no channel is sent to or closed after closing, and no subscriber joins a closed hub |
| HubRegistry.NeverDeadlocked | backend/judge/hub.go:356-376 | As long as some goroutine is inside an operation some goroutine can move: the order of hubsMu and a hub's mu cannot deadlock |
| HubRegistry.ClosedStaysClosed | backend/judge/hub.go:356-376 | A closed hub is never reopened |
| HubRegistry.CloseHubCloses | backend/judge/hub.go:150-158 | When CloseHub has returned, every hub the commit had when it began is closed, in every interleaving |
| HubRegistry.FinishCloses | backend/judge/hub.go:356-376 | When finish has returned, its hub is closed and has no subscriber |
| HubRegistry.QuietRegistryHoldsOpenHubs | backend/judge/hub.go:356-376 | Whenever no goroutine is between closing and unregistering, the registry holds exactly the open hubs |
| HubRegistry.CloseDrops | backend/judge/hub.go:113-119 | When Subscription.Close has returned, the hub has the channel no more, for good |
| HubRegistry.ConsumeFindsHub | backend/judge/hub.go:85-143 | Some time before Consume returns the commit has an open hub |
| HubRegistry.SubscribeJoinsHub | backend/judge/hub.go:93-107 | Before Subscribe returns it has added a new channel to a hub of the commit, or found one closed meanwhile |
| HubRegistry.StepKeepsInvariant | backend/judge/hub.go:113-159 | Every single move of a goroutine keeps the invariant |
| HubRegistry.LocksExclude | backend/judge/hub.go:334-376 | Two goroutines are never both inside one lock |
| Sse.ParseSSE | backend/judge/sse.go:28-79 | The frames handed over are those of the lines, in order, up to the first one the handler refuses |
| Sse.FormatSSEFrame | backend/judge/sse.go:81-95 | Writes the lines of one frame; a reader makes exactly that frame of them whenever the stream can carry it |
| Sse.RoundTrip | backend/judge/sse.go:28-95 | Parsing formatted frames with comment lines between any lines gives exactly those frames, for trimmed nonempty event names, positive ids and data without a line feed or final carriage return, within the line limit |
| Sse.FormattedFramesRoundTrip | backend/judge/sse.go:28-95 | The same for the bare concatenation of formatted frames |
| Sse.LastFrameIsRead | backend/judge/sse.go:34-79 | Several data lines are joined by line feeds, empty ones at the front not counted; the last frame is handed over whether or not its blank line came before the stream was cut off |
| Sse.CutLineIsRead | backend/judge/sse.go:49-79 | A stream cut off in front of its last line feed is read as if it were there |
| Sse.ReturnsAreDropped | backend/judge/sse.go:29-51 | A carriage return in front of every line feed changes nothing |
| Sse.LongLineEndsStream | backend/judge/sse.go:29-78 | A line of the limit or more ends the stream: complete frames were handed over, one just begun is not |
| Keys.OutputPathValidExactly | backend/storage/keys.go:106-117 | Accepts exactly the paths whose slash-separated segments are all nonempty and neither . nor .. |
| Keys.OutputKeysDistinct | backend/storage/keys.go:88-98 | Distinct (commit, path) pairs have distinct keys, and a key starts only with its own commit's prefix |
| Keys.ListOutputFiles | backend/storage/storage.go:662-702 | A path is listed if and only if it is valid and its key is stored under the commit |
| Keys.BasenameIsBasename | backend/storage/keys.go:18-25 | A base name is one safe segment without slashes or backslashes |
| Keys.BasenameOfFlatName | backend/storage/keys.go:18-25 | A name without separators is trimmed, and becomes "file" when nothing usable is left |
| Keys.BasenameFixpoint | backend/storage/keys.go:18-25 | Taking the base name again changes exactly the names with white space at an end |
| Keys.BasenameUnderFolder | backend/storage/keys.go:18-25 | With a folder in front, under either slash and with one at the end or not, the last part is the base name |
| Keys.BasenameNotIdempotent | backend/storage/keys.go:18-25 | "dir\\ b" (one backslash, one space) becomes " b", and that becomes "b" |
| Keys.CaseKeysDistinct | backend/storage/keys.go:41-63 | Input, output and extra keys of all cases are distinct, up to the base name of an extra |
| ObjectReplacer.ObjectReplacer.Replace | backend/storage/object-replacer.go:64-92 | Success stores the content and logs what was there; a failed call leaves the previous object untouched if and only if its write was refused or wrote the same object; other live objects never change |
| ObjectReplacer.FailedReplaceLosesObject | backend/storage/object-replacer.go:64-92 | The failing run: the backup is copied, the write takes effect unacknowledged, the backup is removed, and the previous object is nowhere |
| ObjectReplacer.UnacknowledgedWriteSurvivesUndo | backend/storage/object-replacer.go:83-115 | Undoing the rest of the operation does not bring the previous object back |
| ObjectReplacer.ObjectReplacer.BackUp | backend/storage/object-replacer.go:69-81 | An existing object is copied to a key never used before |
| ObjectReplacer.ObjectReplacer.Restore | backend/storage/object-replacer.go:98-115 | With every operation working each key gets back what its last write had found and the backups are gone; whatever fails, no live object of the start is lost |
| ObjectReplacer.ObjectReplacer.Discard | backend/storage/object-replacer.go:120-126 | The backups go, the written objects stay |
| ObjectReplacer.UndoIsExactIff | backend/storage/object-replacer.go:98-115 | Undoing forward restores the store if and only if the last write of every key found the original there |
| ObjectReplacer.DistinctKeysUndoExactly | backend/storage/object-replacer.go:98-115 | Pairwise distinct keys are enough |
| ObjectReplacer.RepeatedKeyIsNotUndone | backend/storage/object-replacer.go:98-115 | Two writes to one new key leave the first content behind |
| ObjectReplacer.UndoneAtKey | backend/storage/object-replacer.go:98-115 | Forward undoing leaves at a key what its last write had found |
| ObjectReplacer.UndoneHasKeyIff | backend/storage/object-replacer.go:98-115 | After undoing, something is at a written key if and only if it was there before or was written twice |
| TestCaseInput.ResolveTestCaseInput | backend/services/test-cases-service.go:110-215 | Refused exactly when a side's type is unknown or has no content of that type, given or stored; otherwise a given type and its content are what the column and the object get, what is left out stays as stored, and of several files with one base name the first is kept |
| TestCaseInput.ResolveSide | backend/services/test-cases-service.go:150-184 | New content becomes the object and the column; missing content is accepted only when stored in the same type |
| TestCaseInput.ResolveKind | backend/services/test-cases-service.go:130-148 | The type is the given one, or the stored one when none is given; any but text and file is refused |
| TestCaseInput.DedupedKeepsFirst | backend/services/test-cases-service.go:196-212 | Of several uploads with one base name the first is kept, and every base name is kept |
| TestCaseInput.DedupeFiles | backend/services/test-cases-service.go:196-212 | The loop with its set of names seen keeps exactly those |
| TestCaseInput.ReplacedKeysDistinctIff | backend/services/test-cases-service.go:196-212 | The replaced keys are pairwise distinct if and only if no two uploads have different base names that are the same key |
| TestCaseInput.TrimmedNamesDoNotClash | backend/services/test-cases-service.go:196-212 | Base names without white space at their ends never clash |
| TestCaseInput.ClashingUploads | backend/services/test-cases-service.go:196-212 | "dir\\ b" (one backslash) and "b" pass the dedupe as two files with one key |
| TestCaseInput.RequestWithoutFiles | backend/services/test-case-repository.go:309-330 | A request without extra files never writes a key twice |
| TestCaseInput.DedupedFilesAre | backend/services/test-cases-service.go:196-212 | The kept files are the first uploads of each base name, under it, and none is missing |
| TestCaseInput.SidesAreStored | backend/services/test-case-repository.go:309-330 | After the writes each side's object is the resolved content, or what was there |
| TestCaseInput.FileIsStored | backend/services/test-case-repository.go:345-368 | And each extra file's object is its upload, unless a later one has the same key |
| TestCaseRepository.CaseRepository.CreateTestCase | backend/services/test-case-repository.go:114-233 | The row appears exactly when the commit took effect, with the fields the request asks for; success stores exactly the uploads, each under its key; a failure cleans them up, even when the failed commit had taken effect |
| TestCaseRepository.CaseRepository.UpdateTestCase | backend/services/test-case-repository.go:239-404 | The row changes exactly when the commit took effect, to what the request and the stored fields ask for; success stores each given content under its key and drops the objects no longer named; with distinct keys a failure whose undo works leaves every object as it was, and an ambiguous commit leaves the writes undone under the new row; other cases keep rows and objects |
| TestCaseRepository.CaseRepository.ReplaceAndCommit | backend/services/test-case-repository.go:307-384 | From the first write to the commit: nothing live is lost on any path |
| TestCaseRepository.CaseRepository.DropOldFiles | backend/services/test-case-repository.go:386-399 | Exactly the objects of the old files the new list does not name are dropped |
| TestCaseRepository.CaseRepository.DeleteTestCase | backend/services/test-case-repository.go:409-449 | Objects are touched only once the row is gone, and only the case's own; a clean deletion leaves none of them |
| TestCaseRepository.DeleteBestEffort | backend/services/test-case-repository.go:487-500 | Only the given keys can disappear |
| TestCaseRepository.UpdateKeepsObjectsIff | backend/services/test-case-repository.go:386-399 | After an update that ran to its end the case has all its objects if and only if no dropped file shares its key with a kept one |
| TestCaseRepository.AmbiguousUpdateKeepsObjectsIff | backend/services/test-case-repository.go:374-381 | After an ambiguous commit of an update, undone cleanly, the case has all its objects if and only if every file the new row names was there before or shares its key with another new file |
| TestCaseRepository.AmbiguousUpdateLosesNewFile | backend/services/test-case-repository.go:374-381 | The failing input: one file new to the case |
| TestCaseRepository.SettledDropsNothing | backend/services/test-case-repository.go:386-399 | Names that are their own base names never make an update drop a live object |
| TestCaseRepository.AmbiguousCreateLosesObjects | backend/services/test-case-repository.go:221-228 | A commit that took effect but reported a failure leaves a row without its objects |
| TestCaseRepository.CaseRepository.OverlappingUpdates | backend/services/test-case-repository.go:239-404 | Two updates of one case, both loaded before either commits, the earlier one cleaning up last: when both succeed the case has all its objects if and only if neither cleanup drops a file the final row names |
| TestCaseRepository.CleanupKeepsObjectsIff | backend/services/test-case-repository.go:386-399 | A cleanup costs a case an object if and only if it drops the key of a file the row names |
| TestCaseRepository.OverlapHarmlessIff | backend/services/test-case-repository.go:386-399 | With settled names: if and only if every file of the final row that was stored at the start is also named by the earlier update |
| TestCaseRepository.OverlapLosesObject | backend/services/test-case-repository.go:386-399 | The failing overlap: the later update names again the file the earlier one dropped |
| TestCaseRepository.AppliedHasObjects | backend/services/test-case-repository.go:307-372 | After the writes every object the new row needs is there |
| TestCaseRepository.WritesStoreContents | backend/services/test-case-repository.go:307-372 | The same once the dropped files' objects are gone |
| TestCaseRepository.OthersKeepTheirObjects | backend/services/test-case-repository.go:114-449 | An operation on one case leaves the objects of every other case |
| TestCaseRepository.Perform | backend/services/test-case-repository.go:114-449 | One edit, with any upload names and failing or crashing anywhere, keeps every committed case's objects if it is harmless, and only then when no cleanup failed; harmless is a condition on the stored files, the request and the outcome of the commit |
| TestCaseRepository.Serve | backend/services/test-case-repository.go:114-449 | After any run of harmless edits every committed case has its input, output and extra objects; the first edit that is not harmless, its cleanups succeeding, costs some case an object; with settled upload names it is enough that no ambiguous commit is of a create or of an update naming a new file |
| TestCaseRepository.UpdateGuarantees | backend/services/test-case-repository.go:239-404 | From what an update did, every outcome: the conditions under which all cases keep their objects, both ways |
| TestCaseRepository.CaseRepository.LoadForUpdate | backend/services/test-case-repository.go:239-270 | What an update has read before its transaction: the resolved request and the stored files of that moment |
| Gradebook.BuildOfferingGradebook | backend/services/grades-service.go:53-195 | Over the maps: each cell with an entry shows its rounded score, count and time, graded zero or not, and each without shows none; rows, per-exercise counts, extremes and averages, and the number of submissions are those of the entries |
| Gradebook.TableIsShown | backend/services/grades-service.go:78-192 | The table, row by row and statistic by statistic, over the entries of the maps |
| Gradebook.AddStudent | backend/services/grades-service.go:89-143 | A student's row shows exactly the student's entries, and every exercise's accumulator is moved on by them |
| Gradebook.Accumulate | backend/services/grades-service.go:113-125 | The in-place update of one accumulator |
| Gradebook.ExerciseStatistics | backend/services/grades-service.go:161-192 | Statistics from an accumulator, with zero and nothing where there is nothing to divide by |
| Gradebook.RowsAgreeWithColumns | backend/services/grades-service.go:78-192 | Scores and submissions counted by rows and by columns are the same totals |
| Gradebook.TotalSubmissionsCountsEveryCell | backend/services/grades-service.go:145-153 | TotalSubmissions is the number of submissions of all cells |
| Gradebook.AverageBetweenExtremes | backend/services/grades-service.go:161-192 | After rounding LowestScore <= AverageSubmitted <= BestScore, and the three are there together or not at all |
| Gradebook.GlobalAverageNearExercises | backend/services/grades-service.go:130-192 | For a nonempty table GlobalAverage is within 0.015 of the mean of the per-exercise averages |
| Gradebook.RoundGradeNearest | backend/services/grades-service.go:336-340 | Rounding gives a hundredth at most half a hundredth away |
| Gradebook.RoundGradeMonotone | backend/services/grades-service.go:336-340 | Rounding keeps the order of grades |
| Gradebook.RoundGradeFixpoints | backend/services/grades-service.go:336-340 | Rounding leaves exactly the hundredths alone |
| Gradebook.RoundHalves | backend/services/grades-service.go:336-340 | A half goes away from zero on both sides |
| Gradebook.SumBetweenExtremes | backend/services/grades-service.go:113-125 | A column's sum lies between its number of submissions times the extremes |
| Cooldown.KeptReservationsAreSpaced | backend/services/mail-throttle.go:44-66 | Over any run two kept reservations of one key are at least a cooldown apart |
| Cooldown.LateReleaseIsOwnIff | backend/alerts/alerts.go:441-456 | A release that comes late frees its own reservation if and only if its key was neither released nor granted again in between |
| Cooldown.EarlyReleaseIsOwn | backend/alerts/alerts.go:441-456 | Within the cooldown, the first release of the key since the reservation always frees its own |
| Cooldown.LateReleaseBreaksSpacing | backend/alerts/alerts.go:441-456 | The failing run: a release beyond the cooldown frees a newer reservation, and the next message goes out at once |
| Cooldown.RecipientThrottle.Reserve | backend/services/mail-throttle.go:68-93 | Succeeds exactly when the key is not empty, has no live reservation and fewer than max keys are live; the table stays within max and stands for the unbounded one |
| Cooldown.RecipientThrottle.Release | backend/services/mail-throttle.go:97-101 | Forgets the key and nothing else |
| Cooldown.RecipientThrottle.SendWithinCooldown | backend/services/mail-throttle.go:131-150 | A message is tried exactly when its key is granted; other requests run before its outcome is known; a failed send then frees the key and reports its error, a suppressed one reports none |
| Cooldown.AlertCooldown.Reserve | backend/alerts/alerts.go:691-717 | The same table for alert codes |
| Cooldown.AlertCooldown.Release | backend/alerts/alerts.go:720-724 | Forgets the code and nothing else |
| Cooldown.AlertCooldown.NotifyAdmins | backend/alerts/alerts.go:431-440 | The goroutine starts exactly when the code is granted, and the code is then reserved |
| Cooldown.AlertCooldown.SendToAdmins | backend/alerts/alerts.go:441-466 | At any later time: the code is freed exactly when no administrator was reached |
| Cooldown.BulletinNotifyGate.Begin | backend/services/bulletin-service.go:77-111 | At most eight deliveries are in flight; a refused slot records no time; a keyed delivery obeys the cooldown and the bounded table |
| Cooldown.BulletinNotifyGate.Done | backend/services/bulletin-service.go:114-116 | Frees one slot |
| Cooldown.Evict | backend/services/mail-throttle.go:80-85 | Sweeping in any order removes exactly the expired reservations |
| DeadlineReminders.SentAtMostOnce | backend/services/deadline-notifier.go:139-186 | In every interleaving of replicas claiming, sending, failing and releasing, each (exercise, student, window) is sent at most once |
| DeadlineReminders.ReleaseRemovesOwnClaim | backend/services/deadline-notifier.go:280-297 | A release removes only the releaser's own claim |
| DeadlineReminders.BucketsComeInOrder | backend/services/deadline-notifier.go:82-93 | A deadline passes from the week window to the final one and never back |
| DeadlineReminders.ReminderDueIff | backend/services/deadline-notifier.go:82-93 | The final reminder is due in the last 259200 seconds, the week's between those and 604800, and none at any other time |
| DeadlineReminders.RunDeadlineReminders | backend/services/deadline-notifier.go:95-195 | With other replicas at work between any two statements, one pass sends only reminders nobody sent before, to a student at most one of an exercise's windows, the one the deadline is in, and each keeps its row under this replica's claim |
| DeadlineReminders.RemindStudents | backend/services/deadline-notifier.go:139-186 | Claim before send, release after a failed send |
| DeadlineReminders.RemindStudent | backend/services/deadline-notifier.go:139-186 | One student: claimed, sent and given back, with other replicas in between; a reminder is sent only if nobody sent it |
| DeadlineReminders.OthersLeaveMyRows | backend/services/deadline-notifier.go:280-297 | No step of another replica removes a row this one inserted |
| DeadlineReminders.NotificationTable.ClaimDeadlineReminder | backend/services/deadline-notifier.go:253-277 | A claim inserts the row if it is not there, and says whether it did |
| DeadlineReminders.NotificationTable.ReleaseDeadlineReminder | backend/services/deadline-notifier.go:280-297 | Deletes exactly that row |
| LimitAlerts.AlertsAreSpaced | backend/services/limit-alert-service.go:117-140 | In every interleaving two alerts for one language and limit, and exercises that are equal, a ghost and its real one or two ghosts of one, are more than a cooldown apart |
| LimitAlerts.OneKeyIffSameMatter | backend/services/limit-alert-service.go:210-240 | Two groups share a cooldown if and only if language and limit are equal and the exercises equal, a ghost and its real one, or two ghosts of one |
| LimitAlerts.RecentlyAlertedIff | backend/services/limit-alert-service.go:210-303 | The check counts exactly the alerts of the same matter within the cooldown |
| LimitAlerts.JobIsExclusive | backend/database/lock.go:21-79 | At most one instance is inside the guarded job |
| LimitAlerts.AlertStore.RaiseLimitAlert | backend/services/limit-alert-service.go:210-303 | One alert is inserted unless the check fails, the insert is refused, or one of the same matter lies within the cooldown; spacing stays |
| LimitAlerts.AlertStore.RaiseLimitAlerts | backend/services/limit-alert-service.go:153-206 | One pass over ghost and real exercises keeps the spacing and never drops an alert |
| LimitAlerts.RunWithBackgroundLock | backend/database/lock.go:21-79 | The job runs only with the lock; afterwards the session holds what it held before or was discarded, and only an acquisition that took effect but reported failure leaves a lock behind |
| LimitAlerts.AdvisoryLock.TryLock | backend/database/lock.go:40-60 | Succeeds only when no other session holds the lock |
| LimitAlerts.AdvisoryLock.Unlock | backend/database/lock.go:62-79 | Gives up one hold, or fails |
| LimitAlerts.StepKeepsInvariant | backend/database/lock.go:21-79 | Every step of an instance keeps: one holder, one owner per session, no recent alert behind a pending insert |
| Limits.ResolveLimits | backend/services/limits-service.go:58-89 | Field by field the last layer with a value wins and names its source |
| Limits.SnapshotEqualsResolution | backend/services/limits-service.go:507-550 | Every covered pair has a row, and a new one is, field by field, the layered resolution for the commit's language |
| Limits.SnapshotRowsIff | backend/services/limits-service.go:507-550 | A row is there afterwards if and only if it was before, or its commit is given and its case belongs to the commit's exercise, a ghost's to its real one |
| Limits.SnapshotRowReads | backend/services/limits-service.go:507-550 | Each field of a new row: the case's override for the language, else its exercise's, else the platform's |
| Limits.UnknownLanguageRunsOnPlatform | backend/services/limits-service.go:495-541 | A commit without a language is frozen with the platform's limits |
| Limits.ListingEqualsSnapshot | backend/services/limits-service.go:225-267 | What is listed for a case and an allowed language is what a submission in it is frozen with |
| Limits.SourcesNameTheLayer | backend/services/limits-service.go:58-89 | Each source names the layer that holds the value |
| Limits.ValidateLanguageLimits | backend/services/limits-service.go:398-431 | Accepts exactly distinct allowed languages with a positive cpu limit and byte limits that are not negative |
| Limits.ReplacedExactly | backend/services/limits-service.go:336-391 | After replacing, an owner has exactly the entries that override something, and other owners are untouched |
| Limits.ReplacedStoresEntries | backend/services/limits-service.go:336-391 | The same over a whole table, entry by entry |
| Limits.InsertLimits | backend/services/limits-service.go:364-391 | The insert loop skips empty entries and fails on a duplicate |
| Limits.LimitStore.ReplaceExerciseLanguageLimits | backend/services/limits-service.go:314-356 | Success leaves exactly the entries that override something, on the exercise that owns the limits, and other owners untouched; rejection means invalid entries |
| Limits.LimitStore.ReplaceTestCaseLanguageLimits | backend/services/limits-service.go:437-461 | The same for one case |
| Limits.LimitStore.UpdateExercise | backend/services/exercises-service.go:410-458 | The allowed languages become exactly the requested ones, and of the owner's and its cases' overrides exactly those for other languages go, together |
| Limits.LimitStore.SnapshotCommitLimits | backend/services/limits-service.go:507-550 | One statement: afterwards there is a row for every given commit and every case of its exercise, a ghost's being those of its real one, and no other new row; each field is the case's override for the language, else the exercise's, else the platform's; old rows stay |
| Limits.LimitStore.TestCaseLanguageLimits | backend/services/limits-service.go:225-267 | Every case with every allowed language, resolved |
| Limits.DedupedIdsKeepAll | backend/services/exercises-service.go:120-131 | Every id once |
| Limits.DedupeIds | backend/services/exercises-service.go:120-131 | The loop with its set of ids seen |
| Limits.OverridesStayAllowed | backend/services/exercises-service.go:410-458 | In every reachable state stored overrides of an exercise that owns its limits, and of its cases, name only allowed languages |
| Limits.SnapshotsNeverChange | backend/services/limits-service.go:495-541 | Later edits and repeated snapshots never change a submission's row while its case exists |
| Limits.ReplaceKeepsOverridesAllowedIff | backend/services/limits-service.go:314-356 | Replacing keeps that invariant if and only if every stored entry is allowed at the time of the write |
| Limits.StaleValidationStoresForbiddenOverride | backend/services/limits-service.go:321-345 | A language disallowed between validation and the write leaves a forbidden override |
| OfferingTransfer.TransferKeepsResolvedLimits | backend/services/offering-transfer-service.go:742-847 | Exporting and importing under other language ids gives every case and language the same resolved limits and sources, zeros included |
| OfferingTransfer.TransferExercise | backend/services/offering-transfer-service.go:742-847 | Export, validation and import run one after the other: a transferable exercise passes validation, and every case, language, platform and field resolves to the same value and source |
| OfferingTransfer.ExportExercise | backend/services/offering-transfer-service.go:742-764 | The rendered exercise: extensions, exercise limits and case limits by extension |
| OfferingTransfer.ArchiveSaysWhatIsStored | backend/services/offering-transfer-service.go:746-764 | The archive says about an extension exactly what is stored for its language |
| OfferingTransfer.ArchiveLimits | backend/services/offering-transfer-service.go:746-764 | The rendering loop |
| OfferingTransfer.ExportedLimitsAreValid | backend/services/offering-transfer-service.go:711-764 | What is exported passes the import's validation |
| OfferingTransfer.ValidateOfferingManifest | backend/services/offering-transfer-service.go:610-703 | Accepts exactly the manifests within the counts whose extensions, limits and file names are valid |
| OfferingTransfer.ValidateArchiveLimits | backend/services/offering-transfer-service.go:711-740 | Accepts exactly distinct allowed extensions, whatever their letter case, with usable values |
| OfferingTransfer.ValidateArchiveFileNames | backend/services/offering-transfer-service.go:849-869 | Accepts exactly plain names, distinct after trimming, and trims them |
| OfferingTransfer.ValidatedKeysDistinct | backend/services/offering-transfer-service.go:849-869 | Validated names keep their base name and give distinct keys |
| OfferingTransfer.ArchiveLimitsByExtension | backend/services/offering-transfer-service.go:817-847 | Fails exactly when some extension is none of the exercise's |
| OfferingTransfer.ValidatedLimitsAlwaysResolve | backend/services/offering-transfer-service.go:811-847 | Validated limits never fail there |
| OfferingTransfer.ArchiveCaseLimits | backend/services/offering-transfer-service.go:772-809 | An old archive's positive values are applied to every language, a new one's by extension |
| OfferingTransfer.ImportTypes | backend/services/offering-transfer-service.go:1065-1086 | Each extension gets the id registered here, or the import fails |
| OfferingTransfer.ImportCase | backend/services/offering-transfer-service.go:1108-1133 | One case's layer is stored under its new id |
| OfferingTransfer.ImportExercise | backend/services/offering-transfer-service.go:1044-1133 | A validated exercise fails only for an unregistered extension or a failed statement; each layer is stored as the archive says, and each case of an old archive with its four values in their own columns for every language |
| BatchLayout.NormalizeArchivePath | backend/services/test-cases-batch-service.go:139-162 | The kept segments, or nothing for an absolute, parent or empty path |
| BatchLayout.ParseIsUnique | backend/services/test-cases-batch-service.go:412-501 | An archive's files determine its cases |
| BatchGroups.AcceptedIffParses | backend/services/test-cases-batch-service.go:412-501 | Checking the groups name by name accepts exactly the files that are 1 to 500 cases with one input and one output each, no clash, and no case both at the root and in a folder |
| BatchGroups.FolderIsCase | backend/services/test-cases-batch-service.go:535-615 | A folder's case has its one input, its one output and exactly the other files as extras |
| BatchGroups.RootPairIsCase | backend/services/test-cases-batch-service.go:477-497 | A root pair is a case without extras |
| BatchArchive.IssueCollector.Add | backend/services/test-cases-batch-service.go:102-117 | A folder joins the order once, a reason is not repeated, nothing is forgotten |
| BatchArchive.RootPairNames | backend/services/test-cases-batch-service.go:505-531 | Root files are paired by base name, and two of a kind are a problem |
| BatchArchive.CheckExtraFolders | backend/services/test-cases-batch-service.go:415-424 | A files/ folder without its case folder is a problem |
| BatchArchive.CollectExtras | backend/services/test-cases-batch-service.go:584-602 | The extras in any map order; a name in both places is a problem |
| BatchArchive.FolderCase | backend/services/test-cases-batch-service.go:535-615 | Fails exactly when the folder has not one input and one output or an extra clashes |
| BatchArchive.NameCase | backend/services/test-cases-batch-service.go:463-498 | One name's case, or the problems with it |
| BatchArchive.TestCases | backend/services/test-cases-batch-service.go:412-501 | Succeeds exactly when reading found no problem and the files are a list of cases, and gives that list, in any map order |
| Sorting.UniqueSorted | backend/services/test-cases-batch-service.go:641-651 | Each name once, in order |
| BatchReading.BatchArchiveRootFolder | backend/services/test-cases-batch-service.go:255-280 | The one folder every case file is in, if there is one |
| BatchReading.BatchArchiveEntries.AddRootEntry | backend/services/test-cases-batch-service.go:389-405 | A case file is kept, anything else is ignored and reported, a bare extension is a problem |
| BatchReading.BatchArchiveEntries.AddEntry | backend/services/test-cases-batch-service.go:357-379 | Each entry goes to its one place |
| BatchReading.ReadBatchArchive | backend/services/test-cases-batch-service.go:302-383 | Succeeds exactly within the entry and size limits, and groups exactly the files of the archive |
| BatchReading.ParseBatchTestCaseArchive | backend/services/test-cases-batch-service.go:211-238 | The archive as written if it parses, else the archive inside its one folder, else an error |
| BatchPairs.RootPair | backend/services/test-cases-batch-service.go:177-185 | Two root files of one plain name with suffixes in and out, in any mixture of upper and lower case, parse as the one case of that name with these contents |
| BatchPairs.FolderPair | backend/services/test-cases-batch-service.go:619-639 | In a folder two such files, of any plain names, are the folder's case |
| BatchPairs.ImportRootPair | backend/services/test-cases-batch-service.go:211-245 | The import of such a root pair, run end to end |
| BatchPairs.OtherNamesAreNoSides | backend/services/test-cases-batch-service.go:619-639 | A file whose name ends in neither suffix, letter by letter, is never an input or an output |
| BatchPairs.CasesHaveNamedSides | backend/services/test-cases-batch-service.go:412-501 | Every parsed case has an input and an output so named |
| BatchReading.ParsedIsUnique | backend/services/test-cases-batch-service.go:211-245 | An archive parses to at most one list of cases and one ignored list |
| BatchOrder.EntryOrderIsIrrelevant | backend/services/test-cases-batch-service.go:302-501 | Permuting the entries gives the same cases and ignored list |
| BatchOrder.NothingIsLost | backend/services/test-cases-batch-service.go:302-531 | After a direct parse every file that is not metadata is an ignored root file or has exactly one use, with its content, in exactly one case |
| BatchOrder.EveryFileIsUsedOnce | backend/services/test-cases-batch-service.go:412-615 | A file is the input, the output or one extra of exactly one case |
| BatchExport.ExportExerciseTestCasesArchive | backend/services/test-cases-batch-service.go:1045-1094 | The entries written |
| BatchExport.ExportParses | backend/services/test-cases-batch-service.go:1045-1094 | An export of 1 to 500 cases within the limits parses as it is and ignores nothing |
| BatchExport.ExportThenImport | backend/services/test-cases-batch-service.go:1045-1094 | Importing it gives back the cases in order with their inputs, outputs and extras |
| BatchExport.ExportAndImport | backend/services/test-cases-batch-service.go:1045-1094 | The round trip as it runs |
| BatchExport.PaddedOrder | backend/services/test-cases-batch-service.go:1045-1046 | Folder numbers below a thousand sort as numbers |
| BatchPaths.WrappedPath | backend/services/test-cases-batch-service.go:139-162 | For any name put under a clean folder: refused exactly when one of its own segments is, and otherwise the folder in front of the segments that count, leading white space kept |
| BatchPaths.InnerPlain | backend/services/test-cases-batch-service.go:139-162 | Without leading white space a name has the same segments below a folder as at the root |
| BatchPaths.InnerSpaced | backend/services/test-cases-batch-service.go:139-162 | With it, the white space is part of the first segment below a folder, or makes a segment of a leading "./" |
| BatchPaths.LeadingSpaceChangesFolder | backend/services/test-cases-batch-service.go:139-162 | A name that starts with white space is in another case folder once wrapped |
| BatchWrapping.WrappingIsTransparent | backend/services/test-cases-batch-service.go:211-280 | A parsed archive whose entries all read alike, under a new folder: the folder is found, inside it the archive parses to the same thing, and the attempt is reached if and only if the ignored root files can be read |
| BatchWrapping.EntryReadsAlikeIff | backend/services/test-cases-batch-service.go:139-172 | Inside the folder an entry is where it was at the root if and only if its name has no leading white space, or is a Finder file anyway, and it is not in a root __MACOSX folder, unless a Finder file |
| BatchWrapping.WrappingIsTransparentIff | backend/services/test-cases-batch-service.go:211-280 | Any parsed archive parses inside a new folder to the same thing if every entry reads alike and, when no two entries name one file there, only if |
| BatchWrapping.SpacedPairChanges | backend/services/test-cases-batch-service.go:139-280 | The failing input: " c/x.in" and " c/x.out" parse as case "c", and wrapped as case " c" |
| BatchWrapping.FolderIsFound | backend/services/test-cases-batch-service.go:255-280 | The folder around any parsed archive is found, whatever the names |
| BatchWrapping.ImportWrapped | backend/services/test-cases-batch-service.go:211-238 | For any parsed archive that once wrapped is not a case as it is: when no two entries name one file, its import gives exactly what the archive gives if and only if every entry reads alike and the ignored root files can be read; the sufficient half needs no such condition |
| BatchWrapping.TwoPairsFail | backend/services/test-cases-batch-service.go:345-381 | Two root pairs, whatever their names, never parse as one wrapped case |
| BatchWrapping.CaseFolderFails | backend/services/test-cases-batch-service.go:345-381 | Nor does a case folder that is not named files |
| BatchOrder.NothingIsInvented | backend/services/test-cases-batch-service.go:463-615 | Every input, output and extra of a parsed archive is the content of an entry in its place |
| BatchExport.ExportSize | backend/services/test-cases-batch-service.go:1045-1094 | An export has two entries for each case and one for each extra, and expands to their bytes |
| BatchExport.OneCaseRoundTrip | backend/services/test-cases-batch-service.go:1081-1088 | One case with an extra named like an input comes back with it |
| BatchExport.WriteCase | backend/services/test-cases-batch-service.go:1045-1093 | One case's entries; an extra that looks like a case file goes to files/ |
| BatchArchive.SortExtras | backend/services/test-cases-batch-service.go:603-605 | The extras in order of name |
| BatchArchive.NamedCases | backend/services/test-cases-batch-service.go:462-500 | Every name's case, as long as every name is in order |
| BatchArchive.SortedKeys | backend/services/test-cases-batch-service.go:506-510 | The keys of a map, collected in any order and sorted |
| BatchReading.ReadAll | backend/services/test-cases-batch-service.go:329-382 | The loop over the entries |
| BatchReading.Record | backend/services/test-cases-batch-service.go:330-379 | One entry: skipped, a problem, too much, or in its group |
| BatchReading.BatchArchiveEntries.ReadEntry | backend/services/test-cases-batch-service.go:670-689 | A file's content, within the size of one file |
| BatchReading.SortedIgnored | backend/services/test-cases-batch-service.go:240-245 | The ignored names, sorted, with repetitions |
| TestCaseInput.ResolveSwitches | backend/services/test-cases-service.go:186-194 | Each switch is the given one, else the stored one, else on |
| TestCaseRepository.CaseRepository.UploadAndCommit | backend/services/test-case-repository.go:162-229 | Uploads in order, then the commit, then what a failure leaves |
| TestCaseRepository.UploadAll | backend/services/test-case-repository.go:162-219 | The uploads so far are exactly the writes so far |
| TestCaseRepository.ReplaceObjects | backend/services/test-case-repository.go:307-372 | The writes before the commit are a prefix of the resolved ones, and all of them on success |
| ObjectReplacer.Bucket.Copy | backend/storage/object-replacer.go:18-28 | Done, refused, or done although a failure is reported; a missing source is refused |
| Gradebook.AddStudents | backend/services/grades-service.go:89-153 | All rows, the sum of their averages, the counts of the summary, and the accumulators of all students |
| Gradebook.CountStudent | backend/services/grades-service.go:145-152 | The summary after one more student |
| Gradebook.ExerciseTable | backend/services/grades-service.go:161-192 | Statistics for every exercise |
| Limits.LimitStore.ShowLanguages | backend/services/limits-service.go:244-263 | One case's listing |
| Limits.StepKeepsInvariant | backend/services/exercises-service.go:410-458 | Each request keeps foreign keys and the allowed-language invariant |
| Limits.StepKeepsSnapshot | backend/services/limits-service.go:507-550 | Each request leaves a snapshot row as it is, unless its case is deleted |
| OfferingTransfer.CollectExtensions | backend/services/offering-transfer-service.go:650-658 | Accepts exactly extensions distinct whatever their letter case |
| OfferingTransfer.ValidateExercise | backend/services/offering-transfer-service.go:650-699 | One exercise of the manifest |
| OfferingTransfer.ValidateCase | backend/services/offering-transfer-service.go:666-691 | One case of the manifest |
| OfferingTransfer.LayerIsStored | backend/services/offering-transfer-service.go:817-847 | Storing a valid layer's entries stores, for every language, what the layer says about its extension |
| OfferingTransfer.LegacyIsStored | backend/services/offering-transfer-service.go:775-806 | Storing an old archive's entries stores its positive values for every language |
| OfferingTransfer.LegacyIsRead | backend/services/offering-transfer-service.go:772-809 | Each of the four values of an old archive is read back from its own column, positive ones only |
| DeadlineReminders.StepKeepsInvariant | backend/services/deadline-notifier.go:139-186 | Every step of a replica keeps: a held claim is the holder's own row and unsent, a sent reminder keeps its row |
| LimitAlerts.AdvisoryLock.Discard | backend/database/lock.go:62-79 | Discarding a connection ends its session and its locks |
| JudgeHub.Hub.Interfere | backend/judge/hub.go:93-159 | What other goroutines and processes do between two steps, the sweeper included, keeps every channel valid and the tables explained by the recorded visits and mark, and never reopens the hub |
| JudgeHub.Hub.Mark | backend/judge/events.go:453-465 | Another process, or the hub giving up, marks the commit: an open commit is recorded as marked now, a settled one is unchanged |
| JudgeHub.StoredVerdictConverges | backend/judge/hub.go:284-299 | What a stored verdict comes to, with or without a mark before it |
| JudgeHub.SettlementShowsVerdict | backend/judge/hub.go:284-299 | Unless the commit was marked as failed, a stored verdict is the status, score and count the judge sent |

## Left out

- JudgeReplay.ReplayConverges: timestamps are not compared, and timings and alerts need their writes to have succeeded, as the hub accepts their loss. Deliveries of two hubs that overlap on one commit are not gap-free when merged; of these the model settles when one late write is harmless (JudgeReplay.LateWriteIsHarmlessIff), what another process's mark does (JudgeReplay.SweptReplayConverges), and settlement (JudgeSettlement).
- JudgeHub.Hub.Run: of other writers only those that mark the commit as failed come between its statements, and they may mark any open commit, which is more than the sweeper does; the clock behind the hub's lifetime and the retry delays are choices, not times; the content of log lines and of the frame bytes is not modelled.
- JudgeEvents.CommitStore.PersistTimings: a phase the database's enum refuses is a failed write.
- HubRegistry.NeverDeadlocked: shows that someone can always move, not that everyone eventually does.
- Sse.RoundTrip: white space is Go's, over characters; the scanner's buffer is a limit on a line's length.
- Keys.ListOutputFiles: the final sort by path, sizes and times.
- TestCaseRepository.Serve: edits of one case do not overlap; TestCaseRepository.CaseRepository.OverlappingUpdates treats two updates that do, both successful, not an update that overlaps a deletion. An edit that is not harmless and whose cleanup fails may or may not cost an object. Cases of migrated installations that lack objects are outside the starting state.
- TestCaseRepository.CaseRepository.UpdateTestCase: permission checks and the limits statement are steps that may fail.
- Limits.OverridesStayAllowed: requests run one after the other; see Limits.StaleValidationStoresForbiddenOverride for what overlapping ones can do. Deleting a language from the catalogue is not modelled.
- Limits.LimitStore.TestCaseLanguageLimits: the order of languages by name, and their names.
- OfferingTransfer.ValidateOfferingManifest: titles, dates and input types, which are short branch conditions; JSON, the upload of files, and the shift of dates.
- Gradebook.BuildOfferingGradebook: floating point; scores are exact reals. Names, emails and titles are left out of the rows.
- Cooldown.RecipientThrottle.SendWithinCooldown: the rest of normalizing the address, and a relay that delivers but reports a failure.
- DeadlineReminders.SentAtMostOnce: a mail that was delivered but reported as failed counts as not sent, and may be sent again.
- LimitAlerts.RunWithBackgroundLock: the branch without a database; an acquisition that took effect but reported failure leaves the lock on a pooled session, which delays later passes without letting two run.
- BatchReading.ParseBatchTestCaseArchive: the zip container, decompression and the size of the upload; an entry that cannot be read is one without content. Which of several errors is reported, and the wording of the reasons.
- BatchWrapping.WrappingIsTransparentIff: an archive with two entries for one file has the sufficient half only; there a moved entry may be replaced by another one of the same content. What an archive gives that, once wrapped, parses as a single case as it is, is stated by BatchReading.ParseBatchTestCaseArchive alone.
- BatchExport.ExportThenImport: reading the stored objects; the export starts from their contents.
- CreateTestCasesBatch stores a parsed batch with CreateTestCase's steps and would repeat its properties.
- HTTP, SQL, S3, Redis, SMTP, WebSocket and JWT plumbing; e-mail, HTML and CSV text; caching; language statistics; sessions, previews, enrollment and membership checks: no hard property.
