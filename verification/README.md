# Selection Translate: verification

A model of the resident of Selection Translate and of the libraries it stands on,
with proofs that it keeps what its handlers rely on.  `dafny verify dfyconfig.toml`
checks all of it.

## What is modelled

The resident is one message loop with workers around it.  `Shell` is that system as
one state and a step relation: handlers of the message loop, the extraction worker
behind its one-slot mailbox, one provider worker per job, the event queue, and the
tokens, which are flags named by the attempt or job they were made for.  What native
windows, the gate, the cache and the clock answer is an input of the step that asks,
so every result holds for every answer.  `ShellInvariants` and `ShellRuns` prove what
every step keeps and what holds over whole runs, up to the wrap of 64-bit job ids.
`Resident.ShellState` is the same state as an object whose handlers update its fields;
each handler is proved equal to its step, the entry points keep the invariant, and the
source's asserts and expects are assertions there.  `Presentation` says how the active
job can lose its presentation, and what follows.  `Coordinator`, `Mailbox` and `Popups`
are the parts with their own source files or rules, as classes and methods with their
value specifications.

Around it stand the kernels:

- `Sse`, `ResponseReader`, `ReadBoundaries`: incremental decoding of server-sent events,
  and the reader that decides between streaming and JSON.  Parsing a payload is a parameter.
- `Cache`: the bounded cache with a lifetime, against what its trace should answer.
- `Calendar`, `Timestamps`: day numbers to dates, and the timestamps of history rows.
- `History`, `HistoryWriter`: validation, insertion and pruning of the history table,
  and the worker that batches writes.
- `Normalize`, `Sentence`, `HoverToken`, `Prompt`, `RequestGate`, `ResponseFormat`: the
  text kernels and the gate that uses them.  Character classes beyond whitespace and
  lower-casing are parameters; `HoverToken.Disjoint` and `HoverToken.Solid` name what is
  relied on.
- `Mouse`, `OcrLines`: the hover dwell and the closure of contiguous lines.

A method or class follows each loop and each object of the source; the function it is
proved against carries the theorems.

## Where the code differs from what one would say of it

- Ending a stream trims every trailing CR, pushing strips one
  (`Sse.FinishDiffersFromTwoLineFeeds` gives the exact condition).
- Events after a Done in the same read are still delivered, and JSON that shows itself
  between 64 KiB and 80 KiB is read or rejected by where the reads end; nothing else
  depends on the reads (`ReadBoundaries.BoundaryIndependence`).
- The test for capitals in abbreviations runs on the lower-cased token, so it only finds
  tokens of dots; "U.S." is divided (`Sentence.InitialsDivide`), and
  `Sentence.SentenceIsStable` says when that shows.
- A field value that is itself a heading makes normalisation unstable
  (`ResponseFormat.HeadingValueBreaksIdempotence`), and so does a CR that only the end
  of the response strips (`ResponseFormat.CrsAtTheEndBreakIdempotence`);
  `ResponseFormat.NormalizeIdempotent` gives the exact condition.
- One invalid history entry rejects its whole batch.  A flush waits for every entry
  before it, but its answer speaks of its own batch only
  (`HistoryWriter.TrueAnswerCovers`).
- Setting the hover mode to the value it has ends a dwell without moving the generation
  (`Mouse.GenerationTells`).
- A local error stores an attempt number where a job id belongs.  It claims no job:
  either none is active, or the number is 0 (`ShellInvariants.ShowLocalErrorKeeps`).  But
  with the number 0, as with the profile chooser, the active job loses its presentation:
  its end is dropped, its text is never stored, and it stays active
  (`Presentation.EndAcceptedIff`, `Presentation.RunGetsStuck`).
- With fractions byte order is not always time order (`Timestamps.FractionsSort`).

## Model

| member | source | states |
|---|---|---|
| ShellRuns.HandoffHolds | windows/crates/platform-windows/src/app.rs:1373-1489 | in every world reachable by any interleaving of handlers, extraction worker and streams: the attempt in the pending slot waits in the mailbox, runs with its token unset, or is queued as an event; any other request that has not posted is cancelled or was replaced; no two events, queued or consumed, name one attempt; the head event is consumed exactly when it names the attempt of the slot |
| ShellRuns.LiveSlotMatches | windows/crates/platform-windows/src/app.rs:1747-1762 | for a live slot the attempt number alone decides: the trigger test and the generation test never fail, because every generation bump also cancels |
| ShellRuns.StreamsHold | windows/crates/platform-windows/src/app.rs:1541-1578 | in every reachable world: each cached output is the normalised whole of one finished stream, at most one per job; the history has the same results in the same order; shown text plus queued deltas of a live presentation is everything its worker posted; every stream but the one whose token is held is cancelled or finished |
| ShellRuns.SuccessIsWhole | windows/crates/platform-windows/src/app.rs:2201-2243 | in any reachable world, accepting a successful end of job j: the shown text is the in-order concatenation of every delta j posted, the cache and the history receive its normalised form once, and every other stream ever started is cancelled or finished |
| ShellRuns.AcceptedSuccess | windows/crates/platform-windows/src/app.rs:2201-2243 | the same for one event, from the invariant alone |
| ShellRuns.AllShown | windows/crates/platform-windows/src/app.rs:1562-1576 | when the end of the presented job is at the head of the queue, no delta of that job is still queued |
| ShellRuns.PopupsHold | windows/crates/platform-windows/src/app.rs:2285-2497 | over all runs popup ids are distinct and at most four popups are registered; a surface is staged only when a new popup was forced; the popup it would evict is completed, unpinned, neither source nor active; committing it changes no job, token or stream; the popup to fill is registered afterwards |
| ShellRuns.RunKeeps | windows/crates/platform-windows/src/app.rs:1541-1578 | the invariant behind these results is kept over whole runs, and the job ids grow by at most one a step |
| ShellRuns.NextKeeps | windows/crates/platform-windows/src/composition.rs:119-246 | every single step of message loop, extraction worker or provider worker keeps the invariant |
| ShellRuns.HandleExtractionKeeps | windows/crates/platform-windows/src/app.rs:1764-1862 | consuming or dropping an extraction event keeps the invariant, through chooser, admission and local errors |
| ShellRuns.HandleDeltaKeeps | windows/crates/platform-windows/src/app.rs:1562-1572 | showing or dropping a delta keeps the invariant |
| ShellRuns.HandleFinishedKeeps | windows/crates/platform-windows/src/app.rs:2201-2275 | accepting or dropping an end of stream keeps the invariant, for every result |
| ShellRuns.WorkerKeeps | windows/crates/platform-windows/src/composition.rs:363-399 | taking, stopping, passing the last token check, posting and ending an extraction keep the invariant |
| ShellRuns.StreamKeeps | windows/crates/platform-windows/src/composition.rs:190-246 | posting a delta, ending a stream and setting any stream token at any time keep the invariant |
| ShellRuns.BumpKeeps | windows/crates/platform-windows/src/app.rs:1721-1726 | moving the configuration generation keeps the invariant because it cancels the pending extraction in the same step |
| ShellRuns.ConfigurationKeeps | windows/crates/platform-windows/src/app.rs:1580-1742 | invalid configuration, reload and credential refresh keep the invariant, with or without an open chooser |
| ShellRuns.ReplayKeeps | windows/crates/platform-windows/src/app.rs:2089-2125 | Retry and Prompt keep the invariant |
| ShellRuns.SelectProfileKeeps | windows/crates/platform-windows/src/app.rs:2127-2176 | choosing a profile keeps the invariant, whatever happened since the chooser opened |
| ShellRuns.SetRestKeeps | windows/crates/platform-windows/src/app.rs:1508-1540 | switching rest mode keeps the invariant and closes everything |
| ShellRuns.DismissalsKeep | windows/crates/platform-windows/src/app.rs:987-999 | outside clicks, disabling hover and foreground changes keep the invariant |
| ShellInvariants.RemovePopupQuieter | windows/crates/platform-windows/src/app.rs:945-985 | removing a popup only cancels: it starts nothing, and unless the popup is the active one it leaves the job, its token and its text alone |
| ShellInvariants.EnsureSurfaceEnsures | windows/crates/platform-windows/src/app.rs:2398-2450 | asking for a result surface only cancels, keeps the registry bounded and distinct, and yields a registered popup or a sound staged one |
| ShellInvariants.EnsurePopupEnsures | windows/crates/platform-windows/src/app.rs:2285-2396 | an admission that does not force a new popup is never staged |
| ShellInvariants.CommitStagedKeeps | windows/crates/platform-windows/src/app.rs:2483-2497 | committing a staged popup never reaches the branch that cancels the active job, and registers the staged popup |
| ShellInvariants.CheckedStartStands | windows/crates/platform-windows/src/app.rs:1945-2021 | after a successful coordinator check the start that follows it succeeds, even if finding a surface removed the active popup in between: the expect on the handle cannot fire |
| ShellInvariants.CommitEffect | windows/crates/platform-windows/src/app.rs:2020-2082 | from commit to provider start: the surface is registered, the accepted job survives the eviction, the previous stream is cancelled, and exactly one stream or one cached answer is added |
| ShellInvariants.AdmitKeeps | windows/crates/platform-windows/src/app.rs:1864-2082 | the whole admission keeps the invariant and spends at most one job id, on every path through it |
| ShellInvariants.BeginRequestKeeps | windows/crates/platform-windows/src/app.rs:1373-1450 | starting a request keeps the invariant: a fresh attempt enters the slot and the mailbox together |
| ShellInvariants.ShowLocalErrorKeeps | windows/crates/platform-windows/src/app.rs:2549-2586 | a local error without an active job, or with the number 0, keeps the invariant: it never claims the output of an active job |
| Presentation.PresentationKept | windows/crates/platform-windows/src/app.rs:1373-1397 | while the active job is the presented one, a step parts the two exactly if it is a Manual trigger while the configuration is broken, or an extraction event that opens the profile chooser, and a surface is found without ending the job |
| Presentation.UnpresentedIsLost | windows/crates/platform-windows/src/app.rs:1843-1862 | either step leaves the job active, unpresented and without a stored result |
| Presentation.EndAcceptedIff | windows/crates/platform-windows/src/app.rs:2201-2283 | the end of the active job, at the head of the queue, is accepted exactly if the presentation holds the job's number; otherwise it is dropped and the job stays active; its text is stored exactly if it is accepted as a success with text |
| Presentation.LostForGood | windows/crates/platform-windows/src/app.rs:1541-1578 | over every further run a job that lost its presentation never has its result stored |
| Presentation.RunGetsStuck | windows/crates/platform-windows/src/app.rs:1795-1862 | a run from the start after which a job has streamed its text and its end, both were dropped, the queue is empty, the job is still active, and every hover is ignored |
| Presentation.ManualErrorHidesRetry | windows/crates/platform-windows/src/app.rs:2089-2125 | a retry is admitted while the configuration is broken, and the message of a Manual trigger then loses its job |
| Resident.ShellState.CancelPendingExtraction | windows/crates/platform-windows/src/app.rs:1472-1475 | the fields change exactly as in the step function of the run model |
| Resident.ShellState.CancelInflightWork | windows/crates/platform-windows/src/app.rs:1460-1470 | equals the step function: pending, provider, coordinator and presentation are reset together |
| Resident.ShellState.Remove | windows/crates/platform-windows/src/app.rs:945-985 | equals the step function, with the first matching entry removed and the children orphaned by loops over the registry |
| Resident.ShellState.DismissUnpinnedOutside | windows/crates/platform-windows/src/app.rs:987-999 | equals removing, one by one, all unpinned popups that were not clicked |
| Resident.ShellState.CancelHoverWork | windows/crates/platform-windows/src/app.rs:1491-1502 | equals cancelling a hover extraction and removing every hover popup |
| Resident.ShellState.OnForegroundChanged | windows/crates/platform-windows/src/app.rs:1096-1131 | equals the step function for a foreground change |
| Resident.ShellState.SetRestMode | windows/crates/platform-windows/src/app.rs:1508-1540 | equals the step function; nothing happens when the mode is unchanged |
| Resident.ShellState.Create | windows/crates/platform-windows/src/app.rs:2329-2396 | equals the step function: capacity test, eviction candidate, identity, staged or registered entry |
| Resident.ShellState.Ensure | windows/crates/platform-windows/src/app.rs:2285-2396 | equals the step function, trying destination, last unpinned popup and a new one in this order |
| Resident.ShellState.EnsureResultSurface | windows/crates/platform-windows/src/app.rs:2398-2450 | equals the step function, removing a new popup that is not available |
| Resident.ShellState.CommitPresentedStagedPopup | windows/crates/platform-windows/src/app.rs:2483-2497 | equals the step function; the asserted eviction target is registered |
| Resident.ShellState.ReportError | windows/crates/platform-windows/src/app.rs:2549-2586 | equals the step function for local errors |
| Resident.ShellState.AdmitExtracted | windows/crates/platform-windows/src/app.rs:1864-1947 | equals the step function, with the checks in the source's order |
| Resident.ShellState.AdmitChecked | windows/crates/platform-windows/src/app.rs:1959-2021 | equals the step function; the repeated coordinator check is asserted to succeed |
| Resident.ShellState.CommitAdmission | windows/crates/platform-windows/src/app.rs:2025-2082 | equals the step function; the popup that is filled is asserted to be registered |
| Resident.ShellState.Begin | windows/crates/platform-windows/src/app.rs:1373-1450 | equals the step function for a new request |
| Resident.ShellState.Extract | windows/crates/platform-windows/src/app.rs:1440-1449 | equals the step function: mailbox and slot, or an immediate failure event |
| Resident.ShellState.TakeMatchingPending | windows/crates/platform-windows/src/app.rs:1747-1762 | the slot is emptied exactly when attempt, trigger and generation match |
| Resident.ShellState.OnExtraction | windows/crates/platform-windows/src/app.rs:1764-1862 | equals the step function |
| Resident.ShellState.Offer | windows/crates/platform-windows/src/app.rs:1813-1860 | equals the step function for the profile chooser |
| Resident.ShellState.OnDelta | windows/crates/platform-windows/src/app.rs:1562-1572 | equals the step function |
| Resident.ShellState.OnFinished | windows/crates/platform-windows/src/app.rs:2201-2275 | equals the step function |
| Resident.ShellState.Drain | windows/crates/platform-windows/src/app.rs:1541-1578 | one event of the queue, in order, equals the step function |
| Resident.ShellState.ReplayPopup | windows/crates/platform-windows/src/app.rs:2089-2125 | equals the step function |
| Resident.ShellState.BeginSelectedProfile | windows/crates/platform-windows/src/app.rs:2127-2176 | equals the step function |
| Resident.ShellState.OnInvalidConfig | windows/crates/platform-windows/src/app.rs:1591-1610 | equals the step function |
| Resident.ShellState.OnConfigLoaded | windows/crates/platform-windows/src/app.rs:1626-1696 | equals the step function for a runtime change |
| Resident.ShellState.OnCredentialsChanged | windows/crates/platform-windows/src/app.rs:1721-1742 | equals the step function |
| Popups.NextUnusedPopupId | windows/crates/platform-windows/src/app.rs:931-943 | the loop ends, with an id that is positive, in range and not registered, even across the wrap of the counter |
| Popups.AllocatedUnused | windows/crates/platform-windows/src/app.rs:924-943 | an allocated id is never already registered, for every registry smaller than the id space |
| Popups.OldestEvictable | windows/crates/platform-windows/src/app.rs:1034-1054 | none exactly when every popup is protected; otherwise the evictable popup created first |
| Popups.FindOldestEvictable | windows/crates/platform-windows/src/app.rs:1034-1054 | the scan finds that popup |
| Popups.WithoutKeeps | windows/crates/platform-windows/src/app.rs:968-979 | removal takes out exactly the named id, keeps the others and keeps ids distinct |
| Mailbox.ExtractionMailbox.Submit | windows/crates/platform-windows/src/composition.rs:281-297 | refused only after shutdown; otherwise the request replaces the waiting one and the running token is set |
| Mailbox.ExtractionMailbox.Next | windows/crates/platform-windows/src/composition.rs:299-318 | one turn of the wait loop hands out the waiting request once and remembers its token; after shutdown nothing |
| Mailbox.ExtractionMailbox.Complete | windows/crates/platform-windows/src/composition.rs:320-330 | forgets the active request only if it is the completed one |
| Mailbox.ExtractionMailbox.Cancel | windows/crates/platform-windows/src/composition.rs:343-352 | drops the waiting request and sets the running token |
| Mailbox.ExtractionMailbox.Shutdown | windows/crates/platform-windows/src/composition.rs:332-341 | the same, and nothing is accepted afterwards |
| Coordinator.RunValid | crates/core/src/coordinator.rs:183-316 | under arbitrary calls and outside cancellations, while ids do not wrap: every issued job but the active one is cancelled or was accepted, and accepted ids strictly increase |
| Coordinator.StepKeepsValid | crates/core/src/coordinator.rs:183-316 | each single call keeps that invariant |
| Coordinator.AcceptsOnlyNewest | crates/core/src/coordinator.rs:244-293 | an acceptance is of the newest id, not accepted before and not cancelled; no older id is ever accepted |
| Coordinator.DuplicatesRefused | crates/core/src/coordinator.rs:183-206 | an automatic start is refused as a duplicate exactly when it repeats the last accepted automatic completion within its lifetime |
| Coordinator.CheckedStartSucceeds | crates/core/src/coordinator.rs:148-242 | a successful check stays good through any cancellations before the start |
| Coordinator.Coordinator.TryStart | crates/core/src/coordinator.rs:183-206 | the check in its two parts, without any change of state |
| Coordinator.Coordinator.Start | crates/core/src/coordinator.rs:208-242 | on success the old job's shared flag is set, the new handle has a fresh unset flag and the newest id; on refusal nothing changes |
| Coordinator.Coordinator.Complete | crates/core/src/coordinator.rs:244-276 | accepted, cancelled or stale by the active job and its flag; only acceptance records and clears |
| Coordinator.Coordinator.Finish | crates/core/src/coordinator.rs:278-293 | clears the active job without recording it |
| Coordinator.Coordinator.CancelActive | crates/core/src/coordinator.rs:295-300 | sets the shared flag and clears the job |
| Coordinator.Coordinator.IsCurrent | crates/core/src/coordinator.rs:302-306 | true exactly for the active job whose flag is unset |
| Sse.ChunkInvariance | crates/provider-openai/src/sse.rs:27-46 | for any splitting of a byte string, even inside a code point or a CRLF, pushing the pieces and pushing the whole both succeed with the same events and the same decoder state, or both fail with the same error |
| Sse.DecodeConcat | crates/provider-openai/src/sse.rs:27-46 | decoding a concatenation is decoding its parts one after the other |
| Sse.DecodeKeepsValid | crates/provider-openai/src/sse.rs:27-125 | after every success the residue has no line feed and is at most 64 KiB, and the byte count is the stored size and at most 256 KiB |
| Sse.Decoder.Push | crates/provider-openai/src/sse.rs:27-46 | draining whole lines equals the byte-at-a-time decoder |
| Sse.Decoder.Finish | crates/provider-openai/src/sse.rs:48-60 | equals trimming all trailing CRs, taking the line and emitting |
| Sse.Decoder.Line | crates/provider-openai/src/sse.rs:62-84 | equals the line rule: empty, comment, data with one optional space, others ignored |
| Sse.Decoder.Emit | crates/provider-openai/src/sse.rs:86-125 | equals the event rule: joined data, the done sentinel, the parsed payload |
| Sse.FinishIsTwoLineFeeds | crates/provider-openai/src/sse.rs:48-60 | ending the stream equals pushing two line feeds, for every parser, whenever extra trailing CRs do not reach a stored value |
| Sse.OneCrIsHarmless | crates/provider-openai/src/sse.rs:48-60 | in particular when the tail ends in at most one CR |
| Sse.FinishDiffersFromTwoLineFeeds | crates/provider-openai/src/sse.rs:48-60 | for a parser that, like JSON, ignores a CR behind a payload: the two agree exactly unless extra CRs follow the done sentinel, or make a value too long that fits without them |
| Sse.SentinelWithTwoCrs | crates/provider-openai/src/sse.rs:48-60 | a stream that breaks off after `data:[DONE]` and two CRs ends well, though two line feeds would make it malformed |
| ResponseReader.ReadResponse | crates/provider-openai/src/client.rs:568-670 | the read loop with its two modes equals the step-by-step reader |
| ResponseReader.DeliverEvents | crates/provider-openai/src/client.rs:622-638 | events after the first Done of one push are still delivered, and delivery stops at the limit |
| ResponseReader.OutputByteLimit | crates/provider-openai/src/client.rs:704-713 | the limit is at most 1 MiB for every profile |
| ResponseReader.OutputBound | crates/provider-openai/src/client.rs:685-713 | on every run the delivered bytes stay within the limit |
| ResponseReader.DeliveredWithinLimit | crates/provider-openai/src/client.rs:685-702 | the same from any reader state |
| ResponseReader.DecisionStable | crates/provider-openai/src/client.rs:610-632 | once decided, streaming or JSON never flips as more bytes arrive |
| ResponseReader.SsePrefixIsPlainPrefix | crates/provider-openai/src/client.rs:673-682 | looking at the first line without its CR is the same as looking at the prefix |
| ReadBoundaries.BoundaryIndependence | crates/provider-openai/src/client.rs:584-669 | for every body of at most 2 MiB: success and the delivered text are the same for all ways of cutting it into reads of at most 16 KiB, exactly if what one read can bring behind the first Done decodes and shows nothing, and the body is not JSON that shows itself first between 64 KiB and 80 KiB and parses |
| ReadBoundaries.SteadyMeaning | crates/provider-openai/src/client.rs:584-669 | such a body succeeds with the texts up to its first Done, or of the whole, or fails, however it is read |
| ReadBoundaries.RunAnswers | crates/provider-openai/src/client.rs:584-669 | what a run answers depends only on where its reads end: the first end at which the reader stops, or the end of the body |
| ReadBoundaries.StreamsShow | crates/provider-openai/src/client.rs:673-682 | an event stream is recognised within its first six bytes, so only JSON can be recognised late |
| ReadBoundaries.NoiseAfterDoneDependsOnReads | crates/provider-openai/src/client.rs:622-638 | `data: [DONE]`, two line feeds, and any event that shows text behind it: delivered or not by how it is read |
| ReadBoundaries.LateDecisionDependsOnReads | crates/provider-openai/src/client.rs:629-631 | 64 KiB and one byte of blanks before JSON: accepted or rejected by how it is read |
| HistoryWriter.HistoryIsNewest | windows/apps/resident/src/history_writer.rs:39-65 | for valid entries and successful writes, however the drains group the queue, the stored rows are the newest 1000 of the table and everything drained |
| HistoryWriter.RowsAreNewest | windows/apps/resident/src/history_writer.rs:39-65 | with failing groups too: the newest 1000 of the table and the entries of the groups that persisted |
| HistoryWriter.BatchIsOneByOne | crates/storage/src/history.rs:155-196 | a batch stores what inserting and pruning one entry at a time stores |
| HistoryWriter.FlushesAnsweredInTime | windows/apps/resident/src/history_writer.rs:86-97 | the answers are the flushes in the order they were sent, each given only after every entry sent before its flush was attempted |
| HistoryWriter.KeptIff | windows/apps/resident/src/history_writer.rs:39-65 | everything drained was stored exactly if every group was empty or stored |
| HistoryWriter.TrueAnswerCovers | windows/apps/resident/src/history_writer.rs:54-63 | an answer of true covers everything drained so far exactly if all earlier groups were empty or stored |
| HistoryWriter.InvalidEntryRejectsItsBatch | crates/storage/src/db.rs:118-126 | one invalid entry makes the valid one drained with it disappear, but not the one drained before it |
| HistoryWriter.AnswerForgetsEarlierLoss | windows/apps/resident/src/history_writer.rs:54-63 | the shortest run with an answer of true behind a lost entry |
| HistoryWriter.HistoryWriter.Gather | windows/apps/resident/src/history_writer.rs:40-53 | takes the first message and then what is there, in order, up to 256 entries, whatever arrives in between |
| HistoryWriter.HistoryWriter.Drain | windows/apps/resident/src/history_writer.rs:39-65 | one turn of the worker: attempt, then the answers, for exactly the messages taken |
| History.HistoryDatabase.InsertCompletedBatch | crates/storage/src/history.rs:162-196 | all entries are validated first; then all are inserted with fresh ids and the table is pruned, or nothing changes |
| History.HistoryDatabase.InsertCompleted | crates/storage/src/db.rs:110-113 | a batch of one |
| History.ValidateEntry | crates/storage/src/history.rs:56-88 | accepts exactly the entries without blank fields and with a canonical timestamp |
| History.NewestOfUnion | crates/storage/src/history.rs:185-194 | pruning first and inserting later selects the same rows as inserting first |
| History.NewestSize | crates/storage/src/history.rs:185-194 | exactly the limit is kept, or everything if there is less |
| History.NewestAreNewer | crates/storage/src/history.rs:185-194 | every kept row is newer, by time and then id, than every dropped one |
| History.StoredTwice | crates/storage/src/history.rs:162-196 | two batches store what one batch of both would |
| Calendar.CivilDateAdvances | crates/platform-interface/src/lib.rs:141-154 | consecutive day numbers are consecutive days of the proleptic Gregorian calendar, before and after the epoch, and day 0 is 1970-01-01 |
| Calendar.CivilDateValid | crates/platform-interface/src/lib.rs:141-154 | every day number becomes a date that exists |
| Calendar.CivilDateInverts | crates/platform-interface/src/lib.rs:141-154 | counting the days of the date gives the day number back, although the division truncates |
| Calendar.CivilDateOfDayNumber | crates/platform-interface/src/lib.rs:141-154 | converting the day count of any existing date gives the date back |
| Timestamps.WrittenIsAccepted | crates/platform-interface/src/lib.rs:125-137 | what the resident writes is a canonical timestamp exactly through the year 9999 |
| Timestamps.WrittenSorts | crates/platform-interface/src/lib.rs:122-137 | through the year 9999 byte order of written timestamps is time order |
| Timestamps.IsCanonicalUtcTimestamp | crates/storage/src/history.rs:93-145 | accepts exactly the texts of the timestamp grammar |
| Timestamps.CanonicalIff | crates/storage/src/history.rs:93-145 | the positional checks and the grammar agree |
| Timestamps.ParseDigits | crates/storage/src/history.rs:147-153 | none exactly for a text with a non-digit; otherwise the decimal value |
| Timestamps.FractionsSort | crates/storage/src/history.rs:90-92 | for any two accepted timestamps byte order is time order, exactly unless they name one second and the fraction of one goes on from the other's |
| Timestamps.FractionsSortFirst | crates/storage/src/history.rs:90-92 | half a second past a moment sorts before the moment itself |
| Cache.LookupCharacterised | crates/core/src/cache.rs:169-206 | with a monotone clock, after any trace of insertions and lookups, a lookup answers v exactly when the latest insertion of the key stored v, is young enough, and fewer than `capacity` distinct other keys were inserted since |
| Cache.Position | crates/core/src/cache.rs:169-184 | the entry of a key is its latest insertion, and the entries behind it are the keys inserted since |
| Cache.EntriesLeft | crates/core/src/cache.rs:169-206 | the deque is a tail of all entries; what it lacks is expired unless it is full |
| Cache.ResultCache.Insert | crates/core/src/cache.rs:169-184 | the older entry of the key is replaced and the oldest entries beyond the capacity go |
| Cache.ResultCache.Get | crates/core/src/cache.rs:186-192 | expired entries go, then the first entry of the key answers |
| Sentence.BoundsHoldOneSentence | crates/core/src/sentence.rs:45-79 | the bounds are ordered; inside them there is no boundary other than the final terminator, which only closing quotes follow |
| Sentence.BoundsPartition | crates/core/src/sentence.rs:45-79 | any two offsets have the same sentence or two that do not overlap, in order |
| Sentence.SentenceBounds | crates/core/src/sentence.rs:45-79 | the two scans compute these bounds |
| Sentence.SentenceContains | crates/core/src/sentence.rs:25-37 | the sentence contains the text compared with the target, if that starts outside skipped whitespace and quotes and holds no boundary; for a target without zero-width scalars that is the target itself |
| Sentence.BoundsCoverIff | crates/core/src/sentence.rs:45-79 | the bounds around an offset cover a text there exactly when it starts outside the gaps between sentences and a boundary in it can only be its end, with closing quotes behind it |
| Sentence.SentenceIsStable | crates/core/src/sentence.rs:14-37 | re-extracting the target from its sentence gives the same sentence exactly if no listed abbreviation reaches back over the start of the sentence and leaves a boundary inside it |
| Sentence.FallbackNeverMatters | crates/core/src/sentence.rs:81-96 | the ASCII case-insensitive search never changes an answer, because the comparison after it is exact |
| Sentence.InitialsDivide | crates/core/src/sentence.rs:108-125 | "U.S." is divided after its first dot, since capitals are looked for after lower-casing, and what is left is divided again on re-extraction |
| Sentence.DividedTargetIsLost | crates/core/src/sentence.rs:45-79 | the target "Foo.Bar" is longer than its own sentence |
| Sentence.ExactMatch | crates/core/src/sentence.rs:29-33 | a candidate of the target's byte length that normalises like it is the target |
| HoverToken.SanitizedIsToken | crates/core/src/normalize.rs:41-94 | the result is one contiguous piece of the normalised text, holds every alphanumeric scalar of it, and is a token: segments joined by connectors, with `++` or a C/F `#` suffix at most |
| HoverToken.SanitizedIsFixed | crates/core/src/normalize.rs:41-94 | the result is a fixed point of the function |
| HoverToken.SanitizeHoverTarget | crates/core/src/normalize.rs:41-94 | the scan with its suffix rules computes that function |
| HoverToken.ConsumeChain | crates/core/src/normalize.rs:52-66 | the scanning loop ends, at the end of the longest chain |
| HoverToken.ChainIsChain | crates/core/src/normalize.rs:109-138 | what the scan covers is a chain of the grammar |
| HoverToken.HoverTextIsFixed | windows/crates/platform-windows/src/composition.rs:661-669 | cleaning hovered text a second time, as the gate does after the worker, changes nothing exactly if there is no sentence, or if the first occurrence of the token holds no boundary and no abbreviation splits at the start of its sentence; a sentence that stays contains the token |
| Normalize.NormalizeFixed | crates/core/src/normalize.rs:12-19 | normalisation reaches a fixed point at once, exactly on normal text |
| Normalize.SameBytesSameText | crates/core/src/normalize.rs:12-24 | text that normalises to something of its own byte length is unchanged |
| Normalize.TrimSlice | crates/core/src/normalize.rs:12-19 | trimming keeps a contiguous slice and removes nothing but whitespace |
| Prompt.ValidationIff | crates/core/src/prompt.rs:185-224 | validation accepts exactly the templates written from scalars other than braces and the three placeholders, with the target where required |
| Prompt.AcceptedRenders | crates/core/src/prompt.rs:226-249 | every accepted template renders, to the one-pass substitution of its items: braces in inserted values are not expanded |
| Prompt.SubstitutedContains | crates/core/src/prompt.rs:226-249 | a substitution with the target placeholder contains the target |
| Prompt.ValidateTemplate | crates/core/src/prompt.rs:185-224 | the scan computes the validation, with the first error it meets |
| Prompt.RenderTemplate | crates/core/src/prompt.rs:226-249 | the cursor loop computes the rendering |
| Prompt.Rendered | crates/core/src/prompt.rs:107-132 | the user message contains the normalised target |
| Prompt.Render | crates/core/src/prompt.rs:107-132 | the two renderings that are expected to succeed do |
| RequestGate.PreparedIsSound | crates/core/src/request_gate.rs:217-325 | an admitted request has one normal target of at most 4000 scalars that its user message contains, the only profile of its id, a system message that ends with the response contract, and for hover a context and a token |
| RequestGate.RequestGate.constructor | crates/core/src/request_gate.rs:177-195 | the map holds the first profile of every id and the set the ids that came twice |
| RequestGate.RequestGate.PrepareInput | crates/core/src/request_gate.rs:197-212 | admits exactly what a scan of the profile list admits, and prepares the same request |
| ResponseFormat.NormalizeIdempotent | crates/core/src/response_format.rs:18-84 | normalising twice equals once: for every other profile always, for the linguist profile exactly if no field value is itself a heading or field, and the response ends in a newline or no body line still ends in a CR after losing one (only the last line of the last body counts where lines end in CRLF) |
| ResponseFormat.CrSafeIs | crates/core/src/response_format.rs:66-84 | that condition on CRs holds exactly if no output line ends in a CR of its own, unless a CRLF follows it |
| ResponseFormat.CrBeforeLfIsSafe | crates/core/src/response_format.rs:26-38 | the condition on CRs holds whenever every CR of the response stands before a LF |
| ResponseFormat.OutputMarks | crates/core/src/response_format.rs:66-84 | the headings and fields among the output lines are the four headings, once each and in order, exactly if no field value is itself a heading or field |
| ResponseFormat.BodyLinesSurvive | crates/core/src/response_format.rs:23-84 | for every response: read back, the output has under each heading the non-blank lines the response had there, in order, or None, exactly if no field value is itself a heading or field; lines are compared without the CRs at their ends |
| ResponseFormat.HeadingValueBreaksIdempotence | crates/core/src/response_format.rs:35-53 | "Translation: ## Reasoning" is not stable under a second pass |
| ResponseFormat.CrsAtTheEndBreakIdempotence | crates/core/src/response_format.rs:26-38 | neither is "a" with two CRs, whose output gets its first CRLF from one of them |
| ResponseFormat.NormalizeResponse | crates/core/src/response_format.rs:18-84 | the loop over sections writes the specified layout |
| ResponseFormat.CollectSections | crates/core/src/response_format.rs:23-54 | the loop over lines collects the specified bodies |
| Mouse.HoverMeansDwell | windows/crates/platform-windows/src/mouse.rs:175-246 | an emitted hover implies a move to its spot at least 500 ms before, after which every move stayed in the same window within the threshold, with no button, cancel or toggle event and no hover since |
| Mouse.HoverIff | windows/crates/platform-windows/src/mouse.rs:175-246 | a tick emits a hover exactly when the calls so far have a dwell that began 500 ms before and no earlier tick that late |
| Mouse.EmittedIff | windows/crates/platform-windows/src/mouse.rs:220-246 | a dwell has emitted its hover exactly if such a tick came |
| Mouse.SelectionsAreReleases | windows/crates/platform-windows/src/mouse.rs:122-246 | emitted selections followed by queued releases are all releases in order, and the selection deadline is set exactly while some are queued |
| Mouse.DragSelects | windows/crates/platform-windows/src/mouse.rs:122-173 | a drag selects the rectangle of its two points, in the window where the button went down if that is known |
| Mouse.ClickSelects | windows/crates/platform-windows/src/mouse.rs:122-173 | a click selects nothing unless it is the second of a double click in time and place |
| Mouse.GenerationTells | windows/crates/platform-windows/src/mouse.rs:72-120 | the generation stays exactly when the dwell, as read off the calls, goes on, with one exception: setting hover mode to what it is ends a dwell silently |
| Mouse.SelectionRect | windows/crates/platform-windows/src/mouse.rs:250-264 | contains both points, is never empty even at the edges of the range, and is the bounding box where that is not flat |
| Mouse.MouseState.OnLeftDown | windows/crates/platform-windows/src/mouse.rs:99-111 | equals the step function |
| Mouse.MouseState.OnLeftUp | windows/crates/platform-windows/src/mouse.rs:122-173 | equals the step function |
| Mouse.MouseState.OnMove | windows/crates/platform-windows/src/mouse.rs:175-209 | equals the step function |
| Mouse.MouseState.TakeDue | windows/crates/platform-windows/src/mouse.rs:220-246 | equals the step function and its emitted triggers |
| Mouse.MouseState.SetHoverEnabled | windows/crates/platform-windows/src/mouse.rs:84-97 | equals the step function |
| Mouse.MouseState.CancelHoverCandidate | windows/crates/platform-windows/src/mouse.rs:76-81 | equals the step function |
| OcrLines.ContiguousLineGroup | windows/crates/platform-windows/src/ocr.rs:719-745 | ends; empty for an invalid target; otherwise strictly sorted and exactly the connected component of the target under contiguity |
| OcrLines.GroupsPartition | windows/crates/platform-windows/src/ocr.rs:719-745 | two lines have equal groups exactly when one is in the group of the other |
| OcrLines.ContiguousBothWays | windows/crates/platform-windows/src/ocr.rs:693-715 | contiguity is symmetric, and reflexive on valid lines |
| OcrLines.ConnectedTransitive | windows/crates/platform-windows/src/ocr.rs:719-745 | being in one component is transitive |
| OcrLines.ConnectedSymmetric | windows/crates/platform-windows/src/ocr.rs:719-745 | being in one component is symmetric |
| OcrLines.JoinLines | windows/crates/platform-windows/src/ocr.rs:648-683 | the text is the lines of the group in order, a space before each that follows some text; none for a line without text or an offset beyond its line; the offset is the target's place in it |
| OcrLines.OffsetMeans | windows/crates/platform-windows/src/ocr.rs:648-683 | what follows that offset starts with what followed it in its own line |

## Left out

- Native windows, input hooks, UI Automation, OCR recognition, WinHTTP, the clipboard and credentials: their answers are inputs.
- The JSON, TOML and SQLite engines: a payload parser is a function, the history table a set of rows with a counter, and a failing write is an input.
- URL parsing, provider validation and the request body: one flag in the gate.
- `last_request`, prompt cycling, anchors, guard windows and diagnostics of the message loop: they feed no decision that is modelled, or arrive as inputs.
- Shutdown of the workers, thread joins, real-time budgets, lock poisoning and a resident without a history sink.
- Attempt numbers and configuration generations are unbounded; only the wrap of job ids and popup ids is modelled, and runs are shorter than the job id space.
- The profile chooser is shown for a popup id; the profiles it lists and their order are inputs.
- Deletion of history rows by the manager, queries and their filters.
- The error states of a failed decoder: the source drops it.
- Cache keys are compared as values; the bitwise comparison of temperatures inside a key is not spelled out, and clearing the cache on a configuration change starts a new trace.
- Byte offsets count scalars; where the source cuts by byte length, byte widths decide.
- Sse.ChunkInvariance: says nothing of the decoder's fields after an error, since the caller never uses it again.
- Mouse.MouseState.OnMove: distances are exact integers, so the overflow of squared 64-bit differences between points more than 2^31 apart is not modelled.
- OcrLines.ContiguousLineGroup: coordinates are reals with a case for values that are not finite, so single-precision rounding is not modelled.
- Timestamps.IsCanonicalUtcTimestamp: works on characters; every accepted text is ASCII, where they are the bytes.
- History.HistoryDatabase.InsertCompletedBatch: the selection of the newest rows is one assignment, as the source leaves it to one SQL statement.
- Resident.ShellState.Drain: handles one event, where the source loops until the queue is empty; runs take any number of such steps.
- The Unicode tables, `to_lowercase`, localised texts, trace labels and the default configuration.
