# Verified models of the usezombie clients

A Dafny model of the algorithms and state machines inside the `agentsfleet` command line, the dashboard and
the website, with proofs about every input and every run. Replies of servers, timers, chunk boundaries, random
draws, typed lines and failing writes are arguments of the model, so nothing is assumed about them except where
a precondition says so. `dafny verify dfyconfig.toml` checks everything.

| file | what it models |
|---|---|
| SchemaSearch.dfy | the search of a possibly cyclic schema table for ErrorBody, with one shared `seen` set |
| SseStream.dfy | the two incremental decoders of server-sent events and their parsers |
| Timeline.dfy, Sorting.dfy | the fold of live frames over timeline rows, and the merge of server-rendered rows |
| StreamRegistry.dfy, RegistryRows.dfy, RegistryObjects.dfy | the refcounted registry of event streams: state machine, what its rows and status show, and imperative form |
| AppAnalytics.dfy | deferred sign-in and sign-out of the dashboard's analytics |
| SiteAnalytics.dfy | the event queue of the website's analytics |
| Retry.dfy | the retry loop of the command line and its dashboard copy |
| Base64Url.dfy, VerificationCode.dfy, Decimal.dfy | the base64url codec and the verification-code sampler |
| Billing.dfy | grouping of charge rows into one summary an event |
| Login.dfy | the login run: existing token, direct token, device flow, validation, rollback |
| Workspaces.dfy | the local workspace list |
| Text.dfy, Sequences.dfy, Wrappers.dfy | string operations, facts about sequences, shared types |

Code that updates things in place is modelled by methods and classes (`SchemaSearch.Seen`,
`RegistryObjects.EntryObject` and `RegistryObjects.Registry`, `AppAnalytics.Analytics`, `SiteAnalytics.Tracker`, `Login.Credentials`,
`Workspaces.WorkspaceStore`, and the loops of the decoders, the retry, the codec and the grouping). Each is
proved equal to a specification function, and the theorems are about those functions.

## What the proofs found

* The schema search does not answer its docstring on every table. Branches beside a local `$ref` that
  resolves are never looked at, and a `$ref` that resolves to nothing uses up its name, so the branches beside
  its next occurrence are skipped. The exact conditions are `SchemaSearch.SearchIsPlainReachability` and
  `SchemaSearch.ExactInEveryContext`; documents that fail are in `SchemaSearch.ResolvedRefExists` and
  `SchemaSearch.DanglingNameHidesItsBranches`.
* The stream parser strips carriage returns, but the buffer is cut at two line feeds only, although section
  9.2.6 of the WHATWG HTML Standard allows CR LF and CR too. Of the nine ways to end field lines and empty
  lines, frames come back with LF or CR LF after field lines and a bare LF for the empty line, and with no
  other (`SseStream.RoundTripAll`); with one line end throughout, with LF only
  (`SseStream.OneLineEndThroughout`, `SseStream.CrLfWitness`).
* After a colon that no space follows, the stream parser drops all white space, and it drops empty "data" lines
  before the payload; the standard drops neither (`SseStream.ParseIs`, `SseStream.SpaceBeforeValueIsDropped`).
* Timelines can come to hold two rows of one id, in three ways and no other
  (`StreamRegistry.RunsStayDistinctExactlyWhen`): rendered rows that share an id; an optimistic row whose
  temporary id the server has used; and an optimistic row reconciled with an id already on another row, as after
  a frame that announces the event first (`StreamRegistry.SharedBackfillDuplicates`, `ServerTempIdDuplicates`,
  `EarlyEventDuplicates`). Temporary ids start again after a teardown, and two appends share
  one exactly as `StreamRegistry.SameTempIdExactlyWhen` says; the first reconnect waits two seconds, twice the
  base.
* Deferred sign-ins can leave the client itself with another email, or with another visitor if it has no
  `reset`; exactly when is `AppAnalytics.ClientsAgreeExactlyWhen`, and one way is
  `AppAnalytics.ChangedEmailSeparatesTheClients`.
* The website's queue loses or strands events exactly if `capture` throws while it is drained, or `init` throws
  while anything is waiting, and never recovers (`SiteAnalytics.RunsKeepQueue`, `SiteAnalytics.ThrownAwayEvent`).
* The dashboard's retry calls itself the command line's policy but does not look for the server's opt-out;
  exactly when that shows is `Retry.CopiesAgreeExactlyWhen`, and `Retry.OptOutSeparatesTheCopies` is a reply
  for which it does. In both, an error with code TIMEOUT passes the gate that keeps unsafe methods from being
  sent again after a status of 500 or more, and nothing else does (`Retry.UnsafeReplayExactlyWhen`,
  `Retry.TimeoutCodeIsReplayed`).
* A comment on the login's failure mapping says a malformed code is entered again; in the code that error ends
  the run (`Login.OtherRepliesEndTheVerification`), and every other 400, not only the documented one, counts as a
  wrong code (`Login.WrongCodeExactlyWhen`). A device login saves its token before validating it, so a failed
  validation costs the old token (`Login.RefusedTokenCostsTheOldOne`); a direct login does not
  (`Login.ValidationOrderMatters`). What exactly a failed login leaves is `Login.FailureLeaves`. One typed code can
  be posted three times, since a submission is retried like any request (`Login.PostsOfARun`).
* Two charge rows of one event and type are not added up: the later replaces the earlier, and the totals fall
  short by exactly what was replaced (`Billing.Conservation`, `Billing.SecondReceiptReplacesTheFirst`).

## Model

| member | source | states |
|---|---|---|
| SchemaSearch.SchemaUsesErrorbody | scripts/check_openapi_errors.py:30-53 | the recursive method with the shared set terminates on every table and leaves exactly the answer and the set of the specification search |
| SchemaSearch.UsesErrorbody | scripts/check_openapi_errors.py:37-53 | from a fresh set: plain reachability of ErrorBody implies a yes, and a yes implies reachability as the docstring has it |
| SchemaSearch.SearchIsSound | scripts/check_openapi_errors.py:39-53 | whatever has been seen, a yes comes with a path of resolved local references and allOf branches to ErrorBody |
| SchemaSearch.FailedSearchIsClosed | scripts/check_openapi_errors.py:43-52 | after a no, the names newly seen are closed: no target and only seen names in what they stand for |
| SchemaSearch.SettledPath | scripts/check_openapi_errors.py:43-52 | so no plain path from there ever gets to a target: the shared set hides nothing |
| SchemaSearch.SearchIsSandwiched | scripts/check_openapi_errors.py:30-53 | for every table and node: plainly reachable implies yes implies reachable |
| SchemaSearch.SearchIsPlainReachability | scripts/check_openapi_errors.py:41-52 | if no dangling reference has branches, the answer is plain reachability exactly, and the docstring is met if and only if the node is faithful |
| SchemaSearch.ExactWithoutBranchesBesideRefs | scripts/check_openapi_errors.py:31-36 | a textual condition, no branches beside local references, under which the answer is the docstring's on every cyclic table |
| SchemaSearch.ExactInEveryContext | scripts/check_openapi_errors.py:44-52 | a node is answered correctly after every faithful sibling if and only if it is faithful itself |
| SchemaSearch.SiblingThatHides | scripts/check_openapi_errors.py:44-46 | for every unfaithful node, the sibling after which the search misses it |
| SchemaSearch.DanglingNameHidesItsBranches | scripts/check_openapi_errors.py:43-50 | a reference to nothing makes the branches beside its second occurrence invisible |
| SchemaSearch.ResolvedRefHidesItsBranches | scripts/check_openapi_errors.py:47-49 | beside any reference that resolves to a schema without branches, a branch to ErrorBody is reachable and not found |
| SchemaSearch.ResolvedRefExists | scripts/check_openapi_errors.py:47-49 | one such document and table |
| SseStream.StreamGet | agentsfleet/src/lib/sse.ts:78-97 | for every chunking and every callback, the loop delivers the frames of the concatenated text, in order, ending with the first one refused |
| SseStream.ParseSseFrame | agentsfleet/src/lib/sse.ts:118-140 | the line loop computes the specified parse |
| SseStream.CutAppend | agentsfleet/src/lib/sse.ts:83-95 | text that arrives later never moves a cut already made: why chunk boundaries do not matter |
| SseStream.DeliverIsUpToRefusal | agentsfleet/src/lib/sse.ts:89-93 | what is delivered is the prefix of all frames up to the callback's first no |
| SseStream.RoundTripAll | agentsfleet/src/lib/sse.ts:82-140 | for every list of frames and each of the nine choices of line ends: printing, cutting and parsing gives the list back if and only if field lines end in LF or CR LF, empty lines in LF alone, every frame is clean, and with plain LF no field line ends in a carriage return; the buffer is then left empty |
| SseStream.RoundTrip | agentsfleet/src/lib/sse.ts:118-140 | the same for one frame |
| SseStream.ParsedExactly | agentsfleet/src/lib/sse.ts:118-140 | the frames the parser can give are exactly the clean ones: no line feed in id or type, a payload that is not empty and does not begin with a line feed |
| SseStream.OneLineEndThroughout | agentsfleet/src/lib/sse.ts:84-95 | with the same end for every line, frames come back if and only if it is LF; with CR LF and CR nothing is cut |
| SseStream.UncuttableStreamsDeliverNothing | agentsfleet/src/lib/sse.ts:84-95 | with any line ends but those two, every list of clean frames delivers nothing |
| SseStream.CrLfWitness | agentsfleet/src/lib/sse.ts:84-95 | one frame that is delivered with LF and not with CR LF |
| SseStream.ParsedIsClean | agentsfleet/src/lib/sse.ts:118-135 | no parsed frame has a line feed in id or type or an empty first payload line |
| SseStream.EveryChunkingDelivers | agentsfleet/src/lib/sse.ts:78-97 | end to end: every chunking of a printed stream that comes back delivers its frames up to the first refusal |
| SseStream.CrLfStreamDeliversNothing | agentsfleet/src/lib/sse.ts:84-95 | any text, printed or not, whose lines end in CR LF is never cut |
| SseStream.ParseIs | agentsfleet/src/lib/sse.ts:118-140 | for every text, whoever wrote it: the id is that of the last "id" line, the type that of the last "event" line or "message", the payload the "data" lines from the first non-empty one on, one line each; without a payload there is no frame |
| SseStream.OnlyFieldsMatter | agentsfleet/src/lib/sse.ts:122-135 | two texts whose lines give each field the same values in the same order parse alike |
| SseStream.OtherLinesAreIgnored | agentsfleet/src/lib/sse.ts:124-134 | a comment, an empty line or a line of another field may be put in or left out anywhere |
| SseStream.SpaceAfterColonIsOptional | agentsfleet/src/lib/sse.ts:126-134 | a field line whose value does not begin with white space reads the same with and without a space after its colon |
| SseStream.SpaceBeforeValueIsDropped | agentsfleet/src/lib/sse.ts:127-132 | any white space after the colon that does not begin with a space is dropped whole |
| SseStream.FieldsCommute | agentsfleet/src/lib/sse.ts:122-135 | neighbouring lines of different fields may change places |
| SseStream.CommentsBetweenFrames | agentsfleet/src/lib/sse.ts:82-140 | for every list of frames and comment blocks, printed with LF or CR LF after each line and cut: exactly the frames come back and nothing is left in the buffer |
| SseStream.EveryChunkingDeliversBetweenComments | agentsfleet/src/lib/sse.ts:78-97 | end to end: every chunking of such a stream delivers the frames up to the first refusal |
| SseStream.HeartbeatDeliversNothing | src/agentsfleetd/http/handlers/zombies/events_stream.zig:72 | the heartbeat of the server is such a block |
| SseStream.StreamFetch | agentsfleet/src/lib/stream-fetch.ts:68-87 | the second copy of the loop delivers the frames of the concatenated text, whatever the chunks |
| SseStream.ParsePostFrame | agentsfleet/src/lib/stream-fetch.ts:102-112 | its line loop computes the specified parse |
| SseStream.PostRoundTripAll | agentsfleet/src/lib/stream-fetch.ts:72-112 | for every list of events and each of the nine choices of line ends: printing, cutting and parsing gives the list back if and only if it is empty, or all lines end in LF, type and payload are one line each and the payload is not empty |
| SseStream.PostRoundTrip | agentsfleet/src/lib/stream-fetch.ts:102-112 | the same for one event |
| SseStream.EveryChunkingDeliversPost | agentsfleet/src/lib/stream-fetch.ts:68-87 | every chunking of such a stream delivers its events |
| SseStream.ParsePostIs | agentsfleet/src/lib/stream-fetch.ts:102-112 | for every text: the type is that of the last line that begins "event: " or "message", the payload that of the last that begins "data: " |
| SseStream.OtherPostLinesAreIgnored | agentsfleet/src/lib/stream-fetch.ts:105-109 | every other line may be put in or left out anywhere |
| Timeline.NonInterference | ui/packages/app/lib/streaming/zombie-stream-frames.ts:41-135 | folding any interleaving and keeping one event's rows is folding that event's frames over its rows |
| Timeline.InterleavingIsImmaterial | ui/packages/app/lib/streaming/zombie-stream-frames.ts:41-55 | two interleavings of the same frames give every event the same rows |
| Timeline.TextAccumulates | ui/packages/app/lib/streaming/zombie-stream-frames.ts:95-122 | the text shown is the starting text followed by every chunk of the event, in order |
| Timeline.StatusIsLast | ui/packages/app/lib/streaming/zombie-stream-frames.ts:124-135 | the status shown is that of the event's last completion, "processed" where none was given |
| Timeline.FrameGrows | ui/packages/app/lib/streaming/zombie-stream-frames.ts:77-135 | no frame drops or reorders a row, takes text away, demotes a user row, or makes two rows share an id |
| Timeline.ReceivedShows | ui/packages/app/lib/streaming/zombie-stream-frames.ts:57-93 | an announcement adds one row, field by field with the role of its actor, or changes nothing if the event has a row |
| Timeline.FirstChunkShows | ui/packages/app/lib/streaming/zombie-stream-frames.ts:95-112 | the first chunk of an event without a row adds one, field by field |
| Timeline.ChunkChanges | ui/packages/app/lib/streaming/zombie-stream-frames.ts:113-122 | a later chunk changes text and role of the first row of its event, and no other field or row |
| Timeline.CompleteChanges | ui/packages/app/lib/streaming/zombie-stream-frames.ts:124-135 | a completion changes the status of the first row of its event, "processed" without one of its own, and nothing else; without a row, nothing |
| Timeline.OtherRowsStay | ui/packages/app/lib/streaming/zombie-stream-frames.ts:41-135 | a frame leaves the rows of other ids as they are and where they are |
| Timeline.FreshShows | ui/packages/app/lib/streaming/zombie-stream-frames.ts:65-75 | what a server-rendered row shows, field by field; none if its id is there already |
| Timeline.FreshAppend | ui/packages/app/lib/streaming/zombie-stream-frames.ts:34-35 | rendered rows become events one by one, in order |
| Timeline.MergeIsSortedAndIdempotent | ui/packages/app/lib/streaming/zombie-stream-frames.ts:30-39 | the merge is oldest first, a permutation of old and new rows, and merging again changes nothing |
| Timeline.MergeBreaksTies | ui/packages/app/lib/streaming/zombie-stream-frames.ts:34-38 | rows of one time: the fresh ones first, each kind in its order |
| Sorting.SortIsStable | ui/packages/app/lib/streaming/zombie-stream-frames.ts:36-38 | the sort relied on here and in billing orders by the key, permutes, and keeps equal keys in order |
| StreamRegistry.SubscribeKeepsInv | ui/packages/app/lib/streaming/zombie-stream-registry.ts:151-170 | the lifecycle invariant is kept if and only if the listener is not subscribed already |
| StreamRegistry.ReleaseKeepsInv | ui/packages/app/lib/streaming/zombie-stream-registry.ts:172-179 | it is kept if and only if the listener is still subscribed, or the entry is gone |
| StreamRegistry.ErroredKeepsInv | ui/packages/app/lib/streaming/zombie-stream-registry.ts:111-125 | it is kept if and only if the entry has a source to lose; otherwise a reconnect timer is orphaned |
| StreamRegistry.FireKeepsInv | ui/packages/app/lib/streaming/zombie-stream-registry.ts:121-132 | reconnect and idle callbacks keep it |
| StreamRegistry.StepKeepsInv | ui/packages/app/lib/streaming/zombie-stream-registry.ts:66-232 | every possible event keeps it: source or reconnect timer, not both; the count is the outstanding subscriptions; idle timer exactly at none; nothing open or scheduled that no entry holds |
| StreamRegistry.RunsKeepInv | ui/packages/app/lib/streaming/zombie-stream-registry.ts:54-232 | it holds in every state of every interleaving from the empty registry |
| StreamRegistry.HandlersFindTheirEntry | ui/packages/app/lib/streaming/zombie-stream-registry.ts:83-94 | in every run an open source or scheduled timer has an entry under its id, which holds exactly that source or timer; for the objects, see RegistryObjects |
| StreamRegistry.SubscribersAreServed | ui/packages/app/lib/streaming/zombie-stream-registry.ts:111-179 | in every run a subscriber has its entry, counted exactly, with a source open or a reconnect scheduled and no teardown scheduled |
| StreamRegistry.UnsubscribedEntriesEnd | ui/packages/app/lib/streaming/zombie-stream-registry.ts:127-132 | in every run an entry nobody subscribes to has its teardown scheduled, and once it fires nothing of the zombie is open or scheduled |
| StreamRegistry.SecondReleaseBreaksTheCount | ui/packages/app/lib/streaming/zombie-stream-registry.ts:172-179 | calling a release closure twice breaks the invariant |
| StreamRegistry.NewSnapshotsAreAnnounced | ui/packages/app/lib/streaming/zombie-stream-registry.ts:66-81 | a step that changes rows or status makes a new snapshot, and each new snapshot calls every listener of the entry once, in order |
| StreamRegistry.NoSnapshotNoCall | ui/packages/app/lib/streaming/zombie-stream-registry.ts:66-81 | a step that makes no new snapshot calls nobody |
| StreamRegistry.ReconcileKeepsDistinct | ui/packages/app/lib/streaming/zombie-stream-registry.ts:208-220 | reconciling keeps ids distinct if and only if the real id is not already on another row |
| StreamRegistry.EarlyEventDuplicates | ui/packages/app/lib/streaming/zombie-stream-registry.ts:208-220 | the announcing frame before the reconciliation leaves two rows of one id |
| StreamRegistry.TempIdIsNew | ui/packages/app/lib/streaming/zombie-stream-registry.ts:190-205 | an optimistic row's id is on no row of its entry |
| StreamRegistry.StepKeepsDistinctExactlyWhen | ui/packages/app/lib/streaming/zombie-stream-registry.ts:66-232 | for every event: distinct ids stay so if and only if an entry is created from rows of distinct ids, an optimistic row's id is on no row, and a reconciled row's real id is on no other row |
| StreamRegistry.RunsStayDistinctExactlyWhen | ui/packages/app/lib/streaming/zombie-stream-registry.ts:66-232 | for every run: ids on every timeline have been pairwise distinct so far if and only if every step so far met that |
| StreamRegistry.SharedBackfillDuplicates | ui/packages/app/lib/streaming/zombie-stream-registry.ts:134-140 | a run that fails: rendered rows that share an id |
| StreamRegistry.ServerTempIdDuplicates | ui/packages/app/lib/streaming/zombie-stream-registry.ts:96-109 | another: a frame of the next temporary id, then an optimistic row |
| StreamRegistry.RunsKeepTimelines | ui/packages/app/lib/streaming/zombie-stream-registry.ts:185-232 | in every run in which the server uses no id that looks temporary, renders an event once and is reconciled with new ids, ids stay pairwise distinct and one that looks temporary was handed out by its entry |
| StreamRegistry.StepsKeepRows | ui/packages/app/lib/streaming/zombie-stream-registry.ts:75-232 | no step on a surviving entry drops or reorders a row or takes text away; only a reconciliation changes an id |
| StreamRegistry.TempIdsAreNeverReused | ui/packages/app/lib/streaming/zombie-stream-registry.ts:185-206 | over every run, two appends to one living entry never hand out the same id |
| StreamRegistry.SameTempIdExactlyWhen | ui/packages/app/lib/streaming/zombie-stream-registry.ts:134-206 | over every run, two appends to a zombie hand out the same id if and only if as many appends came before them since the entry each found was created |
| StreamRegistry.TempIdsRestartAfterTeardown | ui/packages/app/lib/streaming/zombie-stream-registry.ts:134-149 | after a teardown the next optimistic row is "optim-1" again |
| StreamRegistry.BackoffRestartsOnOpen | ui/packages/app/lib/streaming/zombie-stream-registry.ts:88-125 | an open makes the next loss wait the shortest delay again; each further loss counts one attempt more |
| StreamRegistry.ReconnectDelays | ui/packages/app/lib/streaming/zombie-stream-registry.ts:116-120 | the waits: two, four and eight seconds, then fifteen for good |
| RegistryRows.AppendedShows | ui/packages/app/lib/streaming/zombie-stream-registry.ts:185-206 | an append adds one row at the end whose id is the one handed out, with the text, actor and time given, role user and status "optimistic"; nothing else of the entry changes |
| RegistryRows.ReconciledShows | ui/packages/app/lib/streaming/zombie-stream-registry.ts:208-220 | exactly the rows of the temporary id get the real id and "received"; no other field or row changes |
| RegistryRows.MarkedFailedShows | ui/packages/app/lib/streaming/zombie-stream-registry.ts:226-232 | exactly the rows of the temporary id get "failed"; no other field or row changes |
| RegistryRows.WithoutEntryNothingHappens | ui/packages/app/lib/streaming/zombie-stream-registry.ts:185-232 | without an entry the three change nothing, and the id handed out is empty |
| RegistryRows.OtherZombiesAreUntouched | ui/packages/app/lib/streaming/zombie-stream-registry.ts:66-232 | no event of one zombie changes anything of another |
| RegistryRows.RowStays | ui/packages/app/lib/streaming/zombie-stream-registry.ts:75-232 | over every run: while no event of its own happens, a row stays as it is and where it is |
| RegistryRows.AppendedRowStays | ui/packages/app/lib/streaming/zombie-stream-registry.ts:185-232 | over every run: an appended message is shown with its text, actor, time and status until an event of its own happens |
| RegistryRows.AppendedTextIsKept | ui/packages/app/lib/streaming/zombie-stream-registry.ts:185-232 | over every run of the entry, whatever happens: it stays at its place, the user's, of that actor and time, beginning with that text |
| RegistryRows.StatusFollowsTheSource | ui/packages/app/lib/streaming/zombie-stream-registry.ts:83-125 | connecting when created, live when the source opens, reconnecting when it fails, else as before |
| RegistryRows.RunsKeepStatus | ui/packages/app/lib/streaming/zombie-stream-registry.ts:83-125 | in every state of every run: reconnecting if and only if the source has failed since it last opened, and always without a source |
| RegistryRows.FirstSubscriptionCreates | ui/packages/app/lib/streaming/zombie-stream-registry.ts:134-170 | the first subscription makes the entry, with its workspace, its rows in time order, one listener and an open source |
| RegistryRows.LaterSubscriptionJoins | ui/packages/app/lib/streaming/zombie-stream-registry.ts:163-168 | a later one joins it and takes its teardown timer away; its rows and workspace do not count |
| RegistryRows.LastReleaseWaits | ui/packages/app/lib/streaming/zombie-stream-registry.ts:172-179 | only the last release sets a timer, of thirty seconds |
| RegistryObjects.StaysBound | ui/packages/app/lib/streaming/zombie-stream-registry.ts:83-125 | a handler made for an entry registered under its id, beside handlers that all captured the object registered under theirs, keeps that so |
| RegistryObjects.TornDownStaysBound | ui/packages/app/lib/streaming/zombie-stream-registry.ts:127-132 | so does a teardown, because the lifecycle invariant leaves no other handler of the id |
| RegistryObjects.Registry.Subscribe | ui/packages/app/lib/streaming/zombie-stream-registry.ts:151-170 | in place, on the entry objects: the step of the state machine; from a valid state, valid again if and only if the listener is new |
| RegistryObjects.Registry.ReleaseSubscriber | ui/packages/app/lib/streaming/zombie-stream-registry.ts:172-179 | the step of the state machine; from a valid state, valid again if and only if the listener is still subscribed, or the entry is gone |
| RegistryObjects.Registry.OnOpen | ui/packages/app/lib/streaming/zombie-stream-registry.ts:88-91 | on the object the handler captured: the step of the state machine on the entry registered now, valid again |
| RegistryObjects.Registry.OnMessage | ui/packages/app/lib/streaming/zombie-stream-registry.ts:92-109 | likewise; a payload that is no frame changes nothing |
| RegistryObjects.Registry.OnError | ui/packages/app/lib/streaming/zombie-stream-registry.ts:93-125 | likewise; the reconnect timer captures the same object |
| RegistryObjects.Registry.TimerFires | ui/packages/app/lib/streaming/zombie-stream-registry.ts:121-132 | likewise, for reconnect and idle timers; a teardown removes the very object the timer captured |
| RegistryObjects.Registry.AppendOptimistic | ui/packages/app/lib/streaming/zombie-stream-registry.ts:185-206 | the step of the state machine, with the id handed out |
| RegistryObjects.Registry.ReconcileOptimistic | ui/packages/app/lib/streaming/zombie-stream-registry.ts:208-220 | likewise |
| RegistryObjects.Registry.MarkOptimisticFailed | ui/packages/app/lib/streaming/zombie-stream-registry.ts:226-232 | likewise |
| AppAnalytics.LoadingBeginsClean | ui/packages/app/lib/analytics/posthog.ts:119-128 | whatever was called before, a load begins with nothing pending |
| AppAnalytics.DeferredRun | ui/packages/app/lib/analytics/posthog.ts:155-158 | what the flush leaves after any calls: user, marker and client in terms of the last sign-in and whether there was a sign-out |
| AppAnalytics.ImmediateRun | ui/packages/app/lib/analytics/posthog.ts:161-208 | what the same calls leave on a loaded client, in the same terms |
| AppAnalytics.DeferralRefinesImmediate | ui/packages/app/lib/analytics/posthog.ts:119-208 | for every sequence of calls during the load, cached user, marker and pending notes are those of the immediate machine |
| AppAnalytics.MarkerExactlyWhen | ui/packages/app/lib/analytics/posthog.ts:161-208 | for every sequence of calls and both machines: the marker is set at the end if and only if the last call is a sign-in, the client can identify and the store is writable, or it was set before and there was no sign-out; a stale identity is reported if and only if somebody is signed in or the marker is set |
| AppAnalytics.ClientsAgreeExactlyWhen | ui/packages/app/lib/analytics/posthog.ts:149-208 | the client itself agrees if and only if the emails of the final run of one id agree, or a final sign-out could be made or undid nothing |
| AppAnalytics.ChangedEmailSeparatesTheClients | ui/packages/app/lib/analytics/posthog.ts:167-178 | signing in twice with another email the second time leaves different clients |
| AppAnalytics.FailedLoadKeepsMarker | ui/packages/app/lib/analytics/posthog.ts:134-148 | when the import fails or `init` throws, no sign-out of the configured session, before or after, removes the marker |
| AppAnalytics.LoadBeginsExactlyWhen | ui/packages/app/lib/analytics/posthog.ts:119-128 | a load begins if and only if nobody has begun one, there is a window, analytics is enabled and there is a key |
| AppAnalytics.ToldWithoutSpaces | ui/packages/app/lib/analytics/posthog.ts:84-103 | the client is told id and email trimmed, and neither when nothing is left |
| AppAnalytics.Analytics.IdentifyAnalyticsUser | ui/packages/app/lib/analytics/posthog.ts:161-181 | the module's variables after it are those of the state machine |
| AppAnalytics.Analytics.ResetAnalyticsIdentity | ui/packages/app/lib/analytics/posthog.ts:195-208 | likewise |
| AppAnalytics.Analytics.BeginInitAnalytics | ui/packages/app/lib/analytics/posthog.ts:119-128 | likewise, up to the await |
| AppAnalytics.Analytics.FinishInitAnalytics | ui/packages/app/lib/analytics/posthog.ts:130-159 | likewise, the flush or the failure after it |
| SiteAnalytics.StepKeepsInv | ui/packages/website/src/analytics/posthog.ts:81-155 | captured followed by pending is every track so far, sanitised, in order, one loader start at most: every event keeps it, but for a load in which `capture` throws, or `init` throws with events waiting, and those never do |
| SiteAnalytics.RunsKeepQueue | ui/packages/website/src/analytics/posthog.ts:81-155 | for every run and state: it holds if and only if there has been no such load; after one, events stay waiting for good or fewer are captured than were tracked |
| SiteAnalytics.ThrownAwayEvent | ui/packages/website/src/analytics/posthog.ts:108-112 | a run whose only event is neither captured nor waiting at the end |
| SiteAnalytics.LoadedPagesRecordEverything | ui/packages/website/src/analytics/posthog.ts:108-112 | a loaded page has captured every track so far in order, with none waiting, if and only if there has been no such load |
| SiteAnalytics.SanitizedProps | ui/packages/website/src/analytics/posthog.ts:68-79 | only allowed keys, no text over 256, and sanitising is idempotent |
| SiteAnalytics.SanitizedOne | ui/packages/website/src/analytics/posthog.ts:34-79 | a property gets out if and only if its key is one of the thirteen, a text cut to its first 256 characters, anything else whole |
| SiteAnalytics.SanitizeAppend | ui/packages/website/src/analytics/posthog.ts:68-79 | and properties are taken one by one, in order |
| SiteAnalytics.Tracker.TrackOne | ui/packages/website/src/analytics/posthog.ts:144-155 | the module's variables after it are those of the state machine |
| SiteAnalytics.Tracker.FinishLoad | ui/packages/website/src/analytics/posthog.ts:81-113 | likewise, the queue drained in order, drained up to a throw, left waiting, or the load broken |
| SiteAnalytics.Tracker.SanitizeProps | ui/packages/website/src/analytics/posthog.ts:68-79 | the loop computes the specified filter |
| Retry.RequestWithRetry | agentsfleet/src/lib/http-retry.ts:212-240 | for every script of replies and draws the loop's trace and outcome are the specified run; a limit that is no integer in 1..10 sends nothing |
| Retry.EveryRun | agentsfleet/src/lib/http-retry.ts:186-240 | the run ends at the first attempt that is not retried, within the limit, with one onRetry and one sleep for each attempt before it and one terminal onAttempt numbered to match |
| Retry.ResentExactlyWhen | agentsfleet/src/lib/http-retry.ts:212-240 | in every run an attempt is followed by another if and only if it failed, attempts are left and the failure is retryable |
| Retry.UnsafeReplayExactlyWhen | agentsfleet/src/lib/http-retry.ts:195-197 | a method that is not idempotent is sent again after a status of 500 or more if and only if the code is TIMEOUT and attempts are left |
| Retry.TimeoutCodeIsReplayed | agentsfleet/src/lib/http-retry.ts:38-38 | a POST answered with status 504 and code TIMEOUT is sent until the attempts run out |
| Retry.RetriedExactlyWhen | agentsfleet/src/lib/http-retry.ts:36-62 | for every error of every kind: retried if and only if attempts are left and it is a TIMEOUT, one of the six statuses with no opt-out and below 500 or the method idempotent, or a network failure |
| Retry.ReasonIs | agentsfleet/src/lib/http-retry.ts:36-62 | the reason reported for every kind of retryable error |
| Retry.IdempotentExactlyWhen | agentsfleet/src/lib/http-retry.ts:130-133 | the four methods, in any letter case |
| Retry.SettingsAre | agentsfleet/src/lib/http-retry.ts:146-167 | which option becomes which setting, and the default of each |
| Retry.LimitsAre | agentsfleet/src/lib/http-retry.ts:146-158 | the limits taken: the integers from 1 to 10, and 1 where retries are switched off |
| Retry.EverySleepIs | agentsfleet/src/lib/http-retry.ts:72-82 | for every run and every attempt before the last: the sleep after it is in [r, 1.2 r) if the reply was an API error with a positive Retry-After r, and else within 20 % of the base doubled for each attempt before, or the cap if that is less |
| Retry.BackoffIsNearBase | agentsfleet/src/lib/http-retry.ts:78-81 | every delay is within 20 % of the capped exponential, for every draw |
| Retry.BackoffRespectsFloor | agentsfleet/src/lib/http-retry.ts:73-77 | with a positive Retry-After every delay is at least it and under 1.2 times it |
| Retry.BackoffIncreasesExactlyWhen | agentsfleet/src/lib/http-retry.ts:72-82 | for every base and cap: consecutive delays strictly increase for all draws if and only if the capped base is positive and grows by half at least |
| Retry.BackoffIncreasesBelowCap | agentsfleet/src/lib/http-retry.ts:72-82 | so below the cap they do, whatever the draws |
| Retry.SleepIsBounded | agentsfleet/src/lib/http-retry.ts:212-240 | with no Retry-After all sleeps together are at most 1.2 times attempts left times cap |
| Retry.CopiesAgreeExactlyWhen | ui/packages/app/lib/api/retry.ts:53-247 | the two copies show the same trace and outcome if and only if the reply the command line stops at is not one whose opt-out stopped it |
| Retry.CopiesAgreeWithoutOptOut | ui/packages/app/lib/api/retry.ts:210-247 | so they agree on every script without opt-outs |
| Retry.OptOutSeparatesTheCopies | ui/packages/app/lib/api/retry.ts:56-58 | a 429 that opts out ends the command line's run and not the dashboard's |
| Base64Url.Base64UrlEncode | agentsfleet/src/lib/cli-flow.ts:138-142 | the accumulating loop writes the specified text |
| Base64Url.Base64UrlDecode | agentsfleet/src/lib/cli-flow.ts:144-152 | the filling loop writes the specified bytes, or fails where `atob` does |
| Base64Url.RoundTrip | ui/packages/app/lib/auth/cli-flow.ts:120-134 | for every byte sequence decoding the encoding gives it back |
| Base64Url.ReverseRoundTrip | agentsfleet/src/lib/cli-flow.ts:138-152 | a text decodes and encodes back to itself if and only if it is in the URL alphabet, unpadded, with no spare bits |
| Base64Url.SextetsAreTheBits | agentsfleet/src/lib/cli-flow.ts:138-142 | every three bytes and the four sextets made of them are the same 24 bits, zeros standing where the bytes end |
| Base64Url.EncodedLetters | agentsfleet/src/lib/cli-flow.ts:138-142 | the letter of each sextet: A to Z, a to z, 0 to 9, then - and _ |
| Base64Url.PadsAreRestored | ui/packages/app/lib/auth/cli-flow.ts:123-128 | stripping the pads loses nothing: the decoder sees what `btoa` wrote |
| Base64Url.PadCountCompletes | agentsfleet/src/lib/cli-flow.ts:145-145 | for every length the pad count completes it to a multiple of four |
| Base64Url.PadsAgree | agentsfleet/src/program/auth-token.ts:103-104 | for every length the slice of "===" is that many pads |
| VerificationCode.GenerateVerificationCode | ui/packages/app/lib/auth/cli-flow.ts:110-118 | the code is six digits and that of the first accepted draw |
| VerificationCode.CodeIsSixDigits | ui/packages/app/lib/auth/cli-flow.ts:117-117 | every code is six digits and denotes the residue of its draw |
| VerificationCode.ThresholdIsLargestMultiple | ui/packages/app/lib/auth/cli-flow.ts:106-108 | the threshold is the largest multiple of the modulus not above 2^32 |
| VerificationCode.EveryCodeIsEquallyLikely | ui/packages/app/lib/auth/cli-flow.ts:102-118 | every six-digit code has exactly 4294 accepted draws |
| VerificationCode.RejectionIsNeeded | ui/packages/app/lib/auth/cli-flow.ts:102-105 | without the rejection exactly the codes below 967296 would have one more |
| VerificationCode.CodePassesPrompt | agentsfleet/src/commands/login-device-flow.ts:191-214 | every generated code passes the prompt's trim and check |
| Billing.GroupRowsByEvent | agentsfleet/src/commands/billing.ts:97-137 | the loop over the map computes the specified grouping |
| Billing.GroupedIsOnePerEvent | agentsfleet/src/commands/billing.ts:134-136 | one summary for each distinct event id, in descending time order |
| Billing.TiesAreByFirstRow | agentsfleet/src/commands/billing.ts:100-136 | events of one time stand in the order in which their first rows came |
| Billing.TimeIsLeast | agentsfleet/src/commands/billing.ts:126-131 | an event's time is the least its rows have, none if they have none |
| Billing.AmountsAreLast | agentsfleet/src/commands/billing.ts:117-132 | amounts are those of the last charge of each type, and the total is their sum |
| Billing.DetailsAreOfFirstRow | agentsfleet/src/commands/billing.ts:103-116 | posture and model are those of the event's first row |
| Billing.TokensAreOfLastStage | agentsfleet/src/commands/billing.ts:119-123 | token counts are those of the last stage row, unknown without one |
| Billing.Conservation | agentsfleet/src/commands/billing.ts:97-137 | for all rows, event totals plus overwritten charges are all the charges |
| Billing.ConservedExactlyWhen | agentsfleet/src/commands/billing.ts:117-132 | with no negative charge, totals are the sum of all charges if and only if no charge that counts is overwritten |
| Billing.SecondReceiptReplacesTheFirst | agentsfleet/src/commands/billing.ts:117-118 | two receipts of one event: the total is the second, the charges are both |
| Billing.DistinctChargesAreConserved | agentsfleet/src/commands/billing.ts:97-137 | when no two rows share event and charge type, totals are the sum of all charges, whatever their sign |
| Billing.OrderOfRowsIsImmaterial | agentsfleet/src/commands/billing.ts:97-137 | events and times do not depend on the order of the rows, nor, with distinct charges, do amounts |
| Login.PromptVerificationCode | agentsfleet/src/commands/login-device-flow.ts:193-217 | the prompt consumes lines up to the next six-digit code or the end of input |
| Login.CodesOfOneLine | agentsfleet/src/commands/login-device-flow.ts:200-216 | a line gives a code if and only if it is six digits with white space around them, and then those digits |
| Login.OtherLinesAreAskedAgain | agentsfleet/src/commands/login-device-flow.ts:200-216 | a line that is no code may be typed anywhere and changes nothing about the codes |
| Login.NothingAfterTheEnd | agentsfleet/src/commands/login-device-flow.ts:205-212 | what comes after the end of input does not count |
| Login.VerifyAndDecryptWithRetry | agentsfleet/src/commands/login-device-flow.ts:239-268 | the strike loop computes the specified verification |
| Login.WrongCodeExactlyWhen | agentsfleet/src/commands/login-device-flow.ts:176-185 | a reply costs a strike if and only if it is a status of 400 with a code other than that of a malformed one |
| Login.OtherRepliesEndTheVerification | agentsfleet/src/commands/login-device-flow.ts:176-268 | any other reply ends the verification after this one submission, whatever is left or typed; a malformed code with its own error |
| Login.RequestFailsExactlyWhen | agentsfleet/src/commands/login-device-flow.ts:176-268 | for every run: it fails with a request's error if and only if opening the session failed so, or the last code was answered so and that was no wrong code |
| Login.WrongCodeFailsExactlyWhen | agentsfleet/src/commands/login-device-flow.ts:254-266 | as a wrong code if and only if the second code submitted was one |
| Login.DecryptFailsExactlyWhen | agentsfleet/src/commands/login-device-flow.ts:154-229 | as undecryptable if and only if the last code was accepted without a readable token |
| Login.InterruptedExactlyWhen | agentsfleet/src/commands/login-device-flow.ts:92-252 | as interrupted if and only if so at the existing token, without terminal and token, or where no code may be asked for, none is typed, or none after a first wrong one |
| Login.UnexpectedExactlyWhen | agentsfleet/src/commands/login.ts:128-169 | unexpectedly if and only if the store could not be read without force, or a token in hand not be written |
| Login.MeValidationExactlyWhen | agentsfleet/src/commands/login-helpers.ts:226-238 | as refused if and only if the server refuses a supplied token, or one handed out and written |
| Login.VerifyFromIs | agentsfleet/src/commands/login-device-flow.ts:239-268 | at most the strikes left are submitted, all six digits, a further one only after such a wrong code; the result is the last answer |
| Login.CodesAreSentInOrder | agentsfleet/src/commands/login-device-flow.ts:255-257 | what is submitted is what was typed, in order |
| Login.SubmittedExactlyWhen | agentsfleet/src/commands/login.ts:177-223 | for every run: a first code is submitted if and only if the prompt is reached and one is typed, a second if and only if the first was answered as a wrong code and another is typed, never a third, and they are the codes typed |
| Login.VerifiedExactlyWhen | agentsfleet/src/commands/login-device-flow.ts:239-268 | a token comes out if and only if a submission within the strikes is answered with one after wrong codes only |
| Login.LoginCore | agentsfleet/src/commands/login.ts:128-225 | the whole run, with its writes to the credential store, is the specified run |
| Login.EveryRunIsSafe | agentsfleet/src/commands/login.ts:148-225 | for every run: two submissions at most; success leaves the supplied token or the one the last code was answered with, just validated; failure leaves the old token or none, but for a device token that could not be cleared |
| Login.SucceedsExactlyWhen | agentsfleet/src/commands/login.ts:177-225 | the exact condition on flags, lines, replies and writes for a login to succeed |
| Login.FailureKeepsExactlyWhen | agentsfleet/src/commands/login.ts:128-169 | a failed run leaves the store as it was if and only if it had no token to write, the write did not touch the file, or what it left there is what was there |
| Login.FailureKeepsOrClears | agentsfleet/src/commands/login.ts:148-152 | a failed run leaves the old token or none if and only if no other token was written that could not be cleared |
| Login.FailureLeaves | agentsfleet/src/commands/login.ts:128-169 | what every failed run leaves: the old store, the token that could not be cleared, or nothing |
| Login.ExistingTokenNeedsConsent | agentsfleet/src/commands/login-device-flow.ts:92-118 | an existing token changes only with force, or at a terminal after a yes |
| Login.RunBegins | agentsfleet/src/commands/login-device-flow.ts:92-118 | for every run, how it begins: with an existing token, at a terminal, without force and no-input, it goes on if and only if the first line is white space around nothing, y or yes in any letter case, and is otherwise interrupted with nothing changed or submitted |
| Login.SaysYesExactlyWhen | agentsfleet/src/commands/login-device-flow.ts:78-87 | the lines taken for a yes, character by character; the end of input is none |
| Login.NoTerminalNoCode | agentsfleet/src/commands/login.ts:187-196 | without a terminal or with no-input no code is submitted |
| Login.SourcesInOrder | agentsfleet/src/commands/login-helpers.ts:195-214 | flag before environment before pipe, blank ones skipped; the device flow needs a terminal |
| Login.SuppliedTokenIsTrimmed | agentsfleet/src/commands/login-helpers.ts:183-214 | a supplied token is one of the three sources without the white space at its ends |
| Login.ValidationOrderMatters | agentsfleet/src/commands/login-helpers.ts:226-238 | for every run past the check whose token is refused: a supplied one changes nothing; one from the prompt, once written, is cleared and the old one with it, or stays if it cannot be |
| Login.RefusedTokenCostsTheOldOne | agentsfleet/src/commands/login.ts:163-167 | a run that starts with an old token, is handed a new one that is refused, and ends with none |
| Login.PostsOfARun | agentsfleet/src/services/http-client.ts:106-116 | for every run and script of replies: at most six POSTs carry codes, at least one a submission, and more if and only if retries are on and some submission is first answered by a retryable failure |
| Workspaces.WithoutIs | agentsfleet/src/commands/workspace.ts:298-301 | deleting removes every item of the id and no other |
| Workspaces.WithoutAppend | agentsfleet/src/commands/workspace.ts:298-301 | and keeps the order of the rest |
| Workspaces.AddKeeps | agentsfleet/src/commands/workspace.ts:82-90 | adding selects the workspace, keeps the others in place, is idempotent and leaves the store consistent |
| Workspaces.DeleteKeeps | agentsfleet/src/commands/workspace.ts:296-305 | deleting keeps a consistent store so; another current one stays, else the first remaining takes over |
| Workspaces.HydrateKeeps | agentsfleet/src/commands/login-helpers.ts:111-127 | hydration takes the server's list and keeps the current workspace if it is on it |
| Workspaces.NormalizedOne | agentsfleet/src/commands/login-helpers.ts:50-71 | the workspace id, or the id where that is missing, names a listed workspace; an empty one gives none; its name is the server's, its time the server's or now |
| Workspaces.NormalizeAppend | agentsfleet/src/commands/login-helpers.ts:112-114 | the list is taken one by one, in order |
| Workspaces.RunsAreConsistent | agentsfleet/src/commands/workspace.ts:82-305 | from the empty store, every run of add, use, delete and hydration has no current workspace exactly when the list is empty, and otherwise a listed one, however writes fail |
| Workspaces.RefusedCommandsChangeNothing | agentsfleet/src/commands/workspace.ts:82-305 | a command that cannot read, check or find what it needs, or whose write does not start, changes nothing |
| Workspaces.WrittenCommandsDo | agentsfleet/src/commands/workspace.ts:82-208 | adding appends the workspace given, once, and selects it; using selects a listed one and leaves the list alone |
| Workspaces.WorkspaceStore.AddWorkspace | agentsfleet/src/commands/workspace.ts:82-90 | the stored value after it is that of the state machine |
| Workspaces.WorkspaceStore.UseWorkspace | agentsfleet/src/commands/workspace.ts:197-208 | likewise; an unknown id changes nothing |
| Workspaces.WorkspaceStore.DeleteWorkspace | agentsfleet/src/commands/workspace.ts:296-305 | likewise |
| Workspaces.WorkspaceStore.HydrateAfterLogin | agentsfleet/src/commands/login-helpers.ts:111-127 | likewise; an empty list changes nothing |

Preconditions that are part of a claim: `StreamRegistry.Possible` (a listener is subscribed once, its release
is called once, the browser delivers events of open sources and fires scheduled timers only; that those have an
entry is proved), `StreamRegistry.Polite` (the server uses no id that looks temporary, renders an event once,
and names at reconciliation an event not yet on the timeline; the exact condition is `StreamRegistry.MeetsIds`), `AppAnalytics.Loading` (a load under way, which
`AppAnalytics.LoadingBeginsClean` shows to be every load).

## Left out

- The rest of the OpenAPI check: reading the file, the required fields of ErrorBody, the walk over responses; and `$ref` or `allOf` values of another type than string and list.
- Decoding UTF-8 and UTF-16: texts are sequences of characters, chunks are decoded text. Parsing JSON payloads: opaque text, or a frame already.
- HTTP: requests, time-outs, aborts, error bodies. They are outcomes handed to the model.
- Listeners that call back into the registry while they are being called, and listeners that throw.
- Timeline rows as shared objects: the rows of a list are taken to be distinct objects, so updating the found row is updating the first of its id.
- Retry.RequestWithRetry: clock readings and durations, and callbacks that throw; real numbers stand for floating point, so NaN and infinite settings are not covered.
- Retry: lower- and upper-casing beyond ASCII, also in the login prompt.
- VerificationCode.GenerateVerificationCode: requires that some draw is accepted; that happens with probability one, and the distribution of the random source is not part of the model.
- AppAnalytics: captured product events, exceptions of the analytics client other than from `init`, and storage that starts to throw later. SiteAnalytics: an exception of `capture` outside the drain, which goes to the caller of `track`.
- Billing: summaries are values replaced in the map rather than objects updated through it; parsing the limit and the cursor; rendering.
- Login: exit codes and the re-mapping of transport errors, telemetry, opening the browser, key exchange and decryption, which either gives a token or fails; workspace hydration is in Workspaces and does not change the outcome.
- Workspaces: a store file edited by hand into an inconsistent one; the uuid check is a yes or no.
- The steer command (zombie_steer.ts, zombie_steer_events.ts) and the telemetry identity (identity.ts): short sequences whose properties follow from single bodies.
- React components, command wiring, the server: user interface, plumbing, and the environment.
