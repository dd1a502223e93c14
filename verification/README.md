# A verified model of the Duale AI Python SDK's protocol and state-machine core

The SDK is a client of a remote bridge. It submits tasks, follows their event streams through lost connections, runs
customer tools when the platform asks, and keeps an agent registered. Most of it is plumbing; this project models the
parts that are protocols or state machines and proves what they promise, for every input, run and interleaving.

The modules follow the layers of the SDK. Where the source changes an object step by step there is a class with the same
fields, whose methods are proved against pure functions; where concurrent tasks interleave at awaits or under a lock there
is a step machine whose steps are what runs between two awaits.

| module | models |
|---|---|
| `Basics` | bytes, UTF-8, and the Python string operations that the SDK applies to them |
| `SseParser`, `SseLayout` | the incremental event-stream parser (sections 9.2.5 and 9.2.6 of the WHATWG HTML Standard, as scoped by the SDK) and the frame layout it reads |
| `ResumableStream`, `TaskStream` | the retry loop with its replay cursor and POST-to-GET switch, and the consumer that routes events to callbacks |
| `ToolScheduler`, `ToolRetry` | the replay table of tool uses under every interleaving, and the retry loop around one tool |
| `CircuitBreaker`, `TaskRunner` | the breaker with generations and one recovery probe, and the runners that drive it |
| `Preview` | the live queue and the replay list of streamed content |
| `ServerClock`, `Lifecycle` | the clock estimate; registration, heartbeat, deregistration |
| `CanonicalJson` | the byte form that identifies a tool manifest |
| `Uploads`, `Cache` | part streaming, reassembly and the worker pool; the expiring caches and tenant isolation |

## What the code does not quite promise

Some properties that documentation or intent suggests are false of the code. The model keeps the code; each entry names
the member that gives the exact condition or the failing run.

- A heartbeat sample's error is not always within half the round trip: `timedelta / 2` rounds half to even, which can add
  half a microsecond. `ServerClock.HalfRoundTripExactly` gives the exact condition; the 2.5 s bound holds regardless.
- Heartbeats are backed by a registration if and only if no manual `start()` is under way during `aclose()`, which cancels
  only the automatic start-up (`Lifecycle.BackedExactly`).
- `aclose()` does not always deregister: it re-raises what killed the heartbeat loop or the automatic start-up before it
  gets there. A shutdown of a registered process gets through exactly when neither happened (`Lifecycle.ShutdownExactly`).
  Both situations are reached (`Lifecycle.DeadLoopReached`, `Lifecycle.FailedStartupReached`) and both last: while start-up
  and shutdown do not overlap, a process whose loop died never sends anything again (`Lifecycle.DeadLoopIsFinal`); after a
  failed automatic start-up no `aclose()` ever stops a loop that a later `start()` created
  (`Lifecycle.FailedStartupBlocksClose`).
- An outage that begins after the client has connected never opens the circuit breaker: when the retry budget of a stream
  runs out, the raw network or checksum error is not translated into a connection error, and the runner marks it neutral
  (`TaskRunner.OutageNeverOpens`, `TaskRunner.RunAdmitted`). `TaskRunner.FailedStreamCounts` says exactly which endings of a
  stream count. A client that cannot connect in the first place is counted.
- Probes are a recovery timeout apart only as long as no probe is left neutral before its time is over; wherever that
  happens, a second probe may follow in less than the timeout (`CircuitBreaker.EarlyIgnoredProbes`).
- A tool's callable runs at most once per tool use exactly while the estimated server clock never falls back by more than
  the 300 s replay margin (`ToolScheduler.MarginIsExact`).
- The tool retry loop's total time stays below the budget plus one maximal backoff in every world exactly while a heartbeat
  never moves the estimated clock back by a whole maximal backoff, one second, during the loop
  (`ToolRetry.InBudgetExactly`; `ToolRetry.RelapseRun` is a run that ends the whole fall-back after its deadline).
- Canonical bytes identify values over Unicode scalar strings only: a Python string of two lone surrogates prints as the
  character they spell (`CanonicalJson.SurrogatesCollide`).
- Clearing a tenant of a shared SQLite table uses `LIKE`, which ignores ASCII case and does not escape `_` and `%`. A
  tenant's operations leave every other tenant alone if and only if its id has no ASCII letter and no wildcard
  (`Cache.IsolatedExactly`); ids without wildcards collide exactly when they differ in case only (`Cache.ClearTouches`).
- Cleaning up the mock cache can be observed once it overflows: two histories with the same writes agree on a read exactly
  when there is nothing to read or both or neither evicted the key (`Cache.CleanupObservableExactly`), and cleaning up just
  before a set shows exactly when the set overflows and evicts more rows than are dead (`Cache.CleanupBeforeSet`).

## Model

| member | source | states |
|---|---|---|
| `SseParser.ParseSseStream` | src/dualeai/events/sse_parser.py:56-201 | the events and the ending of a chunked parse are those of the concatenated bytes, so no two ways of cutting one input can be told apart |
| `SseParser.SseParser.Feed` | src/dualeai/events/sse_parser.py:94-105 | one chunk through the buffered loop, with its two oversize checks, advances exactly the pure parse of buffer plus chunk |
| `SseParser.SseParser.ProcessLine` | src/dualeai/events/sse_parser.py:105-168 | one line means the next frame, an event or one of the listed failures, as the line function says |
| `SseParser.SseParser.ProcessField` | src/dualeai/events/sse_parser.py:170-198 | id, event and data lines; the running byte count is the length of the joined data and refuses it past 8 MiB |
| `SseParser.SseParser.ResetFrame` | src/dualeai/events/sse_parser.py:149-155 | every frame field, the id included, goes back to its default after a blank line |
| `SseParser.Partition` | src/dualeai/events/sse_parser.py:170-179 | name and value of a field line, with one optional space dropped and a line without colon taken as a name |
| `SseParser.RunSplit` | src/dualeai/events/sse_parser.py:94-201 | parsing a concatenation is parsing the first part and continuing with the second |
| `SseParser.PrefixSafety` | src/dualeai/events/sse_parser.py:94-198 | on any input at all, a byte prefix yields a prefix of the events, an error in the prefix is the error of the whole, and a prefix of a good stream is good |
| `SseParser.FrameMeaning` | src/dualeai/events/sse_parser.py:105-198 | the line-by-line reader computes exactly the frame described without a state machine (last id without NUL, last event, last checksum, all data in order) and refuses exactly when some line cannot be read, with the error of the first such line |
| `SseParser.BlankLine` | src/dualeai/events/sse_parser.py:107-155 | on a described frame, the blank line emits exactly when the data is not blank, the checksum is present and right, the data decodes, its type is the event name and the event is admitted; no data drops the whole frame; otherwise the first thing wrong is the error |
| `SseParser.LineBound` | src/dualeai/events/sse_parser.py:100-104 | a line of more than 8 MiB before its line feed is an error whatever follows, any shorter one is handled or waits |
| `SseParser.TrailingReturns` | src/dualeai/events/sse_parser.py:105 | carriage returns at the end of a line mean nothing, however many |
| `SseParser.ChecksumDigits` | src/dualeai/events/sse_parser.py:162-165 | a checksum is eight of the digits 0-9 and a-f, in lower case |
| `SseParser.FormatWords` | src/dualeai/events/sse_parser.py:23-27 | the field names, the default event name, the checksum mark and the limits |
| `Basics.Utf8Decodes` | src/dualeai/events/sse_parser.py:105 | the lines that decode are exactly the encodings of Unicode scalar values |
| `Basics.SpaceExactly` | src/dualeai/events/sse_parser.py:113 | the white space that a blank payload or a checksum comment may hold, by code point |
| `SseLayout.RoundTrip` | src/dualeai/events/sse_parser.py:61-76 | parsing the documented layout, whatever each line's ending, gives back exactly the printed events and leaves nothing behind |
| `SseLayout.DamagedFrame` | src/dualeai/events/sse_parser.py:114-124 | a frame whose checksum does not match yields exactly the events before it and an error naming it, whatever follows |
| `SseLayout.FrameInLog` | src/dualeai/events/sse_parser.py:94-198 | a frame of any readable lines inside a printed log yields one event exactly when nothing is wrong with it, is dropped when it has no data, and otherwise ends the parse with the first thing wrong |
| `SseLayout.IdUnprotected` | src/dualeai/events/sse_parser.py:49-53 | the checksum does not cover the id: a message with another admitted id is as good a frame and yields that id |
| `SseLayout.StepLineEnding` | src/dualeai/events/sse_parser.py:105 | LF and CRLF endings mean the same |
| `ResumableStream.CursorReads` | src/dualeai/models/bridge.py:373-378 | a cursor of two positive numbers survives printing and reading |
| `ResumableStream.CursorResumes` | src/dualeai/events/http_transport.py:781-785 | the id of an event is where the replay goes on: after it come exactly the later events |
| `ResumableStream.DeliveredParse` | src/dualeai/events/http_transport.py:907-910 | whatever piece of a replay arrives, cut at any byte or damaged in a frame, yields a beginning of the replay, and the only error is a checksum mismatch |
| `ResumableStream.Deliver` | src/dualeai/events/http_transport.py:908-910 | the cursor follows what was handed over, which ends with the first event at which the caller stops |
| `ResumableStream.Try` | src/dualeai/events/http_transport.py:893-953 | one attempt: what it yields, the cursor after it, and how it ends for each failure |
| `ResumableStream.StreamRequest` | src/dualeai/events/http_transport.py:751-953 | exact resume: for every pattern of failures the caller gets a contiguous run of the log from just after its cursor, complete when the stream ends normally; by the answers themselves, cuts and damaged frames are tried again up to the tenth attempt and nothing else is, and the last answer is reported as what it is |
| `ResumableStream.FateByAnswer` | src/dualeai/events/http_transport.py:226-239 | which answers are tried again, and how each is reported |
| `ResumableStream.AnswerFates` | src/dualeai/events/http_transport.py:226-239 | the same for answers of an honest bridge: cuts and damaged frames are tried again, a refusal, an HTTP error and a whole replay are not |
| `ResumableStream.StreamRecovers` | src/dualeai/events/http_transport.py:862-910 | progress: after fewer than ten lost attempts, a next answer with the whole replay completes the stream with exactly the rest of the log |
| `ResumableStream.PublishOnce` | src/dualeai/events/http_transport.py:113-128 | the methods of a run are POSTs and then GETs; no POST follows an observed 2xx and at most one POST is ever seen accepted |
| `ResumableStream.MethodsExactly` | src/dualeai/events/http_transport.py:126-128 | a request is a GET exactly when an earlier one was answered by a 2xx |
| `TaskStream.Dispatch` | src/dualeai/events/client.py:83-110 | one event causes the call of its own callback, if given, or is terminal |
| `TaskStream.Route` | src/dualeai/events/client.py:292-303 | callbacks fire for exactly the events before the first terminal one, which is the result |
| `TaskStream.CallsByKind` | src/dualeai/events/client.py:96-107 | each callback is called with exactly the events of its own name, in order |
| `TaskStream.TerminalKinds` | src/dualeai/events/client.py:108-110 | the terminal events are the three task endings, and no callback is for them |
| `TaskStream.ConsumeTerminalStream` | src/dualeai/events/client.py:281-306 | over the resumed stream, through any failures, the callbacks fire once each and in order for a run of the log itself, up to its first terminal event |
| `ToolScheduler.ToolScheduler.ScheduleToolUse` | src/dualeai/sdk.py:564-628 | nothing for a tool that is not registered or without a deadline; one fresh queued use, which the table points to, when none is remembered; otherwise at most the stored result once more |
| `ToolScheduler.DeliverExactly` | src/dualeai/sdk.py:571-609 | the same of the table function, with the 300 s margin after deadline or arrival |
| `ToolScheduler.UsesStemFromDeliveries` | src/dualeai/sdk.py:571-609 | in every run each use stems from a delivery of a registered tool with a deadline, and has its key and deadline |
| `ToolScheduler.ToolScheduler.Prune` | src/dualeai/sdk.py:656-660 | exactly the uses whose replay margin is over leave the table |
| `ToolScheduler.ToolScheduler.StartAttempt` | src/dualeai/sdk.py:753-787 | the callable is invoked exactly when there is time left |
| `ToolScheduler.ToolScheduler.FinishUse` | src/dualeai/sdk.py:825-827 | the result is kept for redeliveries and submitted |
| `ToolScheduler.RedeliveryOnlyResubmits` | src/dualeai/sdk.py:587-607 | in every reachable state, until its margin is over a tool use that is delivered again schedules nothing and at most submits its own stored result |
| `ToolScheduler.AtMostOnce` | src/dualeai/sdk.py:587-618 | in every interleaving at most one execution of one tool use ever invokes the callable, the first scheduled one, even if its entry was pruned while it waited |
| `ToolScheduler.SubmissionsAreResults` | src/dualeai/sdk.py:591-600 | every submission for a use carries the same result |
| `ToolScheduler.RunsTwice` | src/dualeai/sdk.py:662-666 | for any larger fall-back of the clock, a run in which the callable runs twice for one tool use |
| `ToolScheduler.MarginIsExact` | src/dualeai/sdk.py:587-666 | every run is at most once exactly while the clock never falls back by more than the replay margin |
| `ToolRetry.RunAttempt` | src/dualeai/sdk.py:784-787 | an attempt is cut at the smaller of tool timeout and time left, and succeeds exactly when the callable does so before that |
| `ToolRetry.BackoffCaps` | src/dualeai/constants.py:54-57 | the ceilings of the waits double from a tenth of a second to one second |
| `ToolRetry.InvokeWithRetry` | src/dualeai/sdk.py:706-788 | the loop computes the recursive function of its world: at most retries + 1 invocations, each begun with time left and over by the deadline; gives up only without attempts or time; total time below the budget plus one backoff, or past the budget by no more than the clock estimate fell back |
| `ToolRetry.InBudgetExactly` | src/dualeai/sdk.py:719-722 | the total time stays below the budget plus one maximal backoff in every world exactly when the clock estimate can only fall back by less than a maximal backoff |
| `ToolRetry.RelapseRun` | src/dualeai/sdk.py:731-787 | a run that ends past its budget by the whole fall-back of the clock estimate |
| `CircuitBreaker.Attempt.Fail` | src/dualeai/_circuit_breaker.py:32-35 | a failure mark never overrides an earlier mark |
| `CircuitBreaker.Attempt.Ignore` | src/dualeai/_circuit_breaker.py:37-40 | a neutral mark never overrides an earlier mark |
| `CircuitBreaker.Attempt.IgnoreCancellation` | src/dualeai/_circuit_breaker.py:42-44 | cancellation is neutral after any mark |
| `CircuitBreaker.CircuitBreaker.AdmitTask` | src/dualeai/_circuit_breaker.py:91-108 | admission, rejection with its wait, or a probe with a new generation |
| `CircuitBreaker.CircuitBreaker.CompleteTask` | src/dualeai/_circuit_breaker.py:110-149 | the new state after any completion |
| `CircuitBreaker.CircuitBreaker.Leave` | src/dualeai/_circuit_breaker.py:71-89 | what each way of leaving the protected body counts as, given the attempt's mark |
| `CircuitBreaker.StepKeepsInv` | src/dualeai/_circuit_breaker.py:91-149 | one admission or completion keeps the invariant on generations, the single probe and the failure counter |
| `CircuitBreaker.Reachable` | src/dualeai/_circuit_breaker.py:91-149 | in every interleaving: generations never decrease, no attempt is current while open, exactly one uncompleted attempt is current while half-open, and the counter is the trailing run of failures below the threshold while closed, the threshold otherwise |
| `CircuitBreaker.LateCompletion` | src/dualeai/_circuit_breaker.py:110-116 | while not closed, no completion but the probe's changes anything |
| `CircuitBreaker.OpensExactly` | src/dualeai/_circuit_breaker.py:117-129 | a closed breaker opens exactly when the trailing run of counted failures reaches the threshold |
| `CircuitBreaker.ClosesExactly` | src/dualeai/_circuit_breaker.py:118-123 | a breaker that is not closed closes exactly by the success of the probe in flight; then nothing is counted and tasks are admitted at once |
| `CircuitBreaker.ProbeOutcome` | src/dualeai/_circuit_breaker.py:131-149 | a failed probe keeps tasks out for the recovery timeout, a neutral one keeps none out |
| `CircuitBreaker.AdmitsExactly` | src/dualeai/_circuit_breaker.py:91-108 | closed, every task is admitted with the current generation; otherwise exactly when the gate has passed, as the only probe of a new generation |
| `CircuitBreaker.ThresholdOpens` | src/dualeai/_circuit_breaker.py:124-129 | as many outstanding attempts as failures are missing, failing in any order, open the breaker for the recovery timeout |
| `CircuitBreaker.VerdictExactly` | src/dualeai/_circuit_breaker.py:71-89 | what counts as success, failure or nothing, by mark and exit |
| `CircuitBreaker.RejectionBound` | src/dualeai/_circuit_breaker.py:96-101 | every rejection names a wait in (0, recovery timeout] |
| `CircuitBreaker.ProbesSpaced` | src/dualeai/_circuit_breaker.py:104-108 | while never closed and with no probe left neutral before its time is over, probe admissions are at least the recovery timeout apart |
| `CircuitBreaker.ProbeRate` | src/dualeai/_circuit_breaker.py:104-108 | in such a stretch, probes within a window number at most floor(window / timeout) + 1 |
| `CircuitBreaker.EarlyIgnoredProbes` | src/dualeai/_circuit_breaker.py:131-136 | wherever a probe is admitted, leaving it neutral before its time is over lets a second one in less than the timeout later |
| `TaskRunner.CountsExactly` | src/dualeai/sdk.py:1306-1324 | only a completed task counts as a success; only a retryable error event or a connection error not called permanent counts as a failure |
| `TaskRunner.TerminalOutcomes` | src/dualeai/sdk.py:1316-1325 | each terminal event is its own outcome |
| `TaskRunner.ActKeepsInv` | src/dualeai/sdk.py:1287-1374 | one action of a runner or its caller keeps the books |
| `TaskRunner.AdmissionAccounting` | src/dualeai/sdk.py:1287-1374 | over every interleaving each admission future is settled at most once, nothing runs unadmitted, no attempt is left open but by a running task, and admitted tasks are exactly those completed, failed, stopped or running |
| `TaskRunner.CallerHeeded` | src/dualeai/sdk.py:1293-1294 | a task whose caller gave up before admission never starts, in any continuation |
| `TaskRunner.FailedStreamCounts` | src/dualeai/events/client.py:76-80 | exactly the endings of a stream that count as failures: a server error not called permanent, an unreadable stream, one without a terminal event |
| `TaskRunner.RunAdmitted` | src/dualeai/sdk.py:1297-1325 | connecting, streaming and classifying: a failed connection counts; a connected run ends with a terminal event of the log or as its last answer ended; against a bridge that never answers it is neutral after ten requests |
| `TaskRunner.OutageNeverOpens` | src/dualeai/sdk.py:1308-1314 | over every interleaving of runners whose streams spend their retry budget, a closed breaker stays as it was |
| `Preview.StreamingBuffers.OnDelta` | src/dualeai/sdk.py:1260-1264 | a delta goes to the queue and the replay list, which stays the rendering of all that was put |
| `Preview.StreamingBuffers.OnReset` | src/dualeai/sdk.py:1266-1270 | a reset is queued and empties the replay list |
| `Preview.StreamingBuffers.Drain` | src/dualeai/response.py:389-391 | the fast drain yields everything queued, in order, once |
| `Preview.StreamingBuffers.Replay` | src/dualeai/response.py:373-377 | a replay shows what a renderer that saw every event would show |
| `Preview.PreviewAgreement` | src/dualeai/response.py:389-407 | at every point of every interleaving, rendering the yielded events, then the one in hand, then the queue gives the replay list; a consumer that returned yielded every event once, in order |
| `Preview.ConsumerReturns` | src/dualeai/response.py:393-407 | once the work is over, the consumer can always step, and no other step keeps it from returning |
| `ServerClock.ServerClock.UpdateClockOffset` | src/dualeai/lifecycle.py:290-313 | a sample within 5 s sets the offset to the difference of the midpoints, a slower one changes nothing |
| `ServerClock.ServerClock.EstimatedServerTime` | src/dualeai/lifecycle.py:178-180 | the estimated time misses the true one by as much as the offset misses the true offset |
| `ServerClock.SampleError` | src/dualeai/lifecycle.py:309-311 | an accepted sample is within half its round trip and half a microsecond of the truth, and within 2.5 s |
| `ServerClock.HalfRoundTripExactly` | src/dualeai/lifecycle.py:309-311 | the half-round-trip bound holds for all possible true offsets exactly for the listed durations |
| `ServerClock.ClockError` | src/dualeai/lifecycle.py:290-313 | for any history with one accepted sample the estimate is within 2.5 s of the truth |
| `ServerClock.AttemptStartsInTime` | src/dualeai/sdk.py:754-756 | no tool attempt starts more than 2.5 s after its true deadline |
| `Lifecycle.LifecycleManager.BeginRegistration` | src/dualeai/lifecycle.py:204-218 | a registration reuses the publication id of the same manifest and takes a fresh one otherwise |
| `Lifecycle.LifecycleManager.AcceptRegistration` | src/dualeai/lifecycle.py:253-254 | an acknowledged registration is remembered by its hash |
| `Lifecycle.LifecycleManager.NeedsRegistration` | src/dualeai/lifecycle.py:281-288 | the choice of the next await in the step machine: a registration precedes the heartbeat exactly when the hash changed or a refresh is due |
| `Lifecycle.HeartbeatLoop` | src/dualeai/lifecycle.py:349-384 | the loop stops at the first moment when three failures, or two auth failures, of one kind came in a row, and at no other |
| `Lifecycle.PublicationsShareHash` | src/dualeai/lifecycle.py:204-218 | in every run, registrations with one publication id carry one hash, and repeating a registration repeats its id |
| `Lifecycle.NextKeepsBacked` | src/dualeai/lifecycle.py:386-427 | one step of start-up, loop or shutdown keeps the invariant behind backed heartbeats |
| `Lifecycle.BackedExactly` | src/dualeai/lifecycle.py:386-427 | in every run, with restarts, manifest changes and start-ups that their callers cancel, each heartbeat carries the hash of the latest acknowledged registration sent since the last deregistration, exactly when start-up and shutdown do not overlap |
| `Lifecycle.StartUpSucceeds` | src/dualeai/lifecycle.py:386-399 | an answered start-up, automatic or manual, registers the current manifest, sends a heartbeat of it and leaves the loop running |
| `Lifecycle.RegistrationFails` | src/dualeai/lifecycle.py:392 | a start-up whose registration fails withdraws nothing and can be tried again |
| `Lifecycle.FirstHeartbeatFails` | src/dualeai/lifecycle.py:393-397 | a start-up whose first heartbeat fails withdraws the registration if it reaches the bridge |
| `Lifecycle.BeatSucceeds` | src/dualeai/lifecycle.py:320-335 | an answered beat carries the manifest of the moment the loop woke, registered first if it changed or a refresh is due |
| `Lifecycle.BeatFails` | src/dualeai/lifecycle.py:359-384 | a failed beat ends the loop exactly when it is the second rejection or the third other failure in a row |
| `Lifecycle.CancelledStartCloses` | src/dualeai/lifecycle.py:129-132 | a start-up cancelled by its caller takes nothing back, and the next shutdown deregisters |
| `Lifecycle.ShutdownExactly` | src/dualeai/lifecycle.py:401-427 | a shutdown of a registered process gets through, deregistering if it reaches the bridge, exactly when no automatic start-up failed and the loop did not die; otherwise it sends and changes nothing |
| `Lifecycle.ShutdownUnregistered` | src/dualeai/lifecycle.py:403-404 | a process that never registered shuts down without a word |
| `Lifecycle.DeadLoopReached` | src/dualeai/lifecycle.py:359-384 | a run from the beginning, without overlap, to a registered process with a dead loop |
| `Lifecycle.FailedStartupReached` | src/dualeai/lifecycle.py:105-107 | a run from the beginning to a failed automatic start-up followed by a heartbeat loop that a manual start created |
| `Lifecycle.DeadLoopFreezes` | src/dualeai/lifecycle.py:410-427 | once the loop of a started process died, with no start-up or shutdown under way, nothing is ever sent again, a deregistration included |
| `Lifecycle.DeadLoopIsFinal` | src/dualeai/lifecycle.py:410-427 | without overlap every dead loop that a run reaches is of that kind |
| `Lifecycle.FailedStartupBlocksClose` | src/dualeai/lifecycle.py:410-427 | once an automatic start-up failed, no shutdown gets past it |
| `CanonicalJson.BytesIdentifyValue` | src/dualeai/_canonical.py:19-37 | only a non-finite number has no bytes, and two values have the same bytes exactly when they are equal up to negative zero and key order |
| `CanonicalJson.BytesReadBack` | src/dualeai/_canonical.py:29-37 | a JSON reader gives the value back from its bytes, with nothing left over |
| `CanonicalJson.HasBytesExactly` | src/dualeai/_canonical.py:36 | the values without bytes are those with a NaN or an infinity somewhere in them |
| `CanonicalJson.BytesAscend` | src/dualeai/_canonical.py:24-33 | the value read from the bytes has its keys in ascending code-point order, said without the sort, and no negative zero, at every level |
| `CanonicalJson.ReadPrinted` | src/dualeai/_canonical.py:31-37 | what is printed is read back exactly, whatever follows it |
| `CanonicalJson.ReadEscape` | src/dualeai/_canonical.py:35 | every escape means its code unit under section 7 of RFC 8259, and none looks like the closing quote |
| `CanonicalJson.EscapeIsShortest` | src/dualeai/_canonical.py:35 | every escape is the shortest printable ASCII that spells its code unit, and the only such one in lower case |
| `CanonicalJson.Punctuation` | src/dualeai/_canonical.py:34 | the fixed texts of JSON and of the two zeros |
| `CanonicalJson.LiteralExactly` | src/dualeai/_canonical.py:35 | any two Python strings print alike exactly when they have one UTF-16 form |
| `CanonicalJson.SurrogatesCollide` | src/dualeai/_canonical.py:35 | two different strings with the same bytes |
| `CanonicalJson.SortSorted` | src/dualeai/_canonical.py:33 | sorting keeps every key, once and with its value, and puts the keys in the order of the key comparison |
| `CanonicalJson.ManifestIdentified` | src/dualeai/lifecycle.py:197-202 | with unique names the manifest bytes are equal exactly when the name-to-tool mappings are, so registration order means nothing and any change shows |
| `CanonicalJson.ManifestAscends` | src/dualeai/lifecycle.py:199-201 | the manifest bytes are one array with exactly the registered tools, in ascending order of their names |
| `Uploads.StreamFilePart` | src/dualeai/attachments.py:199-214 | whatever the read sizes, the chunks join to the part of the file and none exceeds 64 KB |
| `Uploads.UploadPart` | src/dualeai/attachments.py:241-292 | every attempt sends the whole part; the first answer that is not retryable decides, and five retryable ones exhaust it |
| `Uploads.SettledByStatus` | src/dualeai/attachments.py:262-286 | by status: connection errors, 500, 502, 503 and 504 are tried again and nothing else; a 200 with an ETag is the part |
| `Uploads.ComputeContentSha256` | src/dualeai/attachments.py:217-230 | the streamed digest is that of the whole file, whatever the read sizes |
| `Uploads.Reassembly` | src/dualeai/attachments.py:370-381 | for any plan that tiles the file by part number and any store that holds its parts, the sorted references assemble to the file |
| `Uploads.UploadDocument` | src/dualeai/attachments.py:344-387 | in whatever order concurrent parts finish, the upload succeeds exactly when every part does, and then lists the parts by number, assembles to the whole file and carries its digest |
| `Uploads.ValidatePreparedAttachments` | src/dualeai/attachments.py:177-196 | reports the first problem of the first attachment with one, and otherwise the keys are distinct |
| `Uploads.ValidExactly` | src/dualeai/attachments.py:177-196 | nothing is wrong exactly when keys differ and every path is a regular, non-empty file of the prepared size |
| `Uploads.ProblemNames` | src/dualeai/attachments.py:181-196 | which problem is named for which state |
| `Uploads.SharedWork.TakeNext` | src/dualeai/attachments.py:399-403 | the shared iterator hands out the next attachment or ends |
| `Uploads.SharedWork.StoreReceipt` | src/dualeai/attachments.py:404-410 | a receipt goes into the slot of its own attachment |
| `Uploads.NextKeepsInv` | src/dualeai/attachments.py:390-410 | one step of a worker keeps every attachment with the one worker that took it, and the receipts equal to what uploads returned |
| `Uploads.BatchProgress` | src/dualeai/attachments.py:399-410 | every act of a worker uses up work, so a batch ends |
| `Uploads.FirstFailureStays` | src/dualeai/attachments.py:99-105 | the failure of a batch is the first one |
| `Uploads.DrainEnds` | src/dualeai/attachments.py:101-105 | cancelling the siblings after a failure ends the batch and keeps its receipts |
| `Uploads.CollectReceipts` | src/dualeai/attachments.py:443-456 | the end of a batch: all receipts by key, the partial report of an upload error, or the other error |
| `Uploads.BatchResult` | src/dualeai/attachments.py:422-456 | for every interleaving no attachment is uploaded twice, success maps every key to its own receipt, a failure reports exactly the receipts filled, and no worker exits without one |
| `Cache.SqliteCache.Get` | src/dualeai/cache.py:489-504 | a valid key reads its live row, an invalid one is an error |
| `Cache.SqliteCache.Set` | src/dualeai/cache.py:506-525 | replaces the row, with no expiry for an absent or zero ttl |
| `Cache.SqliteCache.Delete` | src/dualeai/cache.py:527-534 | removes the row of a valid key |
| `Cache.SqliteCache.Clear` | src/dualeai/cache.py:536-542 | removes exactly the rows that the tenant's pattern matches |
| `Cache.SqliteCache.CleanupExpired` | src/dualeai/cache.py:544-568 | keeps exactly the live rows and counts the others |
| `Cache.MockCache.Get` | src/dualeai/cache.py:617-634 | reads a live row and deletes a dead one |
| `Cache.MockCache.Set` | src/dualeai/cache.py:636-661 | stores the row; when too many, evicts the first tenth by expiry and, among equal expiries, by insertion order |
| `Cache.MockCache.Delete` | src/dualeai/cache.py:663-668 | removes the row of a valid key |
| `Cache.MockCache.CleanupExpired` | src/dualeai/cache.py:670-678 | keeps exactly the live rows and counts the others |
| `Cache.MockCache.Clear` | src/dualeai/cache.py:680-684 | removes exactly the rows with the tenant's prefix |
| `Cache.StoreRecalls` | src/dualeai/cache.py:489-684 | whatever clean-ups and reads deleted, a read no earlier than any operation returns what the history of writes alone says, for either backend's boundary test, or nothing exactly when the mock evicted the key since its last write |
| `Cache.NextRecalls` | src/dualeai/cache.py:489-684 | what each single operation does to each later read |
| `Cache.ReadAfterSet` | src/dualeai/cache.py:498-519 | a value is read back up to its expiry: exclusive in SQLite, inclusive in the mock; without a lifetime for ever, or 36500 days |
| `Cache.ReadDeletesDead` | src/dualeai/cache.py:626-630 | a read deletes a dead row of the mock and nothing else |
| `Cache.CleanupUnobservable` | src/dualeai/cache.py:544-568 | dropping every clean-up from a history changes no read that is no earlier than it, as long as the mock never overflows without them |
| `Cache.CleanupObservableExactly` | src/dualeai/cache.py:655-678 | for histories with the same writes, overflows included, a read differs exactly when there is something to read and one of them evicted the key |
| `Cache.CleanupsShrink` | src/dualeai/cache.py:670-678 | a mock that never overflows without clean-ups never overflows with them and holds no other rows |
| `Cache.CleanupBeforeSet` | src/dualeai/cache.py:655-661 | cleaning up before a set is observable exactly when the set overflows and evicts more rows than are dead |
| `Cache.Capacity` | src/dualeai/cache.py:655-661 | the mock never holds more than its limit after any history |
| `Cache.ScopedApart` | src/dualeai/cache.py:98-107 | scoped keys of two colon-free tenants never meet |
| `Cache.ClearTouches` | src/dualeai/cache.py:536-542 | without wildcards, clearing a tenant touches exactly the tenants whose ids differ in case only |
| `Cache.IsolatedExactly` | src/dualeai/cache.py:489-568 | no operation of a tenant changes another tenant's reads of a shared table exactly when its id has no ASCII letter and no wildcard |
| `Cache.MockClearsExactly` | src/dualeai/cache.py:680-684 | the mock's clear touches no other colon-free tenant |
| `Cache.ClearsOwn` | src/dualeai/cache.py:536-542 | clearing a tenant clears all its own keys, whatever characters its id has |
| `Cache.ValidKeyExactly` | src/dualeai/cache.py:118-134 | the accepted keys: 1 to 250 characters, no line break or NUL, no two dots in a row, no slash at the start |

## Assumptions

- The bridge is a log of events with strictly increasing cursors that answers honestly: what arrives is a piece of the
  replay after the requested cursor, cut at any byte, possibly with a frame whose checksum does not match. For the claim
  that nothing is missing at the end, it ends a response normally only after the whole replay. A frame damaged so that its
  checksum still matches, or so that it no longer has the layout, is outside this. In particular ids arrive intact: the
  checksum covers the event name and the data but not the id (`SseLayout.IdUnprotected`), and the cursor is an id.
- CRC32, JSON decoding and envelope validation in the stream are arbitrary functions; a manifest is represented by its
  hash, and fresh identifiers by a counter.
- Task ids of live tasks are distinct, one consumer streams a response, and cancellation reaches a runner only after its
  first step.
- Deadlines of redeliveries of one tool use never grow.

## Left out

- HPKE sessions, TLS, aiohttp, Redis, the SQLite engine and telemetry: their outcomes are parameters. The Redis backend
  and the cleanup loop's timing are not modelled.
- `parse_sse_stream` and `_stream_request` are lazy generators; here a stream is the list of its events with an ending,
  and a caller that closes it early is the `stop` parameter. Timestamps on events and `RecursionError` from nested JSON
  are not modelled.
- The waits between attempts of a stream request and of a part upload: only the number of attempts is modelled.
- The text of the request bodies, headers other than `Last-Event-ID`, and trace context.
- The bound on concurrently running tools (a semaphore) only delays executions; the step machine allows any number.
- A synchronous tool that its deadline abandons goes on in its thread; the model ends the attempt at the deadline.
- Tool arguments, results and error texts, and the retries of a failed result submission.
- Counters of consecutive rejections and of submissions.
- An SDK without an agent id sends no lifecycle messages; the model is of one with an agent id. Cancelling `aclose()`
  itself is not modelled, and a cancelled automatic start-up stops at once.
- A registration whose acknowledgement was lost counts as not acknowledged, although the bridge may have applied it.
- The semaphore on part uploads only delays them; the Library calls around an upload are left out, and after a failed part
  nothing is said about parts still under way.
- Values in the cache are opaque text; serialization is not modelled, and jitter is a parameter.
- Library record operations, configuration, decorators, the orchestrator, response validation and the generated schemas:
  no protocol state of their own.
