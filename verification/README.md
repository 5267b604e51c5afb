# Verified model of the ModSecurity IIS connector

ModSecurityIIS is a native IIS module that feeds each request and response to a
libModSecurity transaction and applies the interventions the rules ask for. This
project models its stateful parts in Dafny and proves what they promise:

- **The entity-body reader.** Reads of the request body may complete inline or on
  another thread; one interlocked state field decides who owns the body.
  `BodyReader.dfy` holds the methods as the module runs them on one thread, over
  the mutable stored context. `BodyProtocol.dfy` holds the same code as a transition
  system over any number of threads. An action is one shared access or one IIS call,
  except that EnterBody, ApplyStopConditions (the tests and the store of BRS_DONE) and
  FinishBody (allocation, insertion, engine calls, replacement of the response) each group
  several accesses. That loses no interleaving that matters: only the owner of the body
  phase writes what they touch, and other threads merely test the transaction pointer and
  try a compare-and-swap that fails before, during and after them.
  `BodyTheorems.dfy` proves what every interleaving guarantees: exclusive ownership, no
  lost completion, refinement of the synchronous loop (and its converse),
  conservation of the bytes, termination. `BodyReturns.dfy` says what each thread hands
  back to IIS, and `BodyDrain.dfy` what a drained body is, independent of how the reads
  are issued.
- **The response phases and the transaction's life.** `ResponseBody.dfy` has the
  bounded chunk and file loops, `ResponsePhase.dfy` has OnSendResponse,
  `RequestPhase.dfy` has OnBeginRequest, `StoredContext.dfy` has the per-request object,
  the intervention helper and FinishRequest. `Lifecycle.dfy` puts them together into
  whole request runs, exceptions included. `RequestTheorems.dfy` says call by call what
  the engine is given of a request, `ResponseTheorems.dfy` proves phase order and the
  safety of replacing a response, `ResponseRulings.dfy` says when one is replaced in terms
  of the configuration and the engine's answers, and `ResponseExamples.dfy` has a run for
  each of the cases in which the safety fails.
- **The connector's globals.** `RulesCache.dfy` models the two-section locked cache
  under concurrency, `LogThrottle.dfy` the log window. `ContentLength.dfy` covers the
  declared length and the inspection cap.

The engine (`Engine.dfy`) is an object that records its calls and answers arbitrarily;
only its rule-engine mode is restricted: it changes inside process* calls alone. Threads,
IIS, files and the client are arbitrary too. Methods that change state are specified by
functions on the values the state stands for; the theorems are about those functions.

## Assumptions about IIS

- Each of our own pended reads completes exactly once. This is the guard of the action
  `CompleteOwn`.
- While our read is pending, no foreign completion of the same request is swapped
  in. This is `Config.pipelineHeld`; `ExclusiveIffPipelineHeld` shows that the protocol is
  exclusive exactly under this assumption.
- `IHttpContext::GetRequest` is stable and never null, and no response notification
  arrives while RQ_BEGIN_REQUEST is pended.

## Where the code gives less than its comments

The model follows the code.

- The clamp of the inspection cap to 0xFFFFFFFF does not make the DWORD casts exact: the
  last read may overshoot the cap. `CastsExactIff` gives the exact bound, 0xFFFF0000.
- A changed write time does not invalidate a cached rule set (src/connector.h:19-20 says it
  does): `ChangedFileIsIgnored`, `CacheIsWriteOnce`.
- The 64-bit sum that clamps a file range can wrap around, and then the inspection cap
  does not hold: `ClampIsRightIff` for the clamp,
  `NoOverflowIff` for the whole loop, `OverflowPassesCap` for an instance.
- A Content-Length text of more than 31 characters is cut before it is parsed:
  `LongTextsAreMisreadIff` says for which texts that matters, `LongTextCounterexample`
  gives one.
- A response can be replaced after part of it was let go: after a notification without a
  raw view, or after one that threw past its header phase and so skipped its downgrade to
  inspect-only. `LateReplacementIff` says exactly when, `InvisibleThenReplaced` and
  `ExceptionSkipsDowngrade` give such runs.
- An exception inside the header phase leaves the headers unmarked, and the next
  notification feeds them to the engine a second time: `PhaseOrder` says exactly when,
  `HeadersFedTwice` gives such a run.
- An exception in updateStatusCode leaves a replaced response with a live transaction,
  and a later phase may replace it again: `TransactionLifecycle` says exactly when,
  `ReplacedTwice` gives such a run. The exception policy may also turn the replaced
  response into a 500: `SentStatusIsReported`.
- The Content-Length that OnSendResponse sets is too small when a chunk was skipped or
  could not be read: `ContentLengthIsExact`.

## Model

| member | source | states |
|---|---|---|
| ContentLength.FromChars | src/ModSecurityIIS.cpp:684-687 | the parse loop finds the longest digit prefix and its value, or that there is none, or that it exceeds 64 bits |
| ContentLength.GetEntityBodyInfo | src/ModSecurityIIS.cpp:649-693 | a body is announced for more-body requests with unknown length, and otherwise exactly for a kept Content-Length text that is 1*DIGIT and denotes 1 to 2^64-1 |
| ContentLength.GetMaxInspectBodyBytes | src/ModSecurityIIS.cpp:195-223 | the cap is the configured positive number clamped to 32 bits, else 1 MiB, and always between 1 and 0xFFFFFFFF |
| ContentLength.PrintedLengthIsReported | src/ModSecurityIIS.cpp:674-691 | every length from 1 to 2^64-1 survives printing, copying into the 32-byte buffer and parsing |
| ContentLength.DeclaredExactlyPrintedNumbers | src/ModSecurityIIS.cpp:684-691 | the accepted texts are exactly the printed 64-bit numbers, with any leading zeros |
| ContentLength.LongTextsAreMisreadIff | src/ModSecurityIIS.cpp:676-691 | the declared length is reported for every text, except exactly those over 31 characters whose first 31 are digits denoting a length in range, or zero with digits denoting a length in range behind them |
| ContentLength.LongTextCounterexample | src/ModSecurityIIS.cpp:676-683 | a 32-character text for length 10 is reported as length 1 |
| StoredContext.RequestContext.constructor | src/ModSecurityIIS.h:30-36 | a new context owns its transaction and has read, fed and evaluated nothing |
| StoredContext.RequestContext.FinishRequest | src/ModSecurityIIS.h:56-79 | a live transaction is logged once and released with its rules, also when logging throws and leaks it; a released one is left alone |
| StoredContext.ApplyIntervention | src/ModSecurityIIS.cpp:481-564 | exactly a disruptive intervention that may block replaces the response, reports its status, marks the request handled and finishes the transaction; if the report throws, the response is replaced but the transaction stays; otherwise the response is untouched |
| StoredContext.ReportedStatusIsSent | src/ModSecurityIIS.cpp:531-559 | the status sent equals the status reported exactly for redirects and for statuses below 65536 |
| BodyDrain.DrainBounds | src/ModSecurityIIS.cpp:831-864 | a drain makes at most as many reads as its mark (the cap, or the declared length if smaller) and holds less than one chunk beyond it, however long the stream |
| BodyDrain.CastsExactIff | src/ModSecurityIIS.cpp:213-219 | the DWORD casts of the body size are exact in every drain if and only if the mark is at most 0xFFFF0000 |
| BodyDrain.ContinueForwardsIff | src/ModSecurityIIS.cpp:880-895 | the handler then reads drained bytes and remainder in order, exactly when the drained size fits a DWORD |
| BodyDrain.EngineReceivesInspected | src/ModSecurityIIS.cpp:925-937 | the engine is given exactly the first cap bytes of what was drained, unless re-insertion failed |
| BodyDrain.InspectionIndependentOfChunkingIff | src/ModSecurityIIS.cpp:802-864 | every honest drain of an entity inspects its first min(length, cap) bytes if and only if the declared length is unknown or at least that large |
| BodyReader.EntityStream.ReadEntityBody | src/ModSecurityIIS.cpp:749-772 | a read completes inline with any bytes off the front of the stream and any HRESULT, or, in asynchronous mode only, pends |
| BodyReader.FinishBodyRead | src/ModSecurityIIS.cpp:867-965 | context, downstream stream and status are those of the body phase on the drained bytes; without a block the response status becomes 500 exactly when a drained body was not restored and no engine call threw, and is otherwise untouched |
| BodyReader.RuleOnBody | src/ModSecurityIIS.cpp:950-964 | a block, or a throw while it is reported, finishes the request with the replaced response; otherwise an unrestored body finishes it with 500 |
| BodyReader.ConsumeBodyChunk | src/ModSecurityIIS.cpp:796-865 | a chunk is appended and either the drain goes on open or it is complete, BRS_DONE is stored and the body phase has run |
| BodyReader.IssueRead | src/ModSecurityIIS.cpp:749-785 | BRS_READ_PENDING is stored exactly when the read stays pending |
| BodyReader.PumpBodyRead | src/ModSecurityIIS.cpp:735-794 | the pump ends: with PENDING and an open drain, or with the body phase run on a complete drain |
| BodyReader.BeginBodyRead | src/ModSecurityIIS.cpp:695-733 | the announced body and its declared length are those of the request; without a body the body phase runs on no bytes and no read is made, otherwise the pump runs with the declared length |
| BodyReader.OnAsyncCompletion | src/ModSecurityIIS.cpp:1284-1356 | a completion that finds no transaction or another state changes nothing; the claimed one continues the drain |
| BodyReader.ServeBody | src/ModSecurityIIS.cpp:695-865 | in either read mode the body phase terminates and is the body phase on a complete drain of the entity |
| BodyProtocol.ApplyKeepsInv | src/ModSecurityIIS.cpp:735-865 | every action of every thread keeps the protocol invariant |
| BodyProtocol.ReachableInv | src/ModSecurityIIS.cpp:1284-1356 | the invariant holds in every reachable state of every interleaving |
| BodyTheorems.ExclusiveOwnership | src/ModSecurityIIS.cpp:716-785 | at most one read is outstanding, at most one thread is at m_Body or m_ReadBuf, from their preparation to FinishBodyRead, and none while a read is outstanding |
| BodyTheorems.ExclusiveIffPipelineHeld | src/ModSecurityIIS.cpp:1274-1278 | this holds in all interleavings if and only if no foreign completion is swapped in while our read is pending |
| BodyTheorems.ForeignCompletionIntrudes | src/ModSecurityIIS.cpp:1317-1325 | without that assumption a foreign completion reaches m_Body during our read |
| BodyTheorems.OwnedByOne | src/ModSecurityIIS.cpp:753-779 | an unfinished body phase belongs to exactly one thread or exactly one outstanding read |
| BodyTheorems.OutstandingIsPublished | src/ModSecurityIIS.cpp:753-764 | while a read is outstanding the state is BRS_READ_PENDING and the transaction is live |
| BodyTheorems.ClaimsAreSound | src/ModSecurityIIS.cpp:1310-1325 | our completion is always claimed; a foreign one changes nothing |
| BodyTheorems.NeverStalls | src/ModSecurityIIS.cpp:1339-1342 | an unfinished body phase can always proceed without foreign help |
| BodyTheorems.FinishRunsOnce | src/ModSecurityIIS.cpp:815-863 | FinishBodyRead runs at most once, and exactly once when the phase ended without an exception |
| BodyTheorems.NothingAfterTheEnd | src/ModSecurityIIS.cpp:1317-1325 | after the final status no continuation issues a read, publishes a pending state, calls the engine or touches the body |
| BodyTheorems.SyncLoopDrains | src/ModSecurityIIS.cpp:765-793 | the synchronous loop stops at the last of its reads exactly for complete drains |
| BodyTheorems.AsyncRefinesSync | src/ModSecurityIIS.cpp:745-793 | every exception-free interleaved run ends with the body, engine calls, stream and status of the synchronous loop on the same read results |
| BodyReturns.StatusesReturned | src/ModSecurityIIS.cpp:1284-1356 | over every run, the thread that ends the notification returns its final status, never PENDING; a thread whose read pended returns PENDING; any other returning thread carried an unclaimed completion and returns CONTINUE |
| BodyReturns.LoopStatusIsReturned | src/ModSecurityIIS.cpp:788-791 | every exception-free run that ended has one thread that returned to IIS the status of the synchronous loop |
| BodyReturns.ReadsFollowOnlyOpenReads | src/ModSecurityIIS.cpp:815-864 | over every run, no read follows one that was empty, failed, carried the end-of-file code, or reached the declared length or the cap, and the reading stops for no other reason |
| BodyTheorems.EveryDrainIsRealised | src/ModSecurityIIS.cpp:735-865 | every synchronous drain is the outcome of an interleaved run, for every choice of pending reads, even if no issuer ever gets to return |
| BodyTheorems.BytesConserved | src/ModSecurityIIS.cpp:802-806 | before the end, m_Body, the bytes in flight and the unread remainder make up the original entity |
| BodyTheorems.FinalOutcome | src/ModSecurityIIS.cpp:867-965 | a phase that ended is FinishBodyRead on what was drained, with BRS_DONE stored if a body was announced, or an exception that ends the request and leaves the context alone |
| BodyTheorems.HandlerReadsWholeEntity | src/ModSecurityIIS.cpp:885-964 | when the phase continues, the handler reads the whole entity exactly when the drained size fits a DWORD, always so for marks up to 0xFFFF0000; nothing unrestored continues |
| BodyTheorems.HandlerReadsWholeEntityIff | src/ModSecurityIIS.cpp:880-895 | over all entities and runs, every request that continues gives the handler the whole entity if and only if the mark is at most 0xFFFF0000 |
| BodyTheorems.EngineReceivesPrefix | src/ModSecurityIIS.cpp:925-937 | the engine receives exactly the first min(length, cap) bytes of the entity however the reads split it and whichever pended |
| BodyTheorems.ReadsAreBounded | src/ModSecurityIIS.cpp:831-864 | at most mark reads are ever issued and m_Body stays less than one chunk above the mark |
| BodyTheorems.RunsAreFinite | src/ModSecurityIIS.cpp:747-793 | a run has at most 9 * mark + 3 actions plus three per foreign completion |
| BodyTheorems.BodyPhaseCanEnd | src/ModSecurityIIS.cpp:1339-1342 | from every reachable unfinished state the body phase goes on to its final status without foreign completions, in no more actions than the work that is left |
| RequestPhase.OnBeginRequest | src/ModSecurityIIS.cpp:1087-1236 | the request phases run in order on a new transaction, which is given the request's headers once and first; a block ends the request, and otherwise the body phase begins on that context |
| RequestTheorems.EngineReceivesHeaders | src/ModSecurityIIS.cpp:1111-1219 | over every run in which the request was looked at, the transaction begins with processConnection, processURI, exactly the request's headers, processRequestHeaders and the first intervention read, and none of these four calls comes again |
| RequestTheorems.BeginOpens | src/ModSecurityIIS.cpp:1219-1223 | the request is blocked there exactly when the engine disrupts after these four calls |
| RequestTheorems.BodyIsProcessed | src/ModSecurityIIS.cpp:925-937 | over every run whose body phase got to its check, the inspected bytes, processRequestBody and the intervention read come right after the opening, and no later call belongs to the request |
| RequestTheorems.BodyOpens | src/ModSecurityIIS.cpp:937-953 | the body phase blocks exactly when the engine disrupts after processRequestBody |
| RequestTheorems.BeginThrowsArePrefixes | src/ModSecurityIIS.cpp:1241-1253 | an exception leaves the first calls of the opening, one in the status report all but processLogging |
| RequestTheorems.BodyThrowIsPrefix | src/ModSecurityIIS.cpp:938-949 | an exception in the body phase leaves the first of the calls made without it |
| ResponseBody.StreamRange | src/ModSecurityIIS.cpp:405-421 | the ReadFile loop appends the pieces the file delivers and counts their bytes |
| ResponseBody.AppendResponseFileChunk | src/ModSecurityIIS.cpp:374-425 | the bytes counted are the bytes appended, for every outcome of duplicating, seeking, sizing and reading |
| ResponseBody.InspectChunk | src/ModSecurityIIS.cpp:1514-1546 | one chunk adds its pieces to the engine and their size to the counter |
| ResponseBody.InspectChunks | src/ModSecurityIIS.cpp:1510-1553 | the chunk loop feeds exactly the inspected pieces in order |
| ResponseBody.FilePiecesCover | src/ModSecurityIIS.cpp:406-421 | however short its reads, a readable range is appended whole, up to the end of the file |
| ResponseBody.RangeIsAppended | src/ModSecurityIIS.cpp:374-425 | a range is appended whole, up to the end of the file, if its file can be duplicated, positioned, read and, for a to-EOF range, sized; without duplicating or positioning nothing is |
| ResponseBody.ClampIsRightIff | src/ModSecurityIIS.cpp:1530-1538 | the clamp leaves at most the room below the cap exactly when the 64-bit sum does not wrap |
| ResponseBody.NoOverflowIff | src/ModSecurityIIS.cpp:1510-1553 | after all chunks that cannot wrap, one more file range leaves the counter within the cap if and only if its length is to-EOF or below 2^64 - cap, or its file delivers nothing |
| ResponseBody.OverflowPassesCap | src/ModSecurityIIS.cpp:1535-1538 | a wrapping length makes twelve bytes pass a cap of four |
| ResponseBody.InspectionIsBounded | src/ModSecurityIIS.cpp:1510-1553 | without such lengths the counter is the number of bytes fed and never exceeds the cap, whatever the files do |
| ResponseBody.InspectsExactPrefix | src/ModSecurityIIS.cpp:1510-1553 | the engine is fed exactly the first min(total, cap) bytes of the memory and file chunks |
| ResponseBody.BelowCapIsTotal | src/ModSecurityIIS.cpp:1512-1546 | a counter below the cap is at most the length of the body, and equal to it, with every byte fed in order, exactly when no chunk was skipped or could not be read, for all range lengths, wrapping ones included |
| ResponsePhase.RunHeaderPhase | src/ModSecurityIIS.cpp:1424-1501 | response headers are fed once and may block only when response blocking is enabled |
| ResponsePhase.EvaluateBody | src/ModSecurityIIS.cpp:1591-1593 | phase 4 is marked evaluated and run; without the power to block it never touches the response |
| ResponsePhase.RunBodyPhase | src/ModSecurityIIS.cpp:1509-1618 | inspection, Mode A or the downgrade, Mode B, and the Content-Length header come out as specified |
| ResponsePhase.OnSendResponse | src/ModSecurityIIS.cpp:1384-1639 | one notification takes the context to its specified value, finishes the request exactly when it blocked, and sets Content-Length exactly when specified |
| ResponsePhase.SendResponseExceptionPolicy | src/ModSecurityIIS.cpp:1368-1382 | after an exception the request is failed with 500, a replaced response included, exactly when no response phase has started |
| ResponsePhase.ContentLengthIsExact | src/ModSecurityIIS.cpp:1576-1590 | a Content-Length it sets never exceeds the length of the body, and parses back to it exactly when no chunk was skipped or could not be read |
| Lifecycle.ReaderIsOneEvent | src/ModSecurityIIS.cpp:1231-1236 | for the transaction, any interleaved body phase that ended is one event of the request run |
| Lifecycle.AnswerIsAsked | src/ModSecurityIIS.cpp:531-559 | a plain intervention is answered with its own status, or 403 if it has none, and no location; one with a url with a redirect there, with its status for 301 and 303 to 308 and 302 otherwise; the client gets the status the engine is told when it is below 65536 |
| Lifecycle.TransactionLifecycle | src/ModSecurityIIS.h:38-79 | over every run, exceptions included, processLogging is the last call, comes at most once and exactly once if cleanup ran; the engine is told the statuses of the replaced responses in order, each response being the one its disruptive intervention asked for, up to a 500 of the exception policy; and at most one response is replaced if and only if the rules never block again after a block whose status report threw |
| Lifecycle.ReplacedTwice | src/ModSecurityIIS.cpp:556-563 | a block whose report throws at the request headers, followed by a block at the response headers, replaces two responses |
| Lifecycle.SentStatusIsReported | src/ModSecurityIIS.cpp:531-562 | over every run, with engine statuses below 65536, a replaced response carries the status given to updateStatusCode or 500, and always the former if and only if the exception policy never stopped one replaced with another status |
| Lifecycle.NoCallAfterLogging | src/ModSecurityIIS.cpp:1402-1407 | after logging, no continuation of the run calls the engine or replaces a response |
| ResponseTheorems.RunFlags | src/ModSecurityIIS.cpp:1424-1617 | over every run, exceptions included, the two flags of a live transaction record whether a notification got past the response headers and whether one ran phase 4, and after a completed visible one either phase 4 is done or blocking is off |
| ResponseTheorems.RunInOrder | src/ModSecurityIIS.cpp:1424-1501 | over every run, as long as headers were not fed again, the last call made is the one the flags allow, and a request held up by a throw in its header phase has its first headers |
| ResponseTheorems.PhaseOrder | src/ModSecurityIIS.cpp:1130-1501 | over every run, each process* call and each call that feeds one happens at most once and in phase order, so everything is fed before it is processed, if and only if no notification reaches the response headers after the first to do so threw there |
| ResponseTheorems.PhaseFourAtFirstFinalSend | src/ModSecurityIIS.cpp:1555-1617 | over every run, unless a block came first, a completed notification runs processResponseBody exactly when it is visible, has no MORE_DATA and no event before it ran phase 4, and its body was fed by then |
| ResponseTheorems.ReplacedIff | src/ModSecurityIIS.cpp:1427-1617 | over every run, a notification replaces the response exactly when no visible one has completed, blocking is enabled, and the rules object to the headers, if none threw past them, or, with no more data to follow and phase 4 not yet run, to the body |
| ResponseTheorems.ReplacementIsSafe | src/ModSecurityIIS.cpp:1558-1617 | over every run, a rule can replace the response only while no visible notification has completed, and past the header phase only if no more data follows |
| ResponseTheorems.OnlyFirstSendIsReplaced | src/ModSecurityIIS.cpp:574-585 | over every run with a raw view in every notification, only the first RQ_SEND_RESPONSE to complete can be replaced |
| ResponseTheorems.LateReplacementIff | src/ModSecurityIIS.cpp:1363-1425 | over every run, a replacement comes after part of the response was let go exactly when an earlier notification had no raw view or threw after its header phase, no visible one has completed, and the rules now block in the headers, if none threw past them, or in a first phase 4 |
| ResponseTheorems.EngineSeesBodyPrefix | src/ModSecurityIIS.cpp:1509-1553 | a visible notification that its headers do not block gives the engine exactly the first min(total, cap) bytes of its body, in every mode |
| ResponseTheorems.FailedReportReplacesIff | src/ModSecurityIIS.cpp:531-563 | a notification can end by a throwing status report exactly where, completing, it would replace the response |
| ResponseTheorems.PolicyStopsOnlyUncommitted | src/ModSecurityIIS.cpp:1363-1382 | over every run, an exception stops the response exactly when it struck in the header phase and no earlier notification got past one |
| ResponseRulings.ReplacesIff | src/ModSecurityIIS.cpp:574-585 | over every run, a notification replaces the response exactly when no visible one has completed, responseBodyBlock and response-body access are on, and the engine disrupts, with its mode On, after the response headers or, in a final notification before any phase 4, after the body |
| ResponseRulings.NeverBlocksUnlessOn | src/ModSecurityIIS.cpp:567-585 | with the mode never On, as in DetectionOnly, or response-body access or responseBodyBlock off, no run replaces a response in a response phase |
| ResponseRulings.ReplacementWasRuled | src/ModSecurityIIS.cpp:481-564 | over every run, a replacing notification ends with the read of a disruptive intervention, the report of the status it asks for, and processLogging, after processing the headers or the body with the mode On |
| ResponseRulings.BlockSwitchKept | src/ModSecurityIIS.cpp:1558-1564 | over every run, responseBodyBlock is as configured until a visible notification completes, and never on when configured off |
| ResponseRulings.EngineReceivesResponse | src/ModSecurityIIS.cpp:1430-1497 | the first notification to get there gives the engine exactly the response's headers and status, and reads the intervention whether or not it may act on it |
| ResponseRulings.PhaseFourIsRead | src/ModSecurityIIS.cpp:1591-1617 | the first final notification not blocked before runs phase 4 on its body and reads the intervention whether or not it may act on it |
| ResponseRulings.ThrowsArePrefixes | src/ModSecurityIIS.cpp:1623-1636 | a notification that throws has made just the first of the calls it would have made; one whose status report throws, all but processLogging |
| ResponseRulings.ContentLengthIsKept | src/ModSecurityIIS.cpp:1576-1579 | a Content-Length the response has already is kept unless a block clears it |
| ResponseRulings.ContentLengthIsSetIff | src/ModSecurityIIS.cpp:1555-1590 | a Content-Length is set exactly when the response has none, its headers are being sent, and a final notification that may block, before any phase 4, inspected some bytes, fewer than the cap, and is not blocked |
| ResponseExamples.ExceptionSkipsDowngrade | src/ModSecurityIIS.cpp:1368-1382 | a late replacement happens: an exception while a streaming response is inspected leaves blocking on, and the next notification replaces the response |
| ResponseExamples.InvisibleThenReplaced | src/ModSecurityIIS.cpp:1412-1425 | a late replacement happens without an exception: a response without a raw view goes out, and the next notification replaces it because of its headers |
| ResponseExamples.HeadersFedTwice | src/ModSecurityIIS.cpp:1430-1501 | a throw after feeding the response headers makes the next notification feed them again, out of order |
| RulesCache.RulesTable.InsertOrDiscard | src/connector.cpp:147-158 | the second lock section keeps an existing entry and inserts only a missing one |
| RulesCache.RulesTable.GetRules | src/connector.cpp:104-159 | with other threads running between its lock sections, a call returns the rule set cached when it ends, and nullptr only if its load failed and none was cached; for a file not cached before that is its own or another thread's for that file; and it loads unless the file is cached and cannot be dated or is unchanged |
| RulesCache.CacheIsWriteOnce | src/connector.cpp:147-158 | no continuation of any concurrent run changes or drops an entry, or an answer given |
| RulesCache.CallersAgree | src/connector.cpp:104-159 | any two rule sets returned for one file are the same object |
| RulesCache.LastKnownGood | src/connector.cpp:133-153 | once a load was cached, every call that settles later returns it, whatever later loads do |
| RulesCache.RulesComeFromTheirFile | src/connector.cpp:123-158 | over every run, a rule set cached or answered for a file was loaded by a call for that file, and a cached entry carries the write time that call saw |
| RulesCache.FilesShareNoRules | src/connector.cpp:123-158 | no rule set is ever answered for two files |
| RulesCache.OwnRulesAreAnswered | src/connector.cpp:154-158 | a call that has loaded rules and finds no entry caches and returns its own |
| RulesCache.LoadsAgainIff | src/connector.cpp:109-120 | over every run, a call loads exactly when its file has no entry or it sees another write time than the call that loaded the entry |
| RulesCache.ChangedFileIsIgnored | src/connector.cpp:109-153 | a call begun after a file was cached returns the cached rule set whatever write time it sees |
| LogThrottle.Throttle.ServerLogCallback | src/connector.cpp:60-87 | a message is written exactly when its window has room, and the window rolls with the tick |
| LogThrottle.IntervalBound | src/connector.cpp:30-35 | at most 100 * (1 + ceil(L / 1000)) messages are written with ticks in any interval of length L |
| LogThrottle.DroppedIff | src/connector.cpp:70-83 | a message is dropped exactly when a hundred were written since its window began, less than a second earlier |

## Left out

- COM configuration reading, the module factory, RegisterModule and the creation of the engine: plumbing.
- Failure to allocate or to install the stored context: the transaction is then released before any phase runs.
- Rule evaluation inside libModSecurity: replaced by arbitrary answers.
- Header translation, verbs, versions, addresses, URLs and reason phrases: flat tables and foreign calls; the loops of addRequestHeader and addResponseHeader calls are one recorded call each.
- Event-log texts, tracing and the once-per-process log flags.
- Null-pointer guards: on the request in BeginBodyRead, PumpBodyRead and FinishBodyRead (assumed stable and present), and on the HTTP context and completion info IIS passes in.
- Exceptions inside ApplyIntervention other than those of intervention() and updateStatusCode: the calls into IIS between them throw none.
- BodyDrain.ContinueForwardsIff: for a drained size beyond a DWORD the model re-inserts the truncated length; the memory copy past the truncated allocation (src/ModSecurityIIS.cpp:888-892) is undefined behaviour and not modelled.
- The file position shared by duplicated handles: a range is read from its start without interference.
- BodyReader.PumpBodyRead: its methods are free of allocation failures; exceptions of the reader are actions of the interleaved model.
- ResponsePhase.OnSendResponse: exceptions are events of the request runs (`SendThrows`, `HeaderReportThrows`, `PhaseFourReportThrows`), not outcomes of the method; the same holds for RequestPhase.OnBeginRequest (`BeginThrows`, `BeginReportThrows`).
- BodyTheorems.AsyncRefinesSync: stated for runs without an exception, because an exception ends the request before the loop does.
- ResponseBody.InspectsExactPrefix: the cap is per notification, as in the code, so nothing is said about the total over several notifications.
- Worker-process crashes, kernel-mode and fragment-cache content: outside what the module can see.
