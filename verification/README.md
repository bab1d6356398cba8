# Lumberjack: a verified model

Lumberjack writes application audit logs. Its clients wrap gRPC servers, build log requests, run
them through a chain of processors, and hand them to Cloud Logging or to a remote agent that runs
a chain of its own. This project models the parts with behaviour over whole runs and proves what
they promise. `dafny verify dfyconfig.toml` checks all of it.

- **Streams.** `StreamProtocol` says declaratively how the messages of a stream are paired in
  entries. `GoStream` is the Go wrapper at lock granularity, with a receiver, a sender and the
  handler interleaved; `GoStreamSafety` has what holds in every reachable state; `GoStreamTrace`
  relates whole calls and whole traces to the steps and to the pairing; `GoStreamWrapper` is the
  object itself; `StreamEntry` is the interceptor that puts it around a handler. `JavaStream`,
  `JavaStreamSafety` and `JavaStreamTrace` do the same for the Java interceptor at the granularity
  of its deque operations, audits and transmissions, and compare the two languages; `JavaSendOrder`
  has the order of its sends, `StreamFailure` compares the logs of failed streams, and `LogContent`
  reads the messages back from the requests that the client is given.
- **Pipeline.** `AuditErrors` has errors as wrap trees; `Pipeline` is `Client.Log` over arbitrary
  processors, which may behave differently at every call; `Remote` puts two clients one behind the
  other; `CloudLogging` is the last backend; `Processors`, `Config` and `AuditOpt` build the chain
  of a configuration and prove what reaches its first backend; `Unary` is the interceptor around
  a handler that may do anything.
- **Selection.** `Selection` is the longest-selector search; `Rules` and `JavaSelector` are its two
  users, with the Java memo.
- **Text and data.** `ServiceName` (a regular expression matched by backtracking), `JsonStruct`,
  `QueryFilter` (the tail command's query under the precedence Cloud Logging documents) and
  `Puller` (a collecting loop inside a retry).

Objects whose methods update them are classes here, proved against functions on values; what the
source promises is proved of those functions. A processor is a function of the moment of its call
and of the request, so that a statement for all processors covers every schedule of faults.

## What the proofs found

- The search for a rule does not always return the longest applicable one, as the comments of
  `rules.go` and `Selector.java` have it. A selector of exactly the method's length stops it, and
  hides a longer one that has more leading slashes (Go) or is the method followed by `*` (both).
  The lemmas give the exact condition.
- The comment in the Java interceptor (lines 181 to 187) allows for several queued requests. There
  is never more than one, under any interleaving.
- Under `AUDIT` the two languages differ: Java logs an entry for a request that another request
  follows, Go logs none. Otherwise they log the same.
- `Pull` keeps what a failed attempt had collected, so that an attempt that fails after its first
  entry leads to duplicates. The lemma says exactly when it is right.
- The comment on `UnaryInterceptor` says that it is fail-close; the code follows the configured
  mode, and so does the model. `Process` of the Cloud Logging processor is commented as
  synchronous; it is asynchronous in best-effort mode.
- A request that is pending when a Go stream handler returns is left out of the log, also when the
  handler fails, which adds an entry with the status and no message. Java logs the pending request
  of a failed stream with the status, but records no status when no request is pending. The two
  logs have the same requests exactly when none is pending.
- Java logs a response before it sends it on, but with several senders at once the responses may
  be sent on in another order than they were logged. The lemmas say exactly when they are not.

## Assumptions

- Each receive fills a message object of its own, as generated gRPC code does, and gRPC allows one
  receiver and one sender per stream. Java listener callbacks come one at a time; sends and closes
  may run beside them in any number. Where one sender at a time is meant, the lemma says so.
- A stream handler is any function from its context to the calls it makes, the baselines it writes
  and the error it returns; a handler that reacts to what its calls return is, in any one run, one
  of these.
- The handler leaves the payload of a log request in place; without one the Go code would
  dereference nil. Metadata, when present, has a field map.
- `LogContent` is about handlers that put no messages of their own in the baseline; what happens to a
  field that has one is in `Carries`.
- Strings are sequences of characters; what Go calls the length of a string is the length of that
  sequence. JSON numbers are reals.
- The principal lookup, JWT validation, regular expressions of the principal filter, the runtime
  lookup, the network, the clock and the transport are parameters, and may do anything.
- Proto enums are open: a mode or log type without a name is a value too.

## Model

| member | source | states |
|---|---|---|
| GoStreamSafety.Conservation | clients/go/pkg/audit/interceptor.go:298-382 | in every interleaving of receiver, sender and handler, under any conversion, Log and transport faults: requests swapped in = logged + pending + held by each side + dropped by a returned error (+ suppressed, only when the directive logs no requests), each swapped in once |
| GoStreamSafety.LoggedAtMostOnce | docs/grpc.md:234-236 | in every interleaving no request is in two entries, counting failed entries too |
| GoStreamSafety.LogBeforeSend | clients/go/pkg/audit/interceptor.go:374-381 | in every interleaving the delivered responses are, in order, a subsequence of those whose Log call had returned nil |
| GoStreamSafety.DeliveredWasAccepted | clients/go/pkg/audit/interceptor.go:374-381 | with a FAIL_CLOSE client whose processors keep the mode, every delivered response has a Log call that every processor accepted or a precondition stopped |
| GoStreamSafety.BaselineIsTheHandlers | clients/go/pkg/audit/interceptor.go:315-326 | nothing but the handler ever changes the baseline; a call in progress holds it as it was when the call was made |
| GoStreamSafety.EntriesAreSnapshots | clients/go/pkg/audit/interceptor.go:322-376 | each step adds at most one entry and changes none; the entry carries the baseline as left at its own call, the request in hand, and in SendMsg the response being sent, and no other message |
| GoStreamSafety.EveryCallCarries | clients/go/pkg/audit/interceptor.go:333-376 | in every interleaving each request handed to Log is the baseline of its entry with the messages of the entry in the request and response fields, from which they read back; a field whose message is absent is the baseline's, and nothing else changes |
| LogContent.GoLogReadsBack | clients/go/pkg/audit/interceptor.go:333-408 | over a whole stream the request fields handed to Log read back, in order, to the requests received but a pending one, and the response fields to the responses sent, by the text of the directive: both, requests only, or neither |
| LogContent.JavaLogReadsBack | clients/java-logger/library/src/main/java/com/abcxyz/lumberjack/auditlogclient/AuditLoggingServerInterceptor.java:263-276 | the same of the Java interceptor, where nothing throws |
| LogContent.PairLeavesOut | clients/go/pkg/audit/interceptor.go:402-408 | a directive that does not log requests, or responses, leaves them out of every entry |
| GoStream.StepBalances | clients/go/pkg/audit/interceptor.go:298-382 | every lock-granular step moves each request from one place to another, or brings in the one it swaps in |
| GoStream.RunConserves | clients/go/pkg/audit/interceptor.go:298-382 | the accounting of requests is an invariant of every run |
| GoStreamTrace.GoLogsThePairing | clients/go/pkg/audit/interceptor.go:322-408 | on any sequential trace, whatever Log returns, the entries are exactly the declared pairing, the held request is the pending one, nothing is lost, and exactly the cleared responses are delivered |
| GoStreamTrace.ErrorFreeTrace | clients/go/pkg/audit/interceptor.go:322-382 | when Log never fails, every response is delivered in order |
| GoStreamTrace.RecvIsARun | clients/go/pkg/audit/interceptor.go:322-346 | a whole RecvMsg is a schedule of lock-granular steps |
| GoStreamTrace.SendIsARun | clients/go/pkg/audit/interceptor.go:351-382 | a whole SendMsg is a schedule of lock-granular steps |
| GoStreamTrace.DriveIsARun | clients/go/pkg/audit/interceptor.go:322-382 | every sequential trace is a run of the interleaved machine, so all its invariants hold of it |
| GoStreamWrapper.ServerStreamWrapper.SwapLastReq | clients/go/pkg/audit/interceptor.go:298-304 | returns the pending request and puts the new one in its place |
| GoStreamWrapper.ServerStreamWrapper.PopLastReq | clients/go/pkg/audit/interceptor.go:306-312 | returns the pending request and leaves none |
| GoStreamWrapper.ServerStreamWrapper.SetReq | clients/go/pkg/audit/interceptor.go:384-391 | sets the request field iff the message converts, and otherwise changes nothing |
| GoStreamWrapper.ServerStreamWrapper.SetResp | clients/go/pkg/audit/interceptor.go:393-400 | sets the response field iff the message converts, and otherwise changes nothing |
| GoStreamWrapper.ServerStreamWrapper.LogOrphan | clients/go/pkg/audit/interceptor.go:333-343 | the request that was pending is logged alone, lost to a conversion error, or suppressed by the directive |
| GoStreamWrapper.ServerStreamWrapper.RecvMsg | clients/go/pkg/audit/interceptor.go:322-346 | the whole effect of RecvMsg on the wrapper, equal to the step machine; the shared baseline is outside its frame; nil iff nothing was lost and Log did not fail, and any other error once a message has arrived is an interceptor error |
| GoStreamWrapper.ServerStreamWrapper.FillEntry | clients/go/pkg/audit/interceptor.go:359-372 | the clone becomes the baseline carrying the messages the directive asks for, each readable from its own field, or a conversion error is returned |
| GoStreamWrapper.ServerStreamWrapper.LogThenSend | clients/go/pkg/audit/interceptor.go:374-381 | the response is delivered only if Log returned nil and the transport takes it |
| GoStreamWrapper.ServerStreamWrapper.SendMsg | clients/go/pkg/audit/interceptor.go:351-382 | the whole effect of SendMsg on the wrapper, equal to the step machine; nil iff the response was delivered, and any error but the transport's is an interceptor error |
| StreamProtocol.ConvertibleIff | clients/go/pkg/audit/interceptor.go:495-520 | a message converts iff it marshals to a JSON object or to null |
| StreamProtocol.PairKeepsRequests | docs/grpc.md:180-182 | under a directive that logs requests, the requests in the pairing followed by the pending one are the requests received, in order |
| StreamProtocol.PairKeepsResponses | docs/grpc.md:126-128 | under AUDIT_REQUEST_AND_RESPONSE the responses in the pairing are the responses sent, in order |
| StreamProtocol.PairCounts | docs/grpc.md:126-182 | one entry per response under every directive, plus one per request that another request follows, when requests are logged |
| StreamProtocol.PairIsPrefixClosed | docs/grpc.md:126-236 | later calls never change the entries of earlier ones |
| JavaStreamSafety.JavaConservation | clients/java-logger/library/src/main/java/com/abcxyz/lumberjack/auditlogclient/AuditLoggingServerInterceptor.java:137-212 | in every interleaving of callbacks, sends and closes, whatever auditLog throws: arrived = audited + queued + held by the listener and by calls in flight + lost to an exception, each once |
| JavaStreamSafety.JavaLoggedAtMostOnce | clients/java-logger/library/src/main/java/com/abcxyz/lumberjack/auditlogclient/AuditLoggingServerInterceptor.java:137-212 | no request is handed to two auditLog calls |
| JavaStreamSafety.JavaLogBeforeSend | clients/java-logger/library/src/main/java/com/abcxyz/lumberjack/auditlogclient/AuditLoggingServerInterceptor.java:141-152 | in every interleaving, with any number of sends in flight: responses whose auditLog call returned = sent on + cleared and not yet sent on + refused by the transport |
| JavaSendOrder.JavaSendsInOrder | clients/java-logger/library/src/main/java/com/abcxyz/lumberjack/auditlogclient/AuditLoggingServerInterceptor.java:141-152 | if cleared calls are transmitted in the order of their audits, the responses sent on are, in order, among those audited, whatever is refused |
| JavaSendOrder.OneSenderSendsInOrder | clients/java-logger/library/src/main/java/com/abcxyz/lumberjack/auditlogclient/AuditLoggingServerInterceptor.java:141-152 | so it is under every interleaving with one sender at a time |
| JavaSendOrder.JavaOrderIff | clients/java-logger/library/src/main/java/com/abcxyz/lumberjack/auditlogclient/AuditLoggingServerInterceptor.java:141-152 | where nothing is refused and responses differ, the responses sent on are the first of those audited, in order, iff every transmission was of the call cleared first |
| JavaSendOrder.TwoSendersCanOvertake | clients/java-logger/library/src/main/java/com/abcxyz/lumberjack/auditlogclient/AuditLoggingServerInterceptor.java:144-151 | two senders at a time: a run in which both are logged and the second is sent on first |
| JavaStream.DequeHoldsOne | clients/java-logger/library/src/main/java/com/abcxyz/lumberjack/auditlogclient/AuditLoggingServerInterceptor.java:137-205 | in every reachable state the deque holds at most one request, so polling either end is the same |
| JavaStream.DrainIsBounded | clients/java-logger/library/src/main/java/com/abcxyz/lumberjack/auditlogclient/AuditLoggingServerInterceptor.java:191-204 | between two onMessage calls the drain loop takes at most as many steps as its rank, whatever other threads do |
| JavaStream.DrainTerminates | clients/java-logger/library/src/main/java/com/abcxyz/lumberjack/auditlogclient/AuditLoggingServerInterceptor.java:191-204 | from any reachable state, wherever the listener stands, the loop of the current onMessage ends within four steps, and until it has ended its next step can be taken |
| JavaStream.JRunBalances | clients/java-logger/library/src/main/java/com/abcxyz/lumberjack/auditlogclient/AuditLoggingServerInterceptor.java:137-212 | the accounting of requests is an invariant of every run |
| JavaStreamTrace.CallInterceptor.AuditLog | clients/java-logger/library/src/main/java/com/abcxyz/lumberjack/auditlogclient/AuditLoggingServerInterceptor.java:263-276 | one entry on a copy of the builder, with what the directive asks for of what is there; the builder stays as it is |
| JavaStreamTrace.CallInterceptor.OnMessage | clients/java-logger/library/src/main/java/com/abcxyz/lumberjack/auditlogclient/AuditLoggingServerInterceptor.java:190-205 | the loop audits the queued requests oldest first and then queues the message; an exception loses the message |
| JavaStreamTrace.CallInterceptor.SendMessage | clients/java-logger/library/src/main/java/com/abcxyz/lumberjack/auditlogclient/AuditLoggingServerInterceptor.java:141-152 | audits the newest queued request with the response; the transport sees the response only if that did not throw |
| JavaStreamTrace.CallInterceptor.Close | clients/java-logger/library/src/main/java/com/abcxyz/lumberjack/auditlogclient/AuditLoggingServerInterceptor.java:158-177 | on a status that is not OK, the queued request is audited with the status set on the shared builder; the call is closed iff no audit threw |
| JavaStreamTrace.JavaLogsItsPairing | clients/java-logger/library/src/main/java/com/abcxyz/lumberjack/auditlogclient/AuditLoggingServerInterceptor.java:137-212 | with no exception the entries are the Java pairing of the trace, the deque holds the pending request, every response is sent |
| JavaStreamTrace.PairingsAgreeIff | clients/java-logger/library/src/main/java/com/abcxyz/lumberjack/auditlogclient/AuditLoggingServerInterceptor.java:263-276 | the Java pairing equals the declared one iff the directive logs requests or no receive follows another at once |
| JavaStreamTrace.GoAndJavaLogAlike | clients/java-logger/library/src/main/java/com/abcxyz/lumberjack/auditlogclient/AuditLoggingServerInterceptor.java:137-276 | on every error-free trace both languages log the same entries iff the directive logs requests or no receive follows another at once |
| JavaStreamTrace.OnMessageIsARun | clients/java-logger/library/src/main/java/com/abcxyz/lumberjack/auditlogclient/AuditLoggingServerInterceptor.java:190-205 | a whole onMessage is a run of the interleaved machine |
| JavaStreamTrace.SendMessageIsARun | clients/java-logger/library/src/main/java/com/abcxyz/lumberjack/auditlogclient/AuditLoggingServerInterceptor.java:141-152 | a whole sendMessage is a run of two or three steps of the interleaved machine |
| StreamFailure.JavaFailureLogsPending | clients/java-logger/library/src/main/java/com/abcxyz/lumberjack/auditlogclient/AuditLoggingServerInterceptor.java:158-177 | a failed stream hands every received request to an audit, in order, the pending one last and with the status; with none pending the failure leaves the log as it is |
| StreamFailure.FailedStreamsAgreeIff | clients/java-logger/library/src/main/java/com/abcxyz/lumberjack/auditlogclient/AuditLoggingServerInterceptor.java:158-177 | on failed streams Go and Java log the same requests iff none is pending, else Java logs that one and Go does not; the status is in the Go log always, in the Java log iff a request is pending |
| StreamFailure.OneRequestThenFailure | clients/go/pkg/audit/interceptor.go:254-262 | one request, then a failure: the Go log has the status and no request, the Java log the request with the status |
| JavaStreamTrace.CloseIsARun | clients/java-logger/library/src/main/java/com/abcxyz/lumberjack/auditlogclient/AuditLoggingServerInterceptor.java:158-177 | a whole failing close is a run of the interleaved machine |
| Pipeline.AuditClient.constructor | clients/go/pkg/audit/client.go:107-113 | a new client has one validator and the zero mode |
| Pipeline.AuditClient.Apply | clients/go/pkg/audit/client.go:55-104 | an option appends to the list it names or replaces the mode |
| Pipeline.AuditClient.ApplyAll | clients/go/pkg/audit/client.go:114-119 | nil iff no option fails; each list then holds its options in their order |
| Pipeline.AuditClient.RunStage | clients/go/pkg/audit/client.go:146-156 | one loop: stops with the outcome of the whole run at the first failure, or reaches the next stage |
| Pipeline.AuditClient.RunStages | clients/go/pkg/audit/client.go:146-182 | the three loops together are one run over validators ++ mutators ++ backends |
| Pipeline.AuditClient.Log | clients/go/pkg/audit/client.go:139-183 | the error, the request as left in place and the calls made are those of the run over all slots, in the mode admitted |
| Pipeline.LogNilIff | clients/go/pkg/audit/client.go:146-203 | nil iff every processor succeeds, or the first error wraps ErrPreconditionFailed, or the request is not FAIL_CLOSE when it comes back |
| Pipeline.CallsAreAPrefix | clients/go/pkg/audit/client.go:146-182 | the calls are slots 0, 1, 2, ... each once, each given what the one before left, all but the last successful, and all of them unless the last failed |
| Pipeline.FirstCallSees | clients/go/pkg/audit/client.go:142-144 | the first processor is given the request as it came, with the client's mode if it had none, and nothing else changed |
| Pipeline.BackendsRunLast | clients/go/pkg/audit/client.go:146-182 | no backend is called before every validator and mutator has returned nil |
| Pipeline.ReturnedSentinels | clients/go/pkg/auditerrors/auditerrors.go:33-37 | the client never returns a precondition failure, and what it returns has exactly the sentinels of the error that stopped it |
| Pipeline.ModeDecides | clients/go/pkg/audit/client.go:142-144 | when processors keep the mode, the request's own mode wins over the client's; FAIL_CLOSE gives nil iff success or precondition, every other mode always gives nil |
| AuditErrors.IsFindsNodes | clients/go/pkg/audit/client.go:148 | errors.Is finds a target iff it is a node of the wrap tree |
| AuditErrors.WrapKeepsSentinels | clients/go/pkg/audit/client.go:154 | one %w keeps exactly the sentinels of its cause |
| AuditErrors.WrapBothIs | clients/go/pkg/auditerrors/auditerrors.go:57-59 | two %w give the sentinels of both |
| AuditErrors.JoinIs | clients/go/apis/v1alpha1/config.go:76-112 | errors.Join is nil iff all joined are, and keeps the sentinels of everything joined |
| AuditErrors.CodeIsOfFirstStatus | clients/go/pkg/audit/interceptor.go:456-469 | the code of an error is that of the first status error a depth-first search of its wrap tree meets; none iff there is no such node |
| Remote.AuditLogAgent.ProcessLog | pkg/server/server.go:43-51 | a result with the request as the server's client left it, or a status error |
| Remote.RemoteProcessor.Process | clients/go/pkg/remote/processor.go:97-118 | sends a copy, takes back labels, payload and type on success, and changes nothing on failure |
| Remote.RemoteKeepsTheRest | clients/go/pkg/remote/processor.go:111-115 | everything but labels, payload and type stays, and on failure those too; on success they are what the server left |
| Remote.AgentIsInvalidArgumentIff | pkg/server/server.go:53-59 | a refusal is InvalidArgument iff the error that stopped the server wraps ErrInvalidRequest, else Internal, and never stands for a precondition |
| Remote.TwoTierFailClose | clients/go/pkg/remote/processor.go:97-118 | FAIL_CLOSE through a remote backend gives nil iff a client-side precondition stops it, or all other client-side processors succeed, the call is carried, and the server's chain succeeds or is stopped by a precondition |
| Remote.ServerFailureIsReturned | pkg/server/server.go:43-59 | any other server failure reaches the FAIL_CLOSE caller, as InvalidArgument iff its wrap tree has ErrInvalidRequest |
| CloudLogging.Processor.Process | clients/go/pkg/cloudlogging/processor.go:118-148 | one write, asynchronous iff the first specified of request mode and default is BEST_EFFORT; nil iff asynchronous or without fault |
| CloudLogging.WrittenIsReadable | clients/go/pkg/cloudlogging/processor.go:118-138 | the entry has the payload, labels and operation of the request and its type, or the unspecified one if it has no logger; asynchronous iff the mode, or else the default, is best effort |
| CloudLogging.WritesDiffer | clients/go/pkg/cloudlogging/processor.go:118-128 | requests that differ in type, payload, labels or operation give different entries, if their types have loggers |
| CloudLogging.FirstModeWins | clients/go/pkg/cloudlogging/processor.go:135-138 | across request, client, server and Cloud Logging default, the first specified mode decides the write |
| AuditOpt.ClientFromConfig | clients/go/pkg/auditopt/config.go:162-206 | nil iff the defaulted configuration is acceptable, its patterns compile, the processors it asks for can be built and the runtime is found; then the client is the one it stands for |
| AuditOpt.OptionsGiveClient | clients/go/pkg/auditopt/config.go:170-198 | the options gathered in source order give each list in the order meant |
| AuditOpt.ValidatorsPassIff | clients/go/pkg/auditopt/config.go:208-225 | a request passes the validators of a configured client iff its payload is well formed and its principal meets the condition: with only an include pattern it matches it, with only an exclude it does not, with both it matches the include or not the exclude |
| AuditOpt.FirstBackendInvariant | clients/go/pkg/auditopt/config.go:162-206 | a request that reaches the first backend passed validation and condition, has each configured label unless it has its own, has the runtime and justification keys and every other metadata key as it was, has the reason it had unless a justification gives one, and is otherwise untouched but for its mode |
| AuditOpt.ConfiguredBackends | clients/go/pkg/auditopt/config.go:227-268 | each backend configured is in the client, remote first, and no other; Cloud Logging is best effort by default iff the mode is; a run in which all succeed reaches every one |
| AuditOpt.CloudLoggingWrites | clients/go/pkg/auditopt/config.go:241-268 | with Cloud Logging as the one backend, what is written has the configured labels under the request's own, its type, operation and enriched payload, asynchronously iff the request's mode, or else the configured one, is BEST_EFFORT |
| AuditOpt.NoNilDereference | clients/go/pkg/audit/runtime.go:269-282 | no validator or mutator of a configured client dereferences a missing payload |
| Processors.EmailIff | pkg/validation/validation.go:119-129 | accepted iff there is exactly one @ and it is not the last character |
| Processors.ValidateAuditLogIff | pkg/validation/validation.go:87-115 | nil iff method, service, resource and principal are there and well formed |
| Processors.RequestValidationIff | clients/go/pkg/audit/validation.go:36-53 | nil iff the payload is well formed, otherwise an error wrapping ErrInvalidRequest; the request is only read |
| Processors.PrincipalEmailMatcher.AddFilters | clients/go/pkg/filtering/processor.go:41-75 | an empty pattern adds nothing, one that does not compile is an error, any other is appended |
| Processors.PrincipalEmailMatcher.Process | clients/go/pkg/filtering/processor.go:102-130 | the two loops decide the documented rule on the request, which is only read |
| Processors.FilterOutcome | clients/go/pkg/filtering/processor.go:88-130 | passes iff the documented rule says so; a dropped request is a precondition failure, one without a principal is not |
| Processors.RuntimeInfoProcessor.Process | clients/go/pkg/audit/runtime.go:269-282 | sets one metadata key, if there is a resource |
| Processors.LabelProcessor.constructor | clients/go/pkg/audit/labels.go:32-41 | copies the labels, in whatever order they are ranged over |
| Processors.LabelProcessor.Process | clients/go/pkg/audit/labels.go:45-61 | labels become the defaults overridden by what was there, in whatever order the defaults are ranged over |
| Processors.JustificationProcessor.Process | clients/go/pkg/justification/processor.go:60-115 | the metadata key and the reason written for a valid token, and the errors otherwise, including the one after the metadata is written |
| Processors.JustifiedIff | clients/go/pkg/justification/processor.go:60-115 | nil iff there is a token, valid for the principal, that decodes to claims and reasons, and a payload; a missing and an invalid token are told apart; a failure changes at most the metadata |
| Unary.Interceptor.UnaryInterceptor | clients/go/pkg/audit/interceptor.go:108-194 | response, error, contexts the handler was called with and requests logged are those of the specification, for the rule the search selects |
| Unary.Interceptor.Prepare | clients/go/pkg/audit/interceptor.go:119-159 | the log request built before the handler, or the error that prevents it |
| Unary.Interceptor.Conclude | clients/go/pkg/audit/interceptor.go:180-193 | after the handler: the response is filled in and logged, and only FAIL_CLOSE turns a failure into an error |
| Unary.Interceptor.HandleReturnUnary | clients/go/pkg/audit/interceptor.go:412-423 | FAIL_CLOSE returns the error without the handler; any other mode calls the handler, without a log request |
| Unary.Interceptor.HandleReturnWithResponse | clients/go/pkg/audit/interceptor.go:441-452 | the response always, the error only in FAIL_CLOSE |
| Unary.TransparentUnlessFailClose | clients/go/pkg/audit/interceptor.go:108-194 | outside FAIL_CLOSE the handler runs exactly once and its response and error come back unchanged |
| Unary.HandlerRunsAtMostOnce | clients/go/pkg/audit/interceptor.go:108-194 | in every mode at most once, its error never hidden; not at all iff FAIL_CLOSE and the log request cannot be built |
| Unary.FailCloseMeansLogged | clients/go/pkg/audit/interceptor.go:188-193 | in FAIL_CLOSE a nil error for a matched method means one request, the one the handler left, passed every processor or met a precondition |
| Unary.FailCloseNilIff | clients/go/pkg/audit/interceptor.go:108-194 | in FAIL_CLOSE a matched call has no error iff its request was built, the handler succeeded, a response asked for converts, and Log returned nil |
| Unary.FailedHandlerIsLogged | clients/go/pkg/audit/interceptor.go:170-178 | in every mode, whatever Log returns, a failed handler has one request logged: the one it left, with a status of the message of the error and the number of its gRPC code, 13 if none, and nothing else changed |
| Unary.SucceededHandlerIsLogged | clients/go/pkg/audit/interceptor.go:180-193 | in every mode a handler that succeeds has one request logged, the one it left, with the response readable from it under AUDIT_REQUEST_AND_RESPONSE only; none iff that response does not convert |
| Unary.BuiltRequest | clients/go/pkg/audit/interceptor.go:119-159 | every field of the request built: service, method, principal, token, mode, the log type each name stands for, and the request, readable, iff the directive asks for it; and when it cannot be built |
| Unary.UnmatchedIsLeftAlone | clients/go/pkg/audit/interceptor.go:108-117 | an unmatched method: handler once, its response and error, nothing logged |
| Unary.HandlerIsGiven | clients/go/pkg/audit/interceptor.go:161-168 | the handler of a matched method gets the request built |
| Unary.ErrorsAreAttributable | clients/go/pkg/auditerrors/auditerrors.go:52-59 | an error for a matched method is the handler's, or in FAIL_CLOSE an interceptor error |
| StreamEntry.StreamInterceptor.Intercept | clients/go/pkg/audit/interceptor.go:197-264 | error, contexts given, entries of the whole stream and responses delivered are those of the specification, for the rule the search selects |
| StreamEntry.StreamInterceptor.ServeWrapped | clients/go/pkg/audit/interceptor.go:248-264 | the handler is given a new wrapper; after it, a failure is logged on the baseline as it was left, with the status |
| StreamEntry.StreamHandlerFunc.Serve | clients/go/pkg/audit/interceptor.go:322-382 | a handler that makes any calls on the wrapper, writing the baseline in between, drives it through exactly the trace of those calls |
| StreamEntry.StreamInterceptor.HandleReturnStream | clients/go/pkg/audit/interceptor.go:425-436 | FAIL_CLOSE returns the error without the handler; any other mode calls the handler |
| StreamEntry.StreamHandlerDecides | clients/go/pkg/audit/interceptor.go:248-264 | at most one call; the handler's error is returned as it is; not called iff FAIL_CLOSE and no baseline can be built; it is given the baseline of a matched method, and nothing is logged when it is given none |
| StreamEntry.StreamLogsThePairing | clients/go/pkg/audit/interceptor.go:248-264 | the entries of a whole stream are the declared pairing, and, iff the handler failed, one more: Log is given the baseline as left, with the message and number of the error as its status, and nothing else changed |
| StreamEntry.StreamLosesOnlyPending | clients/go/pkg/audit/interceptor.go:254-262 | under a directive that logs requests, the entries have every request received, once and in order, iff none is pending when the handler returns; otherwise exactly that one is in no entry |
| StreamEntry.BaselineIsClean | clients/go/pkg/audit/interceptor.go:214-246 | every field of the baseline: service, method, principal, token, operation, the log type each name stands for, the mode left to the client, and no message or status; and when it cannot be built |
| Rules.AppliesIff | clients/go/pkg/audit/rules.go:49-61 | a selector applies iff it is *, or, after dropping the leading slashes of both, it is the method name, or it is p and * where the name is p and any rest |
| Rules.MostRelevantRule | clients/go/pkg/audit/rules.go:31-45 | nil iff no non-empty selector applies in that sense; else one that applies, is longer than all that apply before it, and no shorter than those after it unless it has the length of the method |
| Rules.LongerThanMethodIff | clients/go/pkg/audit/rules.go:49-61 | an applicable selector is longer than the method iff its extra leading slashes outnumber what it leaves uncovered |
| Rules.LongerMeansSlashesOrWholeStem | clients/go/pkg/audit/rules.go:49-61 | so it has more leading slashes or is the method followed by a wildcard |
| Rules.SelectionIsFirstLongestIff | clients/go/pkg/audit/rules.go:31-45 | the result is the first longest applicable rule iff no rule of exactly the method length hides a longer one; rules without such selectors never do |
| Rules.AnExactRuleCanHideALongerOne | clients/go/pkg/audit/rules.go:38-41 | for /s/m, a rule /s/m hides a later rule /s/m* and a later rule //s/m |
| Selection.SelectionIsUnique | clients/go/pkg/audit/rules.go:31-45 | the stated result is the only one |
| Selection.ShortCircuitIsExactIff | clients/go/pkg/audit/rules.go:38-41 | the short-circuit gives the first longest iff it hides none |
| JavaSelector.AppliesIff | clients/java-logger/library/src/main/java/com/abcxyz/lumberjack/auditlogclient/config/Selector.java:59-67 | a selector applies iff the method is the selector and any rest, or the selector is p and * where the method is p and any rest |
| JavaSelector.ReturnMostRelevant | clients/java-logger/library/src/main/java/com/abcxyz/lumberjack/auditlogclient/config/Selector.java:74-89 | nothing iff no non-empty selector applies in that sense; else one that applies, is longer than all that apply before it, and no shorter than those after it unless it has the length of the method |
| JavaSelector.ApplicableLength | clients/java-logger/library/src/main/java/com/abcxyz/lumberjack/auditlogclient/config/Selector.java:59-67 | an applicable selector is at most one character longer than the method, and then it is the method followed by a wildcard |
| JavaSelector.SelectedIsNearlyLongest | clients/java-logger/library/src/main/java/com/abcxyz/lumberjack/auditlogclient/config/Selector.java:74-89 | the result is within one character of every applicable selector; it is the first longest iff no selector as long as the method comes before the first that is the method followed by a wildcard |
| JavaSelector.AnExactSelectorCanHideALongerOne | clients/java-logger/library/src/main/java/com/abcxyz/lumberjack/auditlogclient/config/Selector.java:82-84 | for s/m, a selector s/m hides a later s/m* |
| JavaSelector.Interceptor.GetRelevantSelector | clients/java-logger/library/src/main/java/com/abcxyz/lumberjack/auditlogclient/AuditLoggingServerInterceptor.java:337-347 | the answer is that of a direct search whatever was remembered; only this answer is added to the memory |
| ServiceName.LazilyMatches | clients/go/pkg/audit/interceptor.go:471 | the lazy group offers every end up to the end of the line, shortest first |
| ServiceName.TailMatches | clients/go/pkg/audit/interceptor.go:471 | the first match of the group and slash ends at the next slash, if no newline comes before it |
| ServiceName.PatternMatches | clients/go/pkg/audit/interceptor.go:471 | all matches with two slashes are tried before those with one |
| ServiceName.MatcherIsScan | clients/go/pkg/audit/interceptor.go:478-484 | the backtracking matcher with the check after it is one scan |
| ServiceName.ServiceNameIff | clients/go/pkg/audit/interceptor.go:473-484 | succeeds with x iff the name is one or two slashes, x, a slash and anything, x non-empty without slash or newline |
| JsonStruct.JsonMapToProtoStruct | clients/go/pkg/audit/interceptor.go:522-528 | the same struct for every order in which the map is ranged over |
| JsonStruct.JsonValueToStructValue | clients/go/pkg/audit/interceptor.go:530-551 | the value of every JSON kind, recursively |
| JsonStruct.JsonRoundTrip | clients/go/pkg/audit/interceptor.go:522-551 | every JSON value can be read back from its conversion |
| JsonStruct.ConversionIff | clients/go/pkg/audit/interceptor.go:530-551 | the conversion is the one protobuf value of the same kind and content at every depth |
| JsonStruct.ValueRoundTrip | clients/go/pkg/audit/interceptor.go:522-551 | every protobuf value is the conversion of a JSON value |
| JsonStruct.PathsAreKept | clients/go/pkg/audit/interceptor.go:522-551 | every path of keys and list positions leads to the conversion of what it led to |
| JsonStruct.StructOfIsInjective | clients/go/pkg/audit/interceptor.go:522-528 | different objects give different structs |
| Config.Config.SetDefault | clients/go/apis/v1alpha1/config.go:116-136 | the whole defaulted configuration |
| Config.Config.SetRuleDefaults | clients/go/apis/v1alpha1/config.go:133-135 | every rule is defaulted |
| Config.Config.Validate | clients/go/apis/v1alpha1/config.go:73-113 | defaults first; nil iff the result is acceptable |
| Config.Config.Check | clients/go/apis/v1alpha1/config.go:76-112 | nil iff acceptable, each check adding its error |
| Config.Config.ValidateSecurityContext | clients/go/apis/v1alpha1/config.go:262-274 | nil iff there is a key list and no key is empty |
| Config.BackendErrorIff | clients/go/apis/v1alpha1/config.go:157-180 | nil iff a backend is set and each one set is acceptable |
| Config.RuleErrorIff | clients/go/apis/v1alpha1/config.go:325-351 | nil iff selector, directive and log type are among those allowed |
| Config.DefaultIsIdempotent | clients/go/apis/v1alpha1/config.go:116-136 | defaulting twice is defaulting once |
| Config.ValidateIsStable | clients/go/apis/v1alpha1/config.go:73-113 | after a nil Validate, a second one changes nothing and is nil |
| Config.ValidatedConfig | clients/go/apis/v1alpha1/config.go:139-141 | a validated configuration has mode FAIL_CLOSE or BEST_EFFORT in any letter case, exactly one of project and default project, and no rule of another directive or log type |
| Config.ModeAskedFor | clients/go/apis/v1alpha1/config.go:121-124 | FAIL_CLOSE or BEST_EFFORT in any letter case is the mode got, and none or LOG_MODE_UNSPECIFIED becomes FAIL_CLOSE |
| Config.CaseDoesNotMatter | clients/go/apis/v1alpha1/config.go:99-104 | names equal up to letter case give the same mode and are valid alike |
| Config.ModesByName | clients/go/apis/v1alpha1/config.go:139-141 | the mode of each name in any letter case; no other ASCII name is valid |
| Config.DefaultsFillGaps | clients/go/apis/v1alpha1/config.go:116-136 | version, directive, log type and project get their defaults where they are missing, and nothing else changes |
| QueryFilter.LexAppend | pkg/cli/tail.go:331-336 | a blank after a text with closed quotes separates its tokens from those that follow |
| QueryFilter.LexQuery | pkg/cli/tail.go:330-336 | the tokens of the query are the ids, AND, the cutoff, AND, the tokens of the additional filter |
| QueryFilter.ParseComposed | pkg/cli/tail.go:330-336 | its syntax is the conjunction of the three, whatever the additional tokens are |
| QueryFilter.QueryMeans | pkg/cli/tail.go:324-337 | the query is well formed iff the additional filter is, and then means: in one of the five logs, and the cutoff, and the filter |
| QueryFilter.PlainQueryMeans | pkg/cli/tail.go:324-334 | without additional filter: in one of the five logs, and the cutoff; an override is used alone |
| Puller.Collect | pkg/cloudlogging/puller.go:93-104 | one attempt adds a prefix of the listing to what is there |
| Puller.Pull | pkg/cloudlogging/puller.go:81-109 | the concatenation of one prefix per attempt, or nothing if no attempt succeeds |
| Puller.PullIsBounded | pkg/cloudlogging/puller.go:81-109 | at most maxCount entries; exactly the first ones when the first attempt succeeds |
| Puller.PullIsExactIff | pkg/cloudlogging/puller.go:82-105 | on a listing without duplicates, the first maxCount entries iff every attempt before the first that completes fails at its first call of the iterator |
| Puller.PullCanDuplicate | pkg/cloudlogging/puller.go:82-105 | an attempt that fails at its second call leaves its first entry there twice |

## Left out

- gRPC transport, Cloud Logging clients, JWT parsing, token sources, metadata servers, OpenTelemetry, Guice wiring, generated code: foreign calls or wiring.
- Java's LoggingClient, label and filter processors: they repeat the Go pipeline.
- Client.Stop, Processor.Stop, regionFromZone, the detection of the runtime, the output of the list and stream commands, StreamPull: short bodies with nothing to relate.
- InterceptorFromConfigFile and loading of YAML and environment variables: input and output.
- AuditErrors.Error: the text of an error is kept only as far as it is wrapped; the verbs and arguments of messages are not.
- Unary.Interceptor.UnaryInterceptor: timestamps and the trimming of the token header are not modelled; a security context that fails is a principal of None.
- StreamEntry.StreamInterceptor.Intercept: the handler calls the wrapper from one goroutine here, every receive gets a message and the transport takes every response; the interleavings and faults are those of GoStream. Timestamps are not modelled.
- StreamEntry.StreamInterceptor.HandleReturnStream: that the fail-open path hands the handler the context in place of the service is not visible in the model.
- GoStreamWrapper.ServerStreamWrapper.RecvMsg: one goroutine at a time, since a Dafny method is not interrupted; the interleavings are those of GoStream. A message that already is a Struct is shared with the entry in Go, and copied here.
- JavaStreamTrace.CallInterceptor.AuditLog: whether conversion and the client succeed is one arbitrary answer per call; the client behind it is not modelled. Type, operation and token, which are the same in all entries of a call, are part of the builder here; timestamps are not modelled.
- JavaStreamTrace.CallInterceptor.Close: the exception handlers that lead to it, and the starting of the call when there is no principal, are not modelled.
- JavaSelector.Interceptor.GetRelevantSelector: callers in parallel on the HashMap are not modelled; the rules are constant.
- CloudLogging.Processor.Process: timestamps, the flushing of queued writes and their later errors are not modelled.
- Remote.RemoteProcessor.Process: the request is taken to survive encoding unchanged, and a lost call gives one kind of status.
- Processors.JustificationProcessor.Process: encoding a token can fail in two places, which are one case here; so are the two ways a token can be invalid.
- Config.Config.Validate: rules are values; two list positions that share one rule object are defaulted alike, so the difference does not show. ToUpper covers the characters whose upper case is ASCII.
- QueryFilter.QueryMeans: comments, the leading minus for NOT, and brackets other than round ones are read as plain text of a search.
- Puller.Pull: waiting between attempts and cancellation are not modelled; every attempt lists the same entries.
- Rules.MostRelevantRule: a rule is named by its position in the list, where the original returns a pointer.
