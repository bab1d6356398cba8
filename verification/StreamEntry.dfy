/** The stream interceptor around a stream handler: the baseline it builds, the wrapper it hands the
    handler, and the log of the whole stream, with the last entry of one whose handler fails. */
module StreamEntry {
  import opened AuditLog
  import opened AuditErrors
  import opened StreamProtocol
  import opened Pipeline
  import opened Selection
  import opened Rules
  import opened ServiceName
  import opened Unary
  import opened GoStream
  import opened GoStreamSafety
  import opened GoStreamTrace
  import opened GoStreamWrapper

  /** One incoming stream. A principal of None stands for an error of the security context. */
  datatype StreamCall = StreamCall(methodName: string, principal: Option<string>, token: string, operation: string)

  /** What a stream handler does: the calls it makes on the stream and the baseline as it is at each,
      the baseline as it leaves it, and the error it returns. */
  datatype Served = Served(trace: seq<Event>, left: Request, err: Option<Error>)

  /** It may do anything, given the baseline in its context, if there is one. */
  type StreamHandler = Option<Request> -> Served

  /** The messages it receives are objects of their own, and the baseline keeps a payload. */
  ghost predicate WellBehaved(d: Served) {
    && FreshMessages(d.trace) && d.left.payload.Some?
    && forall i :: 0 <= i < |d.trace| ==> d.trace[i].base.payload.Some?
  }

  ghost predicate AlwaysWellBehaved(h: StreamHandler) {
    forall ctx :: WellBehaved(h(ctx))
  }

  /** `given` lists the contexts the handler was called with, `log` the calls of Log for the stream. */
  datatype StreamResult = StreamResult(
    err: Option<Error>, given: seq<Option<Request>>, log: seq<LogCall>, delivered: seq<Msg>)

  const NO_STREAM_PRINCIPAL := RpcError(FailedPrecondition, "audit interceptor failed to get request principal")

  /** The baseline all entries of the stream start from; its mode is left to the client. */
  function BuildBaseline(rule: AuditRule, call: StreamCall): (Option<Request>, Error) {
    var service := ServiceNameOf(call.methodName);
    if service.None? then (None, NO_SERVICE_NAME)
    else if call.principal.None? then (None, NO_STREAM_PRINCIPAL)
    else
      (Some(Request(
        Some(Payload(service.value, call.methodName, "", call.principal, None, None, None, None, None)),
        LogTypeOf(rule.logType), map[], ModeUnspecified, Some(call.operation), call.token)), NO_SERVICE_NAME)
  }

  /** The entry of a stream whose handler failed: the baseline as it was left, with the status. */
  function FailureEntry(left: Request, e: Error): Entry {
    Entry(WithErrorStatus(left, e), None, None)
  }

  /** The stream of a handler that does d with the baseline: event i happens at moment clock(i), and the
      failure, if there is one, is logged at moment end. */
  ghost function WrappedSpec(w: Stream, baseline: Request, d: Served, clock: nat -> nat, end: nat): StreamResult
    requires FreshMessages(d.trace)
  {
    var s := Drive(w, baseline, d.trace, clock);
    StreamResult(d.err, [Some(baseline)],
      if d.err.Some? then s.log + [CallLog(w, end, FailureEntry(d.left, d.err.value), None)] else s.log,
      s.delivered)
  }

  ghost function StreamSpec(c: Client, mode: LogMode, rule: Option<AuditRule>, call: StreamCall, h: StreamHandler,
                            clock: nat -> nat, end: nat): StreamResult
    requires AlwaysWellBehaved(h)
  {
    var plain := StreamResult(h(None).err, [None], [], Sends(h(None).trace));
    if rule.None? then plain
    else
      var (baseline, e) := BuildBaseline(rule.value, call);
      if baseline.None? then if ShouldFailClose(mode) then StreamResult(Some(e), [], [], []) else plain
      else
        assert WellBehaved(h(baseline));
        WrappedSpec(WrappedBy(c, DirectiveOf(rule.value.directive)), baseline.value, h(baseline), clock, end)
  }

  lemma {:induction false} FreshPrefix(trace: seq<Event>, n: nat)
    requires n <= |trace| && FreshMessages(trace)
    ensures FreshMessages(trace[..n])
    decreases |trace|
  {
    if n < |trace| {
      FreshBefore(trace);
      FreshPrefix(trace[..|trace| - 1], n);
      assert trace[..|trace| - 1][..n] == trace[..n];
    } else {
      assert trace[..n] == trace;
    }
  }

  class StreamHandlerFunc {
    const behave: StreamHandler
    ghost var given: seq<Option<Request>>
    ghost var delivered: seq<Msg>    // on streams that are not wrapped

    constructor (behave: StreamHandler)
      ensures this.behave == behave && given == [] && delivered == []
    {
      this.behave, given, delivered := behave, [], [];
    }

    /** Called with the stream as it is. */
    method ServePlain() returns (err: Option<Error>)
      modifies this
      ensures given == old(given) + [None] && err == behave(None).err
      ensures delivered == old(delivered) + Sends(behave(None).trace)
    {
      given := given + [None];
      delivered := delivered + Sends(behave(None).trace);
      err := behave(None).err;
    }

    /** Called with the stream wrapped: it sets the baseline, and receives or sends, call by call. */
    method Serve(wrapper: ServerStreamWrapper, clock: nat -> nat) returns (err: Option<Error>)
      requires WellBehaved(behave(Some(wrapper.baseline.val)))
      requires wrapper.View() == Init(wrapper.baseline.val)
      modifies this`given, wrapper, wrapper.baseline
      ensures given == old(given) + [Some(old(wrapper.baseline.val))]
      ensures var b := old(wrapper.baseline.val);
        && err == behave(Some(b)).err
        && wrapper.View() == Drive(WrappedBy(wrapper.client.View(), wrapper.directive), b, behave(Some(b)).trace, clock)
                             .(baseline := behave(Some(b)).left)
    {
      var does := behave(Some(wrapper.baseline.val));
      given := given + [Some(wrapper.baseline.val)];
      ServeAll(wrapper, does.trace, clock);
      wrapper.baseline.val := does.left;
      err := does.err;
    }

    method ServeAll(wrapper: ServerStreamWrapper, trace: seq<Event>, clock: nat -> nat)
      requires FreshMessages(trace) && forall i :: 0 <= i < |trace| ==> trace[i].base.payload.Some?
      requires wrapper.View() == Init(wrapper.baseline.val)
      modifies wrapper, wrapper.baseline
      ensures wrapper.View() ==
        Drive(WrappedBy(wrapper.client.View(), wrapper.directive), old(wrapper.baseline.val), trace, clock)
    {
      ghost var b := wrapper.baseline.val;
      ghost var w := WrappedBy(wrapper.client.View(), wrapper.directive);
      FreshPrefix(trace, 0);
      for i := 0 to |trace|
        invariant FreshMessages(trace[..i])
        invariant w == WrappedBy(wrapper.client.View(), wrapper.directive)
        invariant wrapper.View() == Drive(w, b, trace[..i], clock)
      {
        FreshPrefix(trace, i + 1);
        assert trace[..i + 1] == trace[..i] + [trace[i]];
        ServeOne(wrapper, trace[i], clock(i), w, b, trace[..i], clock);
      }
      assert trace[..|trace|] == trace;
    }

    method ServeOne(wrapper: ServerStreamWrapper, e: Event, t: nat, ghost w: Stream, ghost b: Request,
                    ghost before: seq<Event>, ghost clock: nat -> nat)
      requires e.base.payload.Some? && t == clock(|before|)
      requires FreshMessages(before) && FreshMessages(before + [e])
      requires w == WrappedBy(wrapper.client.View(), wrapper.directive)
      requires wrapper.View() == Drive(w, b, before, clock)
      modifies wrapper, wrapper.baseline
      ensures wrapper.View() == Drive(w, b, before + [e], clock)
    {
      FreshBefore(before + [e]);
      assert (before + [e])[..|before|] == before;
      wrapper.baseline.val := e.base;
      match e {
        case Recv(m, _) => var ignored := wrapper.RecvMsg(t, Some(m));
        case Send(m, _) => var ignored := wrapper.SendMsg(t, m, true);
      }
    }
  }

  class StreamInterceptor {
    const client: AuditClient
    const rules: seq<AuditRule>
    const logMode: LogMode
    ghost var log: seq<LogCall>

    constructor (client: AuditClient, rules: seq<AuditRule>, logMode: LogMode)
      ensures this.client == client && this.rules == rules && this.logMode == logMode && log == []
    {
      this.client, this.rules, this.logMode, log := client, rules, logMode, [];
    }

    method HandleReturnStream(handler: StreamHandlerFunc, e: Error) returns (err: Option<Error>)
      modifies handler
      ensures ShouldFailClose(logMode) ==>
        err == Some(e) && handler.given == old(handler.given) && handler.delivered == old(handler.delivered)
      ensures !ShouldFailClose(logMode) ==>
        && err == handler.behave(None).err && handler.given == old(handler.given) + [None]
        && handler.delivered == old(handler.delivered) + Sends(handler.behave(None).trace)
    {
      if ShouldFailClose(logMode) {
        return Some(e);
      }
      err := handler.ServePlain();
    }

    /** The handler around which the wrapper is put, and the entry of its failure. */
    method ServeWrapped(rule: AuditRule, logReq: RequestRef, handler: StreamHandlerFunc, clock: nat -> nat, end: nat)
      returns (err: Option<Error>, ghost delivered: seq<Msg>)
      requires WellBehaved(handler.behave(Some(logReq.val)))
      modifies handler`given, this`log, logReq
      ensures var b := old(logReq.val);
        var res := WrappedSpec(
          WrappedBy(client.View(), DirectiveOf(rule.directive)), b, handler.behave(Some(b)), clock, end);
        && err == res.err && delivered == res.delivered
        && handler.given == old(handler.given) + res.given
        && log == old(log) + res.log
    {
      var wrapper := new ServerStreamWrapper(client, logReq, DirectiveOf(rule.directive));
      err := handler.Serve(wrapper, clock);
      log := log + wrapper.log;
      delivered := wrapper.delivered;
      if err.Some? {
        ghost var entry := FailureEntry(logReq.val, err.value);
        logReq.val := WithErrorStatus(logReq.val, err.value);
        ghost var given := logReq.val;
        var e, calls := client.Log(end, logReq);
        log := log + [LogCall(end, entry, given, None, e)];
      }
    }

    method Intercept(call: StreamCall, handler: StreamHandlerFunc, clock: nat -> nat, end: nat)
      returns (err: Option<Error>, ghost chosen: Option<nat>, ghost delivered: seq<Msg>)
      requires AlwaysWellBehaved(handler.behave)
      modifies handler, this`log
      ensures IsSelected(Candidates(call.methodName, rules), |call.methodName|, chosen)
      ensures var rule := if chosen.None? then None else Some(rules[chosen.value]);
        var res := StreamSpec(client.View(), logMode, rule, call, handler.behave, clock, end);
        && err == res.err && delivered == res.delivered
        && handler.given == old(handler.given) + res.given
        && log == old(log) + res.log
    {
      var r := MostRelevantRule(call.methodName, rules);
      chosen := r;
      assert log + [] == log;
      if r.None? {
        err := handler.ServePlain();
        delivered := Sends(handler.behave(None).trace);
        return;
      }
      var service := ServiceNameOf(call.methodName);
      if service.None? {
        err := HandleReturnStream(handler, NO_SERVICE_NAME);
        delivered := if ShouldFailClose(logMode) then [] else Sends(handler.behave(None).trace);
        return;
      }
      var logReq := new RequestRef(Request(
        Some(Payload(service.value, call.methodName, "", None, None, None, None, None, None)),
        LogTypeOf(rules[r.value].logType), map[], ModeUnspecified, Some(call.operation), call.token));
      if call.principal.None? {
        err := HandleReturnStream(handler, NO_STREAM_PRINCIPAL);
        delivered := if ShouldFailClose(logMode) then [] else Sends(handler.behave(None).trace);
        return;
      }
      logReq.val := logReq.val.(payload := Some(logReq.val.payload.value.(principalEmail := call.principal)));
      assert WellBehaved(handler.behave(Some(logReq.val)));
      err, delivered := ServeWrapped(rules[r.value], logReq, handler, clock, end);
    }
  }

  /** In every mode the handler runs at most once, and when it runs its error is returned as it is,
      whatever the log makes of it; it does not run only in FAIL_CLOSE, when no baseline can be built. */
  lemma StreamHandlerDecides(c: Client, mode: LogMode, rule: Option<AuditRule>, call: StreamCall, h: StreamHandler,
                             clock: nat -> nat, end: nat)
    requires AlwaysWellBehaved(h)
    ensures var res := StreamSpec(c, mode, rule, call, h, clock, end);
      && |res.given| <= 1
      && (res.given != [] ==> res.err == h(res.given[0]).err)
      && (res.given == [] <==> mode == FailClose && rule.Some? && BuildBaseline(rule.value, call).0.None?)
      && (res.given == [] ==> res.err.Some? && res.log == [] && res.delivered == [])
      && (res.given != [] ==> res.given[0] == if rule.None? then None else BuildBaseline(rule.value, call).0)
      && (res.given == [None] ==> res.log == [] && res.delivered == Sends(h(None).trace))
  {
  }

  /** The entries of a whole stream: the pairing of what its handler did, and, if the handler failed,
      one more with the baseline as it was left and the status of the error, and no message. */
  lemma StreamLogsThePairing(w: Stream, baseline: Request, d: Served, clock: nat -> nat, end: nat)
    requires WellBehaved(d) && AllConvertible(d.trace)
    ensures var res := WrappedSpec(w, baseline, d, clock, end);
      && Entries(res.log) == Pair(d.trace, w.directive)
                             + (if d.err.Some? then [FailureEntry(d.left, d.err.value)] else [])
      && (d.err.Some? ==>
            HasErrorStatus(res.log[|res.log| - 1].given, d.left, d.err.value))
  {
    GoLogsThePairing(w, baseline, d.trace, clock);
    var s := Drive(w, baseline, d.trace, clock);
    if d.err.Some? {
      ErrorStatusIsSet(d.left, d.err.value);
      EntriesAppend(s.log, [CallLog(w, end, FailureEntry(d.left, d.err.value), None)]);
    }
  }

  lemma FailureAddsNoMessage(entries: seq<Entry>, d: Served)
    ensures var all := entries + if d.err.Some? then [FailureEntry(d.left, d.err.value)] else [];
            Requests(all) == Requests(entries) && Responses(all) == Responses(entries)
  {
    if d.err.Some? {
      RequestsSnoc(entries, FailureEntry(d.left, d.err.value));
    } else {
      assert entries + [] == entries;
    }
  }

  /** Under a directive that logs requests, every request received on a stream is in its log, once and
      in order, but for one that the stream ends with, failed or not: that one is in no entry. */
  lemma StreamLosesOnlyPending(w: Stream, baseline: Request, d: Served, clock: nat -> nat, end: nat)
    requires WellBehaved(d) && AllConvertible(d.trace) && ShouldLogReq(w.directive)
    ensures var requests := Requests(Entries(WrappedSpec(w, baseline, d, clock, end).log));
      && requests + OptSeq(Pending(d.trace)) == Receives(d.trace)
      && (requests == Receives(d.trace) <==> Pending(d.trace).None?)
      && (Pending(d.trace).Some? ==> Pending(d.trace).value !in requests)
  {
    StreamLogsThePairing(w, baseline, d, clock, end);
    FailureAddsNoMessage(Pair(d.trace, w.directive), d);
    PairKeepsRequests(d.trace, w.directive);
    LastIsApart(Requests(Pair(d.trace, w.directive)), OptSeq(Pending(d.trace)));
  }

  lemma LastIsApart(a: seq<Msg>, b: seq<Msg>)
    requires Distinct(a + b)
    ensures forall m :: m in b ==> m !in a
  {
    forall i, k | 0 <= i < |a| && 0 <= k < |b| ensures a[i] != b[k] {
      assert (a + b)[i] == a[i] && (a + b)[|a| + k] == b[k];
    }
  }

  /** The baseline of a stream, field by field: what the interceptor fills in, with the mode left to the
      client, whatever the interceptor's own mode, and no request, response or status. */
  lemma BaselineIsClean(rule: AuditRule, call: StreamCall)
    ensures var b := BuildBaseline(rule, call).0;
      && (b.Some? <==> ServiceNameOf(call.methodName).Some? && call.principal.Some?)
      && (b.Some? ==>
            var r := b.value;
            && r.payload.Some? && Clean(r) && ModeLeftToClient(r) && r.mode == ModeUnspecified
            && var p := r.payload.value;
               && IsService(call.methodName, p.serviceName) && p.methodName == call.methodName
               && p.principalEmail == call.principal
               && r.justificationToken == call.token && r.operation == Some(call.operation) && r.labels == map[]
               && (rule.logType == "ADMIN_ACTIVITY" ==> r.logType == AdminActivity)
               && (rule.logType == "DATA_ACCESS" ==> r.logType == DataAccess)
               && (rule.logType == "CONSENT_EVENT" ==> r.logType == ConsentEvent)
               && (rule.logType == "SYSTEM_EVENT" ==> r.logType == SystemEvent)
               && (rule.logType !in {"ADMIN_ACTIVITY", "DATA_ACCESS", "CONSENT_EVENT", "SYSTEM_EVENT"} ==>
                     r.logType == TypeUnspecified)
               && p.resourceName == "" && p.metadata == None && p.reason == None && p.status == None)
  {
    if ServiceNameOf(call.methodName).Some? {
      ServiceNameIff(call.methodName, ServiceNameOf(call.methodName).value);
    }
  }
}
