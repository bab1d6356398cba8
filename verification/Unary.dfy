/** The unary interceptor around a handler. */
module Unary {
  import opened AuditLog
  import opened AuditErrors
  import opened JsonStruct
  import opened StreamProtocol
  import opened Pipeline
  import opened Selection
  import opened Rules
  import opened ServiceName

  /** What a handler does, given the log request in its context if there is one: it may change that
      request in any way, but leaves it a payload. */
  datatype Handled = Handled(resp: Msg, err: Option<Error>, logReq: Request)

  type Handler = Option<Request> -> Handled

  ghost predicate KeepsPayload(h: Handler) {
    forall ctx :: h(ctx).logReq.payload.Some?
  }

  /** One incoming call. A principal of None stands for an error of the security context. */
  datatype Incoming = Incoming(methodName: string, req: Msg, principal: Option<string>, token: string)

  /** `given` lists the contexts the handler was called with, `logged` the requests handed to Log. */
  datatype UnaryResult = UnaryResult(
    resp: Option<Msg>, err: Option<Error>, given: seq<Option<Request>>, logged: seq<Request>)

  /** The numbers of the gRPC codes. */
  function CodeNumber(c: Code): int {
    match c
    case Canceled => 1
    case Unknown => 2
    case InvalidArgument => 3
    case DeadlineExceeded => 4
    case NotFound => 5
    case AlreadyExists => 6
    case PermissionDenied => 7
    case ResourceExhausted => 8
    case FailedPrecondition => 9
    case Aborted => 10
    case OutOfRange => 11
    case Unimplemented => 12
    case Internal => 13
    case Unavailable => 14
    case DataLoss => 15
    case Unauthenticated => 16
  }

  function StatusOf(e: Error): RpcStatus {
    match CodeOf(e)
    case Some(code) => RpcStatus(CodeNumber(code), Text(e))
    case None => RpcStatus(13, Text(e))
  }

  const NO_SERVICE_NAME := InterceptorError(RpcError(FailedPrecondition, "failed capturing non-nil service name"))
  const NO_PRINCIPAL := InterceptorError(RpcError(FailedPrecondition, "failed to get request principal"))
  const BAD_REQUEST := InterceptorError(RpcError(Internal, "failed to convert req into a Google struct proto"))
  const BAD_RESPONSE := InterceptorError(RpcError(Internal, "failed to convert resp into a Google struct proto"))
  const NOT_LOGGED := InterceptorError(RpcError(Internal, "failed to emit log"))

  /** The request built for a matched call, before the handler runs; None and an error otherwise. */
  function Build(mode: LogMode, rule: AuditRule, call: Incoming): (r: (Option<Request>, Error))
    ensures r.0.Some? ==> r.0.value.mode == mode && r.0.value.payload.Some?
  {
    var service := ServiceNameOf(call.methodName);
    if service.None? then (None, NO_SERVICE_NAME)
    else if call.principal.None? then (None, NO_PRINCIPAL)
    else if ShouldLogReq(DirectiveOf(rule.directive)) && !Convertible(call.req) then (None, BAD_REQUEST)
    else
      var shown := if ShouldLogReq(DirectiveOf(rule.directive)) then ToProtoStruct(call.req.json) else None;
      (Some(Request(
        Some(Payload(service.value, call.methodName, "", call.principal, None, None, shown, None, None)),
        LogTypeOf(rule.logType), map[], mode, None, call.token)), NO_SERVICE_NAME)
  }

  function WithErrorStatus(r: Request, e: Error): Request {
    WithStatus(r, StatusOf(e))
  }

  function UnarySpec(c: Client, mode: LogMode, rule: Option<AuditRule>, t: nat, call: Incoming, h: Handler): UnaryResult {
    if rule.None? then UnaryResult(Some(h(None).resp), h(None).err, [None], [])
    else
      var (built, e) := Build(mode, rule.value, call);
      if built.None? then
        if ShouldFailClose(mode) then UnaryResult(None, Some(e), [], [])
        else UnaryResult(Some(h(None).resp), h(None).err, [None], [])
      else
        var done := h(built);
        if done.err.Some? then
          UnaryResult(Some(done.resp), done.err, [built], [WithErrorStatus(done.logReq, done.err.value)])
        else if ShouldLogResp(DirectiveOf(rule.value.directive)) && !Convertible(done.resp) then
          UnaryResult(Some(done.resp), if ShouldFailClose(mode) then Some(BAD_RESPONSE) else None, [built], [])
        else
          var final := if ShouldLogResp(DirectiveOf(rule.value.directive))
                       then WithResponse(done.logReq, ToProtoStruct(done.resp.json)) else done.logReq;
          var failed := LogSpec(c, t, final).err.Some? && ShouldFailClose(mode);
          UnaryResult(Some(done.resp), if failed then Some(NOT_LOGGED) else None, [built], [final])
  }

  class HandlerFunc {
    const behave: Handler
    ghost var given: seq<Option<Request>>

    constructor (behave: Handler)
      ensures this.behave == behave && given == []
    {
      this.behave, given := behave, [];
    }

    method Invoke(logReq: RequestRef?) returns (resp: Msg, err: Option<Error>)
      modifies this, logReq
      ensures var ctx := if logReq == null then None else Some(old(logReq.val));
        && given == old(given) + [ctx]
        && resp == behave(ctx).resp && err == behave(ctx).err
        && (logReq != null ==> logReq.val == behave(ctx).logReq)
    {
      var ctx := if logReq == null then None else Some(logReq.val);
      var done := behave(ctx);
      given := given + [ctx];
      if logReq != null {
        logReq.val := done.logReq;
      }
      return done.resp, done.err;
    }
  }

  class Interceptor {
    const client: AuditClient
    const rules: seq<AuditRule>
    const logMode: LogMode
    ghost var logged: seq<Request>

    constructor (client: AuditClient, rules: seq<AuditRule>, logMode: LogMode)
      ensures this.client == client && this.rules == rules && this.logMode == logMode && logged == []
    {
      this.client, this.rules, this.logMode, logged := client, rules, logMode, [];
    }

    method HandleReturnUnary(handler: HandlerFunc, e: Error) returns (resp: Option<Msg>, err: Option<Error>)
      modifies handler
      ensures ShouldFailClose(logMode) ==> resp == None && err == Some(e) && handler.given == old(handler.given)
      ensures !ShouldFailClose(logMode) ==>
        && resp == Some(handler.behave(None).resp) && err == handler.behave(None).err
        && handler.given == old(handler.given) + [None]
    {
      if ShouldFailClose(logMode) {
        return None, Some(e);
      }
      var r;
      r, err := handler.Invoke(null);
      resp := Some(r);
    }

    method HandleReturnWithResponse(handlerResp: Msg, e: Error) returns (resp: Option<Msg>, err: Option<Error>)
      ensures resp == Some(handlerResp) && err == if ShouldFailClose(logMode) then Some(e) else None
    {
      resp := Some(handlerResp);
      err := if ShouldFailClose(logMode) then Some(e) else None;
    }

    method Log(t: nat, logReq: RequestRef) returns (err: Option<Error>)
      modifies logReq, this`logged
      ensures err == LogSpec(client.View(), t, old(logReq.val)).err
      ensures logged == old(logged) + [old(logReq.val)]
    {
      logged := logged + [logReq.val];
      var calls;
      err, calls := client.Log(t, logReq);
    }

    /** The first half: everything up to the handler. The request is null when it cannot be built. */
    method Prepare(rule: AuditRule, call: Incoming) returns (logReq: RequestRef?, e: Error)
      ensures (logReq == null) == Build(logMode, rule, call).0.None?
      ensures logReq != null ==> fresh(logReq) && Some(logReq.val) == Build(logMode, rule, call).0
      ensures logReq == null ==> e == Build(logMode, rule, call).1
    {
      var service := ServiceNameOf(call.methodName);
      if service.None? {
        return null, NO_SERVICE_NAME;
      }
      var r := Request(
        Some(Payload(service.value, call.methodName, "", None, None, None, None, None, None)),
        LogTypeOf(rule.logType), map[], logMode, None, call.token);
      if call.principal.None? {
        return null, NO_PRINCIPAL;
      }
      r := r.(payload := Some(r.payload.value.(principalEmail := call.principal)));
      if ShouldLogReq(DirectiveOf(rule.directive)) {
        var ms := ToProtoStruct(call.req.json);
        if ms.None? {
          return null, BAD_REQUEST;
        }
        r := r.(payload := Some(r.payload.value.(request := ms)));
      }
      logReq := new RequestRef(r);
      e := NO_SERVICE_NAME;
    }

    /** The second half: the handler ran without error on the log request. */
    method Conclude(rule: AuditRule, t: nat, logReq: RequestRef, resp: Msg)
      returns (r: Option<Msg>, err: Option<Error>)
      requires logReq.val.payload.Some?
      modifies logReq, this`logged
      ensures var shown := ShouldLogResp(DirectiveOf(rule.directive));
        var final := if shown then WithResponse(old(logReq.val), ToProtoStruct(resp.json)) else old(logReq.val);
        && r == Some(resp)
        && if shown && !Convertible(resp) then
             err == (if ShouldFailClose(logMode) then Some(BAD_RESPONSE) else None) && logged == old(logged)
           else
             && logged == old(logged) + [final]
             && err == if LogSpec(client.View(), t, final).err.Some? && ShouldFailClose(logMode)
                       then Some(NOT_LOGGED) else None
    {
      if ShouldLogResp(DirectiveOf(rule.directive)) {
        var ms := ToProtoStruct(resp.json);
        if ms.None? {
          r, err := HandleReturnWithResponse(resp, BAD_RESPONSE);
          return;
        }
        logReq.val := logReq.val.(payload := Some(logReq.val.payload.value.(response := ms)));
      }
      var e := Log(t, logReq);
      if e.Some? {
        r, err := HandleReturnWithResponse(resp, NOT_LOGGED);
        return;
      }
      return Some(resp), None;
    }

    method UnaryInterceptor(t: nat, call: Incoming, handler: HandlerFunc)
      returns (resp: Option<Msg>, err: Option<Error>, ghost chosen: Option<nat>)
      requires KeepsPayload(handler.behave)
      modifies handler, this`logged
      ensures IsSelected(Candidates(call.methodName, rules), |call.methodName|, chosen)
      ensures var rule := if chosen.None? then None else Some(rules[chosen.value]);
        var res := UnarySpec(client.View(), logMode, rule, t, call, handler.behave);
        && resp == res.resp && err == res.err
        && handler.given == old(handler.given) + res.given
        && logged == old(logged) + res.logged
    {
      var r := MostRelevantRule(call.methodName, rules);
      chosen := r;
      if r.None? {
        var plain;
        plain, err := handler.Invoke(null);
        resp := Some(plain);
        return;
      }
      var rule := rules[r.value];
      var logReq, e := Prepare(rule, call);
      if logReq == null {
        resp, err := HandleReturnUnary(handler, e);
        return;
      }
      var answer;
      answer, err := handler.Invoke(logReq);
      if err.Some? {
        logReq.val := WithErrorStatus(logReq.val, err.value);
        var ignored := Log(t, logReq);
        resp := Some(answer);
        return;
      }
      resp, err := Conclude(rule, t, logReq, answer);
    }
  }

  // ---- what the interceptor promises ----

  /** Transparency: outside FAIL_CLOSE the handler is called once, and its response and error come back
      unchanged, whatever the rules, the security context, the messages and the processors do. */
  lemma TransparentUnlessFailClose(c: Client, mode: LogMode, rule: Option<AuditRule>, t: nat, call: Incoming, h: Handler)
    requires mode != FailClose
    ensures var res := UnarySpec(c, mode, rule, t, call, h);
      && |res.given| == 1
      && res.resp == Some(h(res.given[0]).resp) && res.err == h(res.given[0]).err
  {
  }

  /** In every mode the handler is called at most once; its response, when it is called, comes back, and
      its error, when it has one, is the error returned. It is not called only in FAIL_CLOSE, when the
      log request cannot be built. */
  lemma HandlerRunsAtMostOnce(c: Client, mode: LogMode, rule: Option<AuditRule>, t: nat, call: Incoming, h: Handler)
    ensures var res := UnarySpec(c, mode, rule, t, call, h);
      && |res.given| <= 1
      && (res.given != [] ==> res.resp == Some(h(res.given[0]).resp)
                              && (h(res.given[0]).err.Some? ==> res.err == h(res.given[0]).err))
      && (res.given == [] <==> mode == FailClose && rule.Some? && Build(mode, rule.value, call).0.None?)
      && (res.given == [] ==> res.resp == None && res.err.Some?)
  {
  }

  /** Safety: in FAIL_CLOSE, when the handler and the processors keep the mode, a nil error for a matched
      method means that one request was handed to Log and either passed every processor or was stopped
      by a precondition; and it is the request as the handler left it, with the response if asked for. */
  lemma FailCloseMeansLogged(c: Client, rule: AuditRule, t: nat, call: Incoming, h: Handler)
    requires AllKeepMode(Slots(c))
    requires forall r :: h(Some(r)).logReq.mode == r.mode
    requires UnarySpec(c, FailClose, Some(rule), t, call, h).err.None?
    ensures var res := UnarySpec(c, FailClose, Some(rule), t, call, h);
      && |res.logged| == 1 && |res.given| == 1 && res.given[0].Some?
      && (AllSucceed(c, t, res.logged[0]) || PreconditionStop(c, t, res.logged[0]))
      && var left := h(res.given[0]);
         res.logged[0] == if ShouldLogResp(DirectiveOf(rule.directive))
                          then WithResponse(left.logReq, ToProtoStruct(left.resp.json)) else left.logReq
  {
    var res := UnarySpec(c, FailClose, Some(rule), t, call, h);
    var r := res.logged[0];
    FirstOfTwo(r.mode, c.logMode);
    ModeDecides(c, t, r);
  }

  /** The code and the number, as the gRPC documentation lists them. */
  predicate IsCodeNumber(code: Code, number: int) {
    (code, number) in {
      (Canceled, 1), (Unknown, 2), (InvalidArgument, 3), (DeadlineExceeded, 4), (NotFound, 5), (AlreadyExists, 6),
      (PermissionDenied, 7), (ResourceExhausted, 8), (FailedPrecondition, 9), (Aborted, 10), (OutOfRange, 11),
      (Unimplemented, 12), (Internal, 13), (Unavailable, 14), (DataLoss, 15), (Unauthenticated, 16)}
  }

  /** A request is another with that error as its status: the message of the error, and the number of
      the first status error in its wrap tree, or 13 when there is none. */
  ghost predicate HasErrorStatus(r: Request, left: Request, e: Error) {
    && left.payload.Some? && r.payload.Some?
    && r.(payload := left.payload) == left
    && r.payload.value.(status := left.payload.value.status) == left.payload.value
    && r.payload.value.status.Some?
    && r.payload.value.status.value.message == Text(e)
    && var number := r.payload.value.status.value.code;
       || (CodeOf(e).Some? && IsCodeNumber(CodeOf(e).value, number))
       || ((forall path :: !StatusAt(e, path)) && number == 13)
  }

  lemma ErrorStatusIsSet(left: Request, e: Error)
    requires left.payload.Some?
    ensures HasErrorStatus(WithErrorStatus(left, e), left, e)
  {
    var path := CodeIsOfFirstStatus(e);
  }

  /** A failed handler is logged: in every mode, and whatever Log makes of it, one request, the one the
      handler left, with the error as its status and nothing else changed. */
  lemma FailedHandlerIsLogged(c: Client, mode: LogMode, rule: AuditRule, t: nat, call: Incoming, h: Handler)
    requires KeepsPayload(h)
    requires Build(mode, rule, call).0.Some? && h(Build(mode, rule, call).0).err.Some?
    ensures var res, done := UnarySpec(c, mode, Some(rule), t, call, h), h(Build(mode, rule, call).0);
      && |res.logged| == 1 && HasErrorStatus(res.logged[0], done.logReq, done.err.value)
      && res.err == done.err && res.resp == Some(done.resp)
  {
    var done := h(Build(mode, rule, call).0);
    ErrorStatusIsSet(done.logReq, done.err.value);
  }

  /** A request is another with that message as its response, and nothing else changed. */
  ghost predicate HasResponse(r: Request, left: Request, resp: Msg) {
    && left.payload.Some? && r.payload.Some?
    && r.(payload := left.payload) == left
    && r.payload.value.(response := left.payload.value.response) == left.payload.value
    && r.payload.value.response.Some? && ReadsBack(r.payload.value.response.value, resp)
  }

  /** A handler that succeeds is logged: in every mode one request, the one the handler left, with the
      response under AUDIT_REQUEST_AND_RESPONSE and as it is under any other directive. Nothing is
      logged exactly when a response that is asked for does not convert. */
  lemma SucceededHandlerIsLogged(c: Client, mode: LogMode, rule: AuditRule, t: nat, call: Incoming, h: Handler)
    requires KeepsPayload(h)
    requires Build(mode, rule, call).0.Some? && h(Build(mode, rule, call).0).err.None?
    ensures var res, done := UnarySpec(c, mode, Some(rule), t, call, h), h(Build(mode, rule, call).0);
      && (res.logged == [] <==> rule.directive == "AUDIT_REQUEST_AND_RESPONSE" && !Convertible(done.resp))
      && (res.logged != [] ==>
            && |res.logged| == 1
            && if rule.directive == "AUDIT_REQUEST_AND_RESPONSE" then HasResponse(res.logged[0], done.logReq, done.resp)
               else res.logged[0] == done.logReq)
  {
    var done := h(Build(mode, rule, call).0);
    if Convertible(done.resp) {
      StructReadsBack(done.resp);
    }
  }

  /** The request that the handler is given: what the interceptor fills in, field by field. */
  lemma BuiltRequest(mode: LogMode, rule: AuditRule, call: Incoming)
    ensures var b := Build(mode, rule, call).0;
      && (b.Some? <==>
            && ServiceNameOf(call.methodName).Some? && call.principal.Some?
            && (rule.directive in {"AUDIT_REQUEST_ONLY", "AUDIT_REQUEST_AND_RESPONSE"} ==> Convertible(call.req)))
      && (b.Some? ==>
            var r, p := b.value, b.value.payload.value;
            && IsService(call.methodName, p.serviceName) && p.methodName == call.methodName
            && p.principalEmail == call.principal && r.justificationToken == call.token && r.mode == mode
            && (rule.logType == "ADMIN_ACTIVITY" ==> r.logType == AdminActivity)
            && (rule.logType == "DATA_ACCESS" ==> r.logType == DataAccess)
            && (rule.logType == "CONSENT_EVENT" ==> r.logType == ConsentEvent)
            && (rule.logType == "SYSTEM_EVENT" ==> r.logType == SystemEvent)
            && (rule.logType !in {"ADMIN_ACTIVITY", "DATA_ACCESS", "CONSENT_EVENT", "SYSTEM_EVENT"} ==>
                  r.logType == TypeUnspecified)
            && r.labels == map[] && r.operation == None
            && p.resourceName == "" && p.metadata == None && p.reason == None && p.response == None && p.status == None
            && (rule.directive in {"AUDIT_REQUEST_ONLY", "AUDIT_REQUEST_AND_RESPONSE"} ==>
                  p.request.Some? && ReadsBack(p.request.value, call.req))
            && (rule.directive !in {"AUDIT_REQUEST_ONLY", "AUDIT_REQUEST_AND_RESPONSE"} ==> p.request == None))
  {
    if ServiceNameOf(call.methodName).Some? {
      ServiceNameIff(call.methodName, ServiceNameOf(call.methodName).value);
    }
    if Convertible(call.req) {
      StructReadsBack(call.req);
    }
  }

  /** A method that no rule matches is left alone: nothing is logged, the handler runs once, without a
      log request, and its response and error come back. */
  lemma UnmatchedIsLeftAlone(c: Client, mode: LogMode, t: nat, call: Incoming, h: Handler)
    ensures UnarySpec(c, mode, None, t, call, h) == UnaryResult(Some(h(None).resp), h(None).err, [None], [])
  {
  }

  /** A handler that runs for a matched method gets the request that was built; and, outside FAIL_CLOSE,
      no log request when none could be. */
  lemma HandlerIsGiven(c: Client, mode: LogMode, rule: AuditRule, t: nat, call: Incoming, h: Handler)
    ensures var res := UnarySpec(c, mode, Some(rule), t, call, h);
      res.given != [] ==> res.given == [Build(mode, rule, call).0]
  {
  }

  /** In FAIL_CLOSE a matched call has no error exactly when the request was built, the handler succeeded,
      a response that is asked for converts, and Log returned nil for the request logged. */
  lemma FailCloseNilIff(c: Client, rule: AuditRule, t: nat, call: Incoming, h: Handler)
    ensures var built, res := Build(FailClose, rule, call).0, UnarySpec(c, FailClose, Some(rule), t, call, h);
      res.err.None? <==>
        && built.Some? && h(built).err.None?
        && (rule.directive == "AUDIT_REQUEST_AND_RESPONSE" ==> Convertible(h(built).resp))
        && |res.logged| == 1 && LogSpec(c, t, res.logged[0]).err.None?
  {
  }

  /** And an error for a matched method is the handler's own or an interceptor error. */
  lemma ErrorsAreAttributable(c: Client, mode: LogMode, rule: AuditRule, t: nat, call: Incoming, h: Handler)
    requires UnarySpec(c, mode, Some(rule), t, call, h).err.Some?
    ensures var res := UnarySpec(c, mode, Some(rule), t, call, h);
      || (res.given != [] && res.err == h(res.given[0]).err)
      || (mode == FailClose && Is(res.err.value, ERR_INTERCEPTOR))
  {
    InterceptorErrors();
    assert UnarySpec(c, mode, Some(rule), t, call, h).given == [] ==>
      UnarySpec(c, mode, Some(rule), t, call, h).err.value == Build(mode, rule, call).1;
  }

  lemma InterceptorErrors()
    ensures Is(NO_SERVICE_NAME, ERR_INTERCEPTOR) && Is(NO_PRINCIPAL, ERR_INTERCEPTOR) && Is(BAD_REQUEST, ERR_INTERCEPTOR)
    ensures Is(BAD_RESPONSE, ERR_INTERCEPTOR) && Is(NOT_LOGGED, ERR_INTERCEPTOR)
  {
    assert NO_SERVICE_NAME.causes[0] == ERR_INTERCEPTOR && NO_PRINCIPAL.causes[0] == ERR_INTERCEPTOR;
    assert BAD_REQUEST.causes[0] == ERR_INTERCEPTOR && BAD_RESPONSE.causes[0] == ERR_INTERCEPTOR;
    assert NOT_LOGGED.causes[0] == ERR_INTERCEPTOR;
  }
}
