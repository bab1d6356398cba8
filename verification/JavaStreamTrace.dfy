/** The Java interceptor used by one thread, and how its log compares with the Go wrapper's. */
module JavaStreamTrace {
  import opened AuditLog
  import opened JsonStruct
  import opened StreamProtocol
  import opened GoStream
  import opened GoStreamTrace
  import opened JavaStream

  predicate JIdle(s: JState) {
    s.listener.LIdle? && s.calls == []
  }

  /** The loop of onMessage: audit and remove the queued requests, oldest first, until the deque is
      empty or a call throws. */
  function Drain(j: Config, s: JState): (r: (JState, bool))
    ensures r.1 ==> r.0.deque == []
    decreases |s.deque|
  {
    if s.deque == [] then (s, true)
    else
      var polled := s.(deque := s.deque[1..]);
      var call := AuditLogCall(j, polled, Some(s.deque[0]), None);
      var logged := polled.(log := s.log + [call]);
      if call.ok then Drain(j, logged) else (logged, false)
  }

  function AfterOnMessage(j: Config, s: JState, m: Msg): JState {
    var (d, ok) := Drain(j, s.(arrived := s.arrived + [m]));
    if ok then d.(deque := [m]) else d.(dropped := d.dropped + [m])
  }

  /** The transport may take the message or throw, and sees it only if its audit did not throw. */
  function AfterSendMessage(j: Config, s: JState, m: Msg, accepted: bool): JState {
    var call := AuditLogCall(j, s, Last(s.deque), Some(m));
    s.(deque := WithoutLast(s.deque), log := s.log + [call],
       sent := s.sent + (if call.ok && accepted then [m] else []),
       refused := s.refused + if call.ok && !accepted then [m] else [])
  }

  /** `status` is None for OK. */
  function AfterClose(j: Config, s: JState, status: Option<RpcStatus>): JState {
    if status.None? || s.deque == [] then s
    else
      var marked := s.(deque := s.deque[1..], builder := WithStatus(s.builder, status.value));
      marked.(log := s.log + [AuditLogCall(j, marked, Some(s.deque[0]), None)])
  }

  class CallInterceptor {
    const config: Config
    var unloggedRequests: seq<Msg>
    var logBuilder: Request
    var log: seq<Audited>
    ghost var arrived: seq<Msg>
    ghost var sent: seq<Msg>
    ghost var refused: seq<Msg>
    ghost var dropped: seq<Msg>

    constructor (config: Config, logBuilder: Request)
      ensures this.config == config && View() == JInit(logBuilder)
    {
      this.config, this.logBuilder := config, logBuilder;
      unloggedRequests, log, arrived, sent, refused, dropped := [], [], [], [], [], [];
    }

    ghost function View(): JState
      reads this
    {
      JState(logBuilder, unloggedRequests, LIdle, [], arrived, log, sent, refused, dropped)
    }

    /** Works on a copy of the builder; the result is false when it throws. */
    method AuditLog(request: Option<Msg>, response: Option<Msg>) returns (ok: bool)
      modifies this`log
      ensures log == old(log) + [AuditLogCall(config, old(View()), request, response)]
      ensures ok == AuditLogCall(config, old(View()), request, response).ok
    {
      var logBuilderCopy := logBuilder;
      var entry := Entry(logBuilder, None, None);
      if ShouldLogResp(config.directive) && response.Some? {
        logBuilderCopy := WithResponse(logBuilderCopy, ToProtoStruct(response.value.json));
        entry := entry.(resp := response);
      }
      if ShouldLogReq(config.directive) && request.Some? {
        logBuilderCopy := WithRequest(logBuilderCopy, ToProtoStruct(request.value.json));
        entry := entry.(req := request);
      }
      ok := config.accepts(|log|, entry);
      log := log + [Audited(request, response, entry, logBuilderCopy, ok)];
    }

    method OnMessage(message: Msg) returns (ok: bool)
      modifies this
      ensures View() == AfterOnMessage(config, old(View()), message)
      ensures ok <==> dropped == old(dropped)
    {
      arrived := arrived + [message];
      ghost var s := View();
      while unloggedRequests != []
        invariant Drain(config, View()) == Drain(config, s)
        invariant dropped == old(dropped)
        decreases |unloggedRequests|
      {
        var unloggedRequest := First(unloggedRequests);
        unloggedRequests := WithoutFirst(unloggedRequests);
        if unloggedRequest.Some? {
          ok := AuditLog(unloggedRequest, None);
          if !ok {
            dropped := dropped + [message];
            return;
          }
        }
      }
      unloggedRequests := unloggedRequests + [message];
      ok := true;
    }

    /** `accepted` is whether the transport takes the message. */
    method SendMessage(message: Msg, accepted: bool) returns (ok: bool)
      modifies this
      ensures View() == AfterSendMessage(config, old(View()), message, accepted)
      ensures ok <==> sent == old(sent) + [message]
    {
      var unloggedRequest := Last(unloggedRequests);
      unloggedRequests := WithoutLast(unloggedRequests);
      ok := AuditLog(unloggedRequest, Some(message));
      if !ok {
        return;
      }
      if accepted {
        sent := sent + [message];
      } else {
        refused := refused + [message];
      }
      ok := accepted;
    }

    /** The result is whether the call itself is closed: an audit that throws prevents it. */
    method Close(status: Option<RpcStatus>) returns (ok: bool)
      modifies this
      ensures View() == AfterClose(config, old(View()), status)
      ensures ok <==> forall k :: |old(log)| <= k < |log| ==> log[k].ok
    {
      ok := true;
      if status.Some? {
        var unloggedRequest := First(unloggedRequests);
        unloggedRequests := WithoutFirst(unloggedRequests);
        if unloggedRequest.Some? {
          logBuilder := WithStatus(logBuilder, status.value);
          ok := AuditLog(unloggedRequest, None);
          assert ok == log[|old(log)|].ok;
        }
      }
    }
  }

  // ---- traces ----

  /** What the Java interceptor adds to the log at event i: it audits a request that another request
      follows under every directive, though only some put the request in the entry. */
  function JavaEntryAt(trace: seq<Event>, i: nat, directive: Directive): seq<Entry>
    requires i < |trace|
  {
    var waiting := if FollowsRecv(trace, i) then Some(trace[i - 1].m) else None;
    var shown := if ShouldLogReq(directive) then waiting else None;
    match trace[i]
    case Send(m, base) => [Entry(base, shown, if ShouldLogResp(directive) then Some(m) else None)]
    case Recv(_, base) => if waiting.Some? then [Entry(base, shown, None)] else []
  }

  function JavaPair(trace: seq<Event>, directive: Directive): seq<Entry> {
    if trace == [] then []
    else
      var n := |trace| - 1;
      JavaPair(trace[..n], directive) + JavaEntryAt(trace, n, directive)
  }

  lemma {:induction false} JavaPairCounts(trace: seq<Event>, directive: Directive)
    ensures |JavaPair(trace, directive)| == |Sends(trace)| + Orphans(trace)
    decreases |trace|
  {
    if trace != [] {
      JavaPairCounts(trace[..|trace| - 1], directive);
    }
  }

  lemma {:induction false} PairingsAgree(trace: seq<Event>, directive: Directive)
    requires ShouldLogReq(directive) || Orphans(trace) == 0
    ensures JavaPair(trace, directive) == Pair(trace, directive)
    decreases |trace|
  {
    if trace != [] {
      PairingsAgree(trace[..|trace| - 1], directive);
    }
  }

  /** The two languages ask for the same entries exactly when the directive logs requests or no receive
      follows another at once. */
  lemma PairingsAgreeIff(trace: seq<Event>, directive: Directive)
    ensures JavaPair(trace, directive) == Pair(trace, directive) <==>
            ShouldLogReq(directive) || Orphans(trace) == 0
  {
    if ShouldLogReq(directive) || Orphans(trace) == 0 {
      PairingsAgree(trace, directive);
    } else {
      JavaPairCounts(trace, directive);
      PairCounts(trace, directive);
    }
  }

  /** The interceptor driven through a trace, the handler writing the builder before each event. */
  function JavaDrive(j: Config, builder: Request, trace: seq<Event>): JState {
    if trace == [] then JInit(builder)
    else
      var n := |trace| - 1;
      var s := JavaDrive(j, builder, trace[..n]);
      match trace[n]
      case Recv(m, base) => AfterOnMessage(j, s.(builder := base), m)
      case Send(m, base) => AfterSendMessage(j, s.(builder := base), m, true)
  }

  function JavaEntries(log: seq<Audited>): seq<Entry> {
    seq(|log|, i requires 0 <= i < |log| => log[i].entry)
  }

  ghost predicate NothingThrows(j: Config) {
    forall k, e :: j.accepts(k, e)
  }

  ghost predicate JavaPaired(j: Config, s: JState, trace: seq<Event>) {
    && JavaEntries(s.log) == JavaPair(trace, j.directive)
    && s.deque == OptSeq(Pending(trace))
    && s.sent == Sends(trace)
    && s.dropped == [] && s.refused == []
  }

  lemma DrainOne(j: Config, s: JState)
    requires |s.deque| <= 1 && NothingThrows(j)
    ensures Drain(j, s) == (s.(deque := [], log := s.log +
      if s.deque == [] then [] else [AuditLogCall(j, s.(deque := []), Some(s.deque[0]), None)]), true)
  {
    if s.deque == [] {
      assert s.log + [] == s.log;
    } else {
      assert s.deque[1..] == [];
    }
  }

  lemma RecvKeepsJavaPairing(j: Config, s: JState, trace: seq<Event>)
    requires NothingThrows(j) && trace != [] && trace[|trace| - 1].Recv?
    requires var n := |trace| - 1; JavaPaired(j, s, trace[..n]) && s.builder == trace[n].base
    ensures JavaPaired(j, AfterOnMessage(j, s, trace[|trace| - 1].m), trace)
  {
    var n := |trace| - 1;
    var s1 := s.(arrived := s.arrived + [trace[n].m]);
    DrainOne(j, s1);
    var s' := AfterOnMessage(j, s, trace[n].m);
    assert s.deque == if FollowsRecv(trace, n) then [trace[n - 1].m] else [];
    assert JavaEntries(s'.log) == JavaEntries(s.log) + JavaEntryAt(trace, n, j.directive);
  }

  lemma SendKeepsJavaPairing(j: Config, s: JState, trace: seq<Event>)
    requires NothingThrows(j) && trace != [] && trace[|trace| - 1].Send?
    requires var n := |trace| - 1; JavaPaired(j, s, trace[..n]) && s.builder == trace[n].base
    ensures JavaPaired(j, AfterSendMessage(j, s, trace[|trace| - 1].m, true), trace)
  {
    var n := |trace| - 1;
    var s' := AfterSendMessage(j, s, trace[n].m, true);
    assert s.deque == if FollowsRecv(trace, n) then [trace[n - 1].m] else [];
    assert JavaEntries(s'.log) == JavaEntries(s.log) + JavaEntryAt(trace, n, j.directive);
  }

  /** Trace refinement for Java: with no exception, the entries are its pairing of the trace, the deque
      holds the pending request, and every response is sent. */
  lemma {:induction false} JavaLogsItsPairing(j: Config, builder: Request, trace: seq<Event>)
    requires NothingThrows(j)
    ensures JavaPaired(j, JavaDrive(j, builder, trace), trace)
    decreases |trace|
  {
    if trace != [] {
      var n := |trace| - 1;
      JavaLogsItsPairing(j, builder, trace[..n]);
      var s := JavaDrive(j, builder, trace[..n]).(builder := trace[n].base);
      match trace[n]
      case Recv(m, base) => RecvKeepsJavaPairing(j, s, trace);
      case Send(m, base) => SendKeepsJavaPairing(j, s, trace);
    }
  }

  /** Cross-language equivalence: on any error-free trace the Go wrapper and the Java interceptor log the
      same entries, if and only if the directive logs requests or no receive follows another at once. */
  lemma GoAndJavaLogAlike(w: Stream, j: Config, baseline: Request, trace: seq<Event>, clock: nat -> nat)
    requires FreshMessages(trace) && AllConvertible(trace) && NothingThrows(j) && w.directive == j.directive
    ensures Entries(Drive(w, baseline, trace, clock).log) == JavaEntries(JavaDrive(j, baseline, trace).log)
            <==> ShouldLogReq(w.directive) || Orphans(trace) == 0
  {
    GoLogsThePairing(w, baseline, trace, clock);
    JavaLogsItsPairing(j, baseline, trace);
    PairingsAgreeIff(trace, w.directive);
  }

  // ---- whole calls are runs of the interleaved machine ----

  lemma {:induction false} DrainIsARun(j: Config, s0: JState, acts: seq<JAction>, m: Msg) returns (more: seq<JAction>)
    requires JRun(j, s0, acts).Some? && JRun(j, s0, acts).value.listener == LCheck(m)
    ensures var s := JRun(j, s0, acts).value;
      var (d, ok) := Drain(j, s.(listener := LIdle));
      JRun(j, s0, more) == Some(
        if ok then d.(deque := [m]) else d.(dropped := d.dropped + [m]))
    decreases |JRun(j, s0, acts).value.deque|
  {
    var s := JRun(j, s0, acts).value;
    JRunStep(j, s0, acts, CheckEmpty);
    more := acts + [CheckEmpty];
    if s.deque == [] {
      JRunStep(j, s0, more, AddLast);
      more := more + [AddLast];
      assert [] + [m] == [m];
    } else {
      JRunStep(j, s0, more, PollFirst);
      more := more + [PollFirst];
      JRunStep(j, s0, more, AuditOldest);
      more := more + [AuditOldest];
      if JRun(j, s0, more).value.listener.LCheck? {
        more := DrainIsARun(j, s0, more, m);
      }
    }
  }

  /** A whole onMessage is a run, so what holds of every run holds of it. */
  lemma OnMessageIsARun(j: Config, s0: JState, acts: seq<JAction>, m: Msg) returns (more: seq<JAction>)
    requires JRun(j, s0, acts).Some? && JIdle(JRun(j, s0, acts).value)
    requires m !in JRun(j, s0, acts).value.arrived
    ensures JRun(j, s0, more) == Some(AfterOnMessage(j, JRun(j, s0, acts).value, m))
  {
    JRunStep(j, s0, acts, OnMessage(m));
    more := DrainIsARun(j, s0, acts + [OnMessage(m)], m);
  }

  lemma SendMessageIsARun(j: Config, s0: JState, acts: seq<JAction>, m: Msg, accepted: bool)
    requires JRun(j, s0, acts).Some? && JIdle(JRun(j, s0, acts).value)
    ensures var logged := acts + [SendPollLast(m)] + [AuditCall(0)];
      || JRun(j, s0, logged) == Some(AfterSendMessage(j, JRun(j, s0, acts).value, m, accepted))
      || JRun(j, s0, logged + [Transmit(0, accepted)]) ==
           Some(AfterSendMessage(j, JRun(j, s0, acts).value, m, accepted))
  {
    var logged := acts + [SendPollLast(m)] + [AuditCall(0)];
    var after := AfterSendMessage(j, JRun(j, s0, acts).value, m, accepted);
    JRunStep(j, s0, acts, SendPollLast(m));
    JRunStep(j, s0, acts + [SendPollLast(m)], AuditCall(0));
    var polled := JApply(j, JRun(j, s0, acts).value, SendPollLast(m));
    SendInThree(j, JRun(j, s0, acts).value, m, accepted);
    if JApply(j, polled, AuditCall(0)).calls != [] {
      JRunStep(j, s0, logged, Transmit(0, accepted));
    }
  }

  lemma SendInThree(j: Config, s: JState, m: Msg, accepted: bool)
    requires JIdle(s)
    ensures var polled := JApply(j, s, SendPollLast(m));
      var audited := JApply(j, polled, AuditCall(0));
      && polled.calls == [Sending(m, Last(s.deque))]
      && (audited.calls == [] || audited.calls == [Cleared(m)])
      && AfterSendMessage(j, s, m, accepted) ==
           if audited.calls == [] then audited else JApply(j, audited, Transmit(0, accepted))
  {
    var polled := JApply(j, s, SendPollLast(m));
    assert polled.calls == [Sending(m, Last(s.deque))] && Without(polled.calls, 0) == [];
    assert Without([Cleared(m)], 0) == [];
    assert s.sent + [] == s.sent && s.refused + [] == s.refused;
  }

  lemma CloseIsARun(j: Config, s0: JState, acts: seq<JAction>, status: RpcStatus)
    requires JRun(j, s0, acts).Some? && JIdle(JRun(j, s0, acts).value)
    ensures JRun(j, s0, acts + [ClosePollFirst(status)] + [AuditCall(0)]) ==
            Some(AfterClose(j, JRun(j, s0, acts).value, Some(status)))
  {
    JRunStep(j, s0, acts, ClosePollFirst(status));
    JRunStep(j, s0, acts + [ClosePollFirst(status)], AuditCall(0));
  }
}
