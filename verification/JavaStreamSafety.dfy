/** What holds in every state that any interleaving of the Java interceptor reaches. */
module JavaStreamSafety {
  import opened AuditLog
  import opened StreamProtocol
  import opened GoStream
  import opened GoStreamSafety
  import opened JavaStream

  /** Requests handed to auditLog calls that succeeded, and to calls that threw. */
  function Accepted(log: seq<Audited>): seq<Msg> {
    if log == [] then []
    else
      var c := log[|log| - 1];
      Accepted(log[..|log| - 1]) + if c.ok then OptSeq(c.request) else []
  }

  function Thrown(log: seq<Audited>): seq<Msg> {
    if log == [] then []
    else
      var c := log[|log| - 1];
      Thrown(log[..|log| - 1]) + if c.ok then [] else OptSeq(c.request)
  }

  lemma {:induction false} HandedSplits(log: seq<Audited>, x: Msg)
    ensures Count(Handed(log), x) == Count(Accepted(log), x) + Count(Thrown(log), x)
    decreases |log|
  {
    if log != [] {
      var before, req := log[..|log| - 1], OptSeq(log[|log| - 1].request);
      HandedSplits(before, x);
      CountAppend(Handed(before), req, x);
      CountAppend(Accepted(before), req, x);
      CountAppend(Thrown(before), req, x);
      CountAppend(Accepted(before), [], x);
      CountAppend(Thrown(before), [], x);
    }
  }

  lemma {:induction false} ArrivalsAreDistinct(j: Config, builder: Request, acts: seq<JAction>)
    requires JRun(j, JInit(builder), acts).Some?
    ensures Distinct(JRun(j, JInit(builder), acts).value.arrived)
    decreases |acts|
  {
    if acts != [] {
      var n := |acts| - 1;
      ArrivalsAreDistinct(j, builder, acts[..n]);
    }
  }

  /** Conservation: under any interleaving of callbacks, sends and closes, and whatever auditLog throws,
      the messages that arrived are those audited, the queued one, those in the hands of the listener
      and of the calls in flight, and those lost to an exception; and each arrived once. */
  lemma JavaConservation(j: Config, builder: Request, acts: seq<JAction>)
    requires JRun(j, JInit(builder), acts).Some?
    ensures var s := JRun(j, JInit(builder), acts).value;
      && multiset(s.arrived) ==
           multiset(Accepted(s.log)) + multiset(s.deque) + multiset(HeldByListener(s.listener))
           + multiset(HeldByCalls(s.calls)) + (multiset(Thrown(s.log)) + multiset(s.dropped))
      && Distinct(s.arrived)
  {
    var s := JRun(j, JInit(builder), acts).value;
    ArrivalsAreDistinct(j, builder, acts);
    forall x
      ensures multiset(s.arrived)[x] ==
        multiset(Accepted(s.log))[x] + multiset(s.deque)[x] + multiset(HeldByListener(s.listener))[x]
        + multiset(HeldByCalls(s.calls))[x] + multiset(Thrown(s.log))[x] + multiset(s.dropped)[x]
    {
      JRunBalances(j, builder, acts, x);
      HandedSplits(s.log, x);
      CountIsMultiplicity(s.arrived, x);
      CountIsMultiplicity(Accepted(s.log), x);
      CountIsMultiplicity(Thrown(s.log), x);
      CountIsMultiplicity(s.deque, x);
      CountIsMultiplicity(HeldByListener(s.listener), x);
      CountIsMultiplicity(HeldByCalls(s.calls), x);
      CountIsMultiplicity(s.dropped, x);
    }
  }

  lemma {:induction false} AuditsGrow(log: seq<Audited>, i: nat, x: Msg)
    requires i <= |log|
    ensures Count(Handed(log), x) >= Count(Handed(log[..i]), x)
    decreases |log|
  {
    if i < |log| {
      var n := |log| - 1;
      AuditsGrow(log[..n], i, x);
      assert log[..n][..i] == log[..i];
      CountAppend(Handed(log[..n]), OptSeq(log[n].request), x);
    } else {
      assert log[..i] == log;
    }
  }

  lemma AuditCounts(log: seq<Audited>, i: nat, x: Msg)
    requires i < |log| && log[i].request == Some(x)
    ensures Count(Handed(log), x) >= Count(Handed(log[..i]), x) + 1
  {
    AuditsGrow(log, i + 1, x);
    TakeOneMore(log, i);
    CountWithAudit(log[..i], log[i], log[..i + 1], x);
  }

  lemma CountWithAudit(before: seq<Audited>, c: Audited, all: seq<Audited>, x: Msg)
    requires all == before + [c] && c.request == Some(x)
    ensures Count(Handed(all), x) == Count(Handed(before), x) + 1
  {
    HandedSnoc(before, c, x);
    CountOne(x, x);
  }

  /** No request is handed to two auditLog calls. */
  lemma JavaLoggedAtMostOnce(j: Config, builder: Request, acts: seq<JAction>, i: nat, k: nat)
    requires JRun(j, JInit(builder), acts).Some?
    requires i < k < |JRun(j, JInit(builder), acts).value.log|
    requires JRun(j, JInit(builder), acts).value.log[i].request.Some?
    ensures var log := JRun(j, JInit(builder), acts).value.log; log[i].request != log[k].request
  {
    var s := JRun(j, JInit(builder), acts).value;
    var x := s.log[i].request.value;
    JRunBalances(j, builder, acts, x);
    ArrivalsAreDistinct(j, builder, acts);
    DistinctCountsOnce(s.arrived, x);
    if s.log[k].request == Some(x) {
      AuditCounts(s.log, k, x);
      AuditCounts(s.log[..k], i, x);
      assert false;
    }
  }

  /** The responses of the auditLog calls that succeeded, in order. */
  function AuditedResponses(log: seq<Audited>): seq<Msg> {
    if log == [] then []
    else
      var c := log[|log| - 1];
      AuditedResponses(log[..|log| - 1]) + if c.ok then OptSeq(c.response) else []
  }

  lemma AuditedResponsesSnoc(log: seq<Audited>, c: Audited)
    ensures AuditedResponses(log + [c]) == AuditedResponses(log) + if c.ok then OptSeq(c.response) else []
  {
    assert (log + [c])[..|log|] == log;
  }

  function ClearedMessage(c: InFlight): seq<Msg> {
    if c.Cleared? then [c.m] else []
  }

  /** The responses that are logged and not yet sent on, in the order of their auditLog calls. */
  function ClearedInFlight(calls: seq<InFlight>): seq<Msg> {
    Gather(calls, ClearedMessage)
  }

  ghost predicate SendsBalance(s: JState, x: Msg) {
    Count(s.sent, x) + Count(ClearedInFlight(s.calls), x) + Count(s.refused, x) == Count(AuditedResponses(s.log), x)
  }

  lemma AuditedCounts(log: seq<Audited>, c: Audited, x: Msg)
    ensures Count(AuditedResponses(log + [c]), x) ==
            Count(AuditedResponses(log), x) + if c.ok then Count(OptSeq(c.response), x) else 0
  {
    AuditedResponsesSnoc(log, c);
    CountAppend(AuditedResponses(log), if c.ok then OptSeq(c.response) else [], x);
  }

  /** A call leaves the calls in flight with its audit, and may come back cleared to send. */
  lemma AuditedCallKeepsBalance(s: JState, i: nat, call: Audited, cleared: seq<InFlight>, x: Msg)
    requires i < |s.calls| && !s.calls[i].Cleared? && SendsBalance(s, x)
    requires if call.ok && call.response.Some? then cleared == [Cleared(call.response.value)] else cleared == []
    ensures SendsBalance(s.(calls := Without(s.calls, i) + cleared, log := s.log + [call]), x)
  {
    RemovedCall(s.calls, i, ClearedMessage, x);
    AuditedCounts(s.log, call, x);
    var rest := Without(s.calls, i);
    if cleared == [] {
      assert rest + cleared == rest;
    } else {
      AddedCall(rest, cleared[0], ClearedMessage, x);
    }
  }

  lemma AuditCallKeepsBalance(j: Config, s: JState, i: nat, x: Msg)
    requires i < |s.calls| && !s.calls[i].Cleared? && SendsBalance(s, x)
    ensures SendsBalance(JApply(j, s, AuditCall(i)), x)
  {
    match s.calls[i]
    case Sending(m, polled) =>
      var call := AuditLogCall(j, s, polled, Some(m));
      AuditedCallKeepsBalance(s, i, call, if call.ok then [Cleared(m)] else [], x);
    case Closing(polled) =>
      assert Without(s.calls, i) + [] == Without(s.calls, i);
      if polled.Some? {
        AuditedCallKeepsBalance(s, i, AuditLogCall(j, s, polled, None), [], x);
      } else {
        RemovedCall(s.calls, i, ClearedMessage, x);
      }
  }

  lemma TransmitKeepsBalance(j: Config, s: JState, i: nat, accepted: bool, x: Msg)
    requires i < |s.calls| && s.calls[i].Cleared? && SendsBalance(s, x)
    ensures SendsBalance(JApply(j, s, Transmit(i, accepted)), x)
  {
    RemovedCall(s.calls, i, ClearedMessage, x);
    CountAppend(s.sent, [s.calls[i].m], x);
    CountAppend(s.refused, [s.calls[i].m], x);
    assert s.sent + [] == s.sent && s.refused + [] == s.refused;
  }

  lemma {:induction false} RunBalancesSends(j: Config, builder: Request, acts: seq<JAction>, x: Msg)
    requires JRun(j, JInit(builder), acts).Some?
    ensures SendsBalance(JRun(j, JInit(builder), acts).value, x)
    decreases |acts|
  {
    if acts != [] {
      var n := |acts| - 1;
      RunBalancesSends(j, builder, acts[..n], x);
      var s := JRun(j, JInit(builder), acts[..n]).value;
      match acts[n]
      case AuditOldest => AuditedCounts(s.log, AuditLogCall(j, s, Some(s.listener.r), None), x);
      case SendPollLast(m) => AddedCall(s.calls, Sending(m, Last(s.deque)), ClearedMessage, x);
      case ClosePollFirst(_) => AddedCall(s.calls, Closing(First(s.deque)), ClearedMessage, x);
      case AuditCall(i) => AuditCallKeepsBalance(j, s, i, x);
      case Transmit(i, accepted) => TransmitKeepsBalance(j, s, i, accepted, x);
      case _ =>
    }
  }

  /** Log before send: under any interleaving, with any number of sends in flight, the responses whose
      auditLog call returned are those sent on, those not yet sent on, and those the transport refused;
      no other response is ever sent on. */
  lemma JavaLogBeforeSend(j: Config, builder: Request, acts: seq<JAction>)
    requires JRun(j, JInit(builder), acts).Some?
    ensures var s := JRun(j, JInit(builder), acts).value;
      multiset(s.sent) + multiset(ClearedInFlight(s.calls)) + multiset(s.refused) == multiset(AuditedResponses(s.log))
  {
    var s := JRun(j, JInit(builder), acts).value;
    forall x
      ensures multiset(s.sent)[x] + multiset(ClearedInFlight(s.calls))[x] + multiset(s.refused)[x]
              == multiset(AuditedResponses(s.log))[x]
    {
      RunBalancesSends(j, builder, acts, x);
      CountIsMultiplicity(s.sent, x);
      CountIsMultiplicity(ClearedInFlight(s.calls), x);
      CountIsMultiplicity(s.refused, x);
      CountIsMultiplicity(AuditedResponses(s.log), x);
    }
  }
}
