/** The Java interceptor at deque-operation granularity: one listener callback at a time, any number of
    sendMessage and close calls in flight beside it. */
module JavaStream {
  import opened AuditLog
  import opened StreamProtocol
  import opened GoStream

  /** The directive of the selector, and whether the k-th auditLog call, for an entry, converts its
      messages and gets through the client; when it does not, the call throws. */
  datatype Config = Config(directive: Directive, accepts: (nat, Entry) -> bool)

  /** Where onMessage(m) stands: before isEmpty, before pollFirst, before auditLog(r), before add. */
  datatype Listener =
    | LIdle
    | LCheck(m: Msg)
    | LPoll(m: Msg)
    | LAudit(m: Msg, r: Msg)
    | LAdd(m: Msg)

  /** A call in flight beside the listener: a sendMessage or close that has polled the deque and not
      yet logged, or a sendMessage whose auditLog has returned and whose message is not yet sent on. */
  datatype InFlight =
    | Sending(m: Msg, polled: Option<Msg>)
    | Cleared(m: Msg)
    | Closing(polled: Option<Msg>)

  /** One auditLog call: the request and response it was called with, the entry it built, the payload
      with what goes with it that the client was given, and its success. */
  datatype Audited = Audited(request: Option<Msg>, response: Option<Msg>, entry: Entry, given: Request, ok: bool)

  datatype JState = JState(
    builder: Request,        // the shared log builder
    deque: seq<Msg>,         // unloggedRequests, oldest first
    listener: Listener,
    calls: seq<InFlight>,
    arrived: seq<Msg>,
    log: seq<Audited>,
    sent: seq<Msg>,          // responses the transport took
    refused: seq<Msg>,       // responses it threw on
    dropped: seq<Msg>)       // messages whose onMessage threw before they were queued

  datatype JAction =
    | HandlerWrites(base: Request)
    | OnMessage(m: Msg)
    | CheckEmpty
    | PollFirst
    | AuditOldest
    | AddLast
    | SendPollLast(m: Msg)
    | ClosePollFirst(status: RpcStatus)   // only for a status that is not OK
    | AuditCall(i: nat)
    | Transmit(i: nat, accepted: bool)

  function JInit(builder: Request): JState {
    JState(builder, [], LIdle, [], [], [], [], [], [])
  }

  /** Callbacks come one at a time and bring new message objects. */
  predicate JEnabled(s: JState, a: JAction) {
    match a
    case HandlerWrites(_) => true
    case OnMessage(m) => s.listener.LIdle? && m !in s.arrived
    case CheckEmpty => s.listener.LCheck?
    case PollFirst => s.listener.LPoll?
    case AuditOldest => s.listener.LAudit?
    case AddLast => s.listener.LAdd?
    case SendPollLast(_) => true
    case ClosePollFirst(_) => true
    case AuditCall(i) => i < |s.calls| && !s.calls[i].Cleared?
    case Transmit(i, _) => i < |s.calls| && s.calls[i].Cleared?
  }

  function First(ms: seq<Msg>): Option<Msg> {
    if ms == [] then None else Some(ms[0])
  }

  function Last(ms: seq<Msg>): Option<Msg> {
    if ms == [] then None else Some(ms[|ms| - 1])
  }

  function WithoutFirst(ms: seq<Msg>): seq<Msg> {
    if ms == [] then [] else ms[1..]
  }

  function WithoutLast(ms: seq<Msg>): seq<Msg> {
    if ms == [] then [] else ms[..|ms| - 1]
  }

  /** auditLog: a copy of the builder, with what the directive asks for of what is there. */
  function AuditLogCall(j: Config, s: JState, request: Option<Msg>, response: Option<Msg>): Audited {
    var e := Entry(s.builder, if ShouldLogReq(j.directive) then request else None,
                   if ShouldLogResp(j.directive) then response else None);
    Audited(request, response, e, Rendered(e), j.accepts(|s.log|, e))
  }

  function Without(calls: seq<InFlight>, i: nat): seq<InFlight>
    requires i < |calls|
  {
    calls[..i] + calls[i + 1..]
  }

  function JApply(j: Config, s: JState, a: JAction): JState
    requires JEnabled(s, a)
  {
    match a
    case HandlerWrites(b) => s.(builder := b)
    case OnMessage(m) => s.(listener := LCheck(m), arrived := s.arrived + [m])
    case CheckEmpty => s.(listener := if s.deque == [] then LAdd(s.listener.m) else LPoll(s.listener.m))
    case PollFirst =>
      if s.deque == [] then s.(listener := LCheck(s.listener.m))
      else s.(listener := LAudit(s.listener.m, s.deque[0]), deque := s.deque[1..])
    case AuditOldest =>
      var call := AuditLogCall(j, s, Some(s.listener.r), None);
      if call.ok then s.(log := s.log + [call], listener := LCheck(s.listener.m))
      else s.(log := s.log + [call], listener := LIdle, dropped := s.dropped + [s.listener.m])
    case AddLast => s.(listener := LIdle, deque := s.deque + [s.listener.m])
    case SendPollLast(m) => s.(calls := s.calls + [Sending(m, Last(s.deque))], deque := WithoutLast(s.deque))
    case ClosePollFirst(status) =>
      s.(builder := if s.deque == [] then s.builder else WithStatus(s.builder, status),
         calls := s.calls + [Closing(First(s.deque))], deque := WithoutFirst(s.deque))
    case Transmit(i, accepted) =>
      var m := s.calls[i].m;
      s.(calls := Without(s.calls, i), sent := s.sent + (if accepted then [m] else []),
         refused := s.refused + if accepted then [] else [m])
    case AuditCall(i) =>
      match s.calls[i]
      case Sending(m, polled) =>
        var call := AuditLogCall(j, s, polled, Some(m));
        s.(calls := Without(s.calls, i) + (if call.ok then [Cleared(m)] else []), log := s.log + [call])
      case Closing(polled) =>
        if polled.None? then s.(calls := Without(s.calls, i))
        else s.(calls := Without(s.calls, i), log := s.log + [AuditLogCall(j, s, polled, None)])
  }

  function JRun(j: Config, s0: JState, acts: seq<JAction>): Option<JState> {
    if acts == [] then Some(s0)
    else
      var n := |acts| - 1;
      match JRun(j, s0, acts[..n])
      case None => None
      case Some(s) => if JEnabled(s, acts[n]) then Some(JApply(j, s, acts[n])) else None
  }

  lemma JRunStep(j: Config, s0: JState, acts: seq<JAction>, a: JAction)
    requires JRun(j, s0, acts).Some? && JEnabled(JRun(j, s0, acts).value, a)
    ensures JRun(j, s0, acts + [a]) == Some(JApply(j, JRun(j, s0, acts).value, a))
  {
    assert (acts + [a])[..|acts|] == acts;
  }

  // ---- the deque holds one request ----

  predicate OneQueued(s: JState) {
    |s.deque| <= 1 && (s.listener.LAdd? || s.listener.LAudit? ==> s.deque == [])
  }

  lemma StepKeepsOneQueued(j: Config, s: JState, a: JAction)
    requires OneQueued(s) && JEnabled(s, a)
    ensures OneQueued(JApply(j, s, a))
  {
  }

  /** In every reachable state the deque holds at most one request, so that polling it at either end
      gives the same request and leaves the same deque. */
  lemma {:induction false} DequeHoldsOne(j: Config, builder: Request, acts: seq<JAction>)
    requires JRun(j, JInit(builder), acts).Some?
    ensures var s := JRun(j, JInit(builder), acts).value;
      OneQueued(s) && First(s.deque) == Last(s.deque) && WithoutFirst(s.deque) == WithoutLast(s.deque)
    decreases |acts|
  {
    if acts != [] {
      var n := |acts| - 1;
      DequeHoldsOne(j, builder, acts[..n]);
      StepKeepsOneQueued(j, JRun(j, JInit(builder), acts[..n]).value, acts[n]);
    }
  }

  // ---- the drain loop ends ----

  predicate IsLoopStep(a: JAction) {
    a.CheckEmpty? || a.PollFirst? || a.AuditOldest?
  }

  function LoopSteps(acts: seq<JAction>): nat {
    if acts == [] then 0
    else LoopSteps(acts[..|acts| - 1]) + if IsLoopStep(acts[|acts| - 1]) then 1 else 0
  }

  /** How many more steps the drain loop can take, whatever the other threads do. */
  function Rank(s: JState): nat {
    match s.listener
    case LIdle => 0
    case LAdd(_) => 0
    case LCheck(_) => 3 * |s.deque| + 1
    case LPoll(_) => if s.deque == [] then 2 else 3 * |s.deque|
    case LAudit(_, _) => 3 * |s.deque| + 2
  }

  predicate InLoop(s: JState) {
    s.listener.LCheck? || s.listener.LPoll? || s.listener.LAudit?
  }

  /** The step of the loop that comes next. */
  function NextLoopStep(s: JState): JAction
    requires InLoop(s)
  {
    if s.listener.LCheck? then CheckEmpty else if s.listener.LPoll? then PollFirst else AuditOldest
  }

  lemma StepLowersRank(j: Config, s: JState, a: JAction)
    requires JEnabled(s, a) && !a.OnMessage?
    ensures Rank(JApply(j, s, a)) + (if IsLoopStep(a) then 1 else 0) <= Rank(s)
  {
  }

  /** Between one onMessage and the next, under any interleaving, the drain loop takes at most as many
      steps as its rank at the start. */
  lemma {:induction false} DrainIsBounded(j: Config, s0: JState, acts: seq<JAction>)
    requires JRun(j, s0, acts).Some?
    requires forall i :: 0 <= i < |acts| ==> !acts[i].OnMessage?
    ensures LoopSteps(acts) + Rank(JRun(j, s0, acts).value) <= Rank(s0)
    decreases |acts|
  {
    if acts != [] {
      var n := |acts| - 1;
      DrainIsBounded(j, s0, acts[..n]);
      StepLowersRank(j, JRun(j, s0, acts[..n]).value, acts[n]);
    }
  }

  /** So from any reachable state, wherever the listener stands and whatever the other threads do, the
      loop of the current onMessage ends within four steps; and as long as it has not ended, its next
      step can be taken. */
  lemma DrainTerminates(j: Config, builder: Request, before: seq<JAction>, after: seq<JAction>)
    requires JRun(j, JInit(builder), before).Some?
    requires JRun(j, JRun(j, JInit(builder), before).value, after).Some?
    requires forall i :: 0 <= i < |after| ==> !after[i].OnMessage?
    ensures var s := JRun(j, JRun(j, JInit(builder), before).value, after).value;
      && LoopSteps(after) <= 4
      && (LoopSteps(after) == 4 ==> !InLoop(s))
      && (InLoop(s) ==> IsLoopStep(NextLoopStep(s)) && JEnabled(s, NextLoopStep(s)))
  {
    DequeHoldsOne(j, builder, before);
    DrainIsBounded(j, JRun(j, JInit(builder), before).value, after);
  }

  // ---- conservation ----

  function Handed(log: seq<Audited>): seq<Msg> {
    if log == [] then [] else Handed(log[..|log| - 1]) + OptSeq(log[|log| - 1].request)
  }

  function HeldByListener(l: Listener): seq<Msg> {
    match l
    case LIdle => []
    case LCheck(m) => [m]
    case LPoll(m) => [m]
    case LAudit(m, r) => [m, r]
    case LAdd(m) => [m]
  }

  function Holds(c: InFlight): seq<Msg> {
    if c.Cleared? then [] else OptSeq(c.polled)
  }

  /** What f finds in the calls in flight, in their order. */
  function Gather(calls: seq<InFlight>, f: InFlight -> seq<Msg>): seq<Msg> {
    if calls == [] then [] else Gather(calls[..|calls| - 1], f) + f(calls[|calls| - 1])
  }

  function HeldByCalls(calls: seq<InFlight>): seq<Msg> {
    Gather(calls, Holds)
  }

  function JAccounted(s: JState, x: Msg): nat {
    Count(Handed(s.log), x) + Count(s.deque, x) + Count(HeldByListener(s.listener), x)
    + Count(HeldByCalls(s.calls), x) + Count(s.dropped, x)
  }

  lemma HandedSnoc(log: seq<Audited>, c: Audited, x: Msg)
    ensures Count(Handed(log + [c]), x) == Count(Handed(log), x) + Count(OptSeq(c.request), x)
  {
    assert (log + [c])[..|log|] == log;
    CountAppend(Handed(log), OptSeq(c.request), x);
  }

  lemma {:induction false} GatherAppend(a: seq<InFlight>, b: seq<InFlight>, f: InFlight -> seq<Msg>)
    ensures Gather(a + b, f) == Gather(a, f) + Gather(b, f)
    decreases |b|
  {
    if b == [] {
      assert a + b == a;
    } else {
      var n := |b| - 1;
      assert (a + b)[..|a + b| - 1] == a + b[..n];
      GatherAppend(a, b[..n], f);
    }
  }

  lemma GatherOne(c: InFlight, f: InFlight -> seq<Msg>)
    ensures Gather([c], f) == f(c)
  {
    assert [c][..0] == [];
    assert [] + f(c) == f(c);
  }

  /** What f finds before call i, in it, and after it. */
  lemma GatherAround(calls: seq<InFlight>, i: nat, f: InFlight -> seq<Msg>)
    requires i < |calls|
    ensures Gather(calls, f) == Gather(calls[..i], f) + f(calls[i]) + Gather(calls[i + 1..], f)
    ensures Gather(Without(calls, i), f) == Gather(calls[..i], f) + Gather(calls[i + 1..], f)
  {
    SplitAround(calls, i);
    GatherAppend(calls[..i] + [calls[i]], calls[i + 1..], f);
    GatherAppend(calls[..i], [calls[i]], f);
    GatherOne(calls[i], f);
    GatherAppend(calls[..i], calls[i + 1..], f);
  }

  lemma RemovedCall(calls: seq<InFlight>, i: nat, f: InFlight -> seq<Msg>, x: Msg)
    requires i < |calls|
    ensures Count(Gather(calls, f), x) == Count(Gather(Without(calls, i), f), x) + Count(f(calls[i]), x)
  {
    var before, after := Gather(calls[..i], f), Gather(calls[i + 1..], f);
    GatherAround(calls, i, f);
    CountAppend(before + f(calls[i]), after, x);
    CountAppend(before, f(calls[i]), x);
    CountAppend(before, after, x);
  }

  lemma AddedCall(calls: seq<InFlight>, c: InFlight, f: InFlight -> seq<Msg>, x: Msg)
    ensures Count(Gather(calls + [c], f), x) == Count(Gather(calls, f), x) + Count(f(c), x)
  {
    GatherAppend(calls, [c], f);
    GatherOne(c, f);
    CountAppend(Gather(calls, f), f(c), x);
  }

  lemma PolledEnds(ms: seq<Msg>, x: Msg)
    ensures Count(ms, x) == Count(OptSeq(First(ms)), x) + Count(WithoutFirst(ms), x)
    ensures Count(ms, x) == Count(OptSeq(Last(ms)), x) + Count(WithoutLast(ms), x)
  {
    if ms != [] {
      assert ms == [ms[0]] + ms[1..];
      CountAppend([ms[0]], ms[1..], x);
      assert ms == ms[..|ms| - 1] + [ms[|ms| - 1]];
      CountAppend(ms[..|ms| - 1], [ms[|ms| - 1]], x);
    }
  }

  lemma PollBalances(j: Config, s: JState, x: Msg)
    requires s.listener.LPoll?
    ensures JAccounted(JApply(j, s, PollFirst), x) == JAccounted(s, x)
  {
    PolledEnds(s.deque, x);
    if s.deque != [] {
      PairCount(s.listener.m, s.deque[0], x);
    }
  }

  lemma PairCount(a: Msg, b: Msg, x: Msg)
    ensures Count([a, b], x) == Count([a], x) + Count([b], x)
  {
    assert [a, b] == [a] + [b];
    CountAppend([a], [b], x);
  }

  lemma AuditKeepsAll(s: JState, call: Audited, l: Listener, dropped: seq<Msg>, x: Msg)
    requires s.listener.LAudit? && call.request == Some(s.listener.r)
    requires || (l == LCheck(s.listener.m) && dropped == s.dropped)
             || (l == LIdle && dropped == s.dropped + [s.listener.m])
    ensures JAccounted(s.(log := s.log + [call], listener := l, dropped := dropped), x) == JAccounted(s, x)
  {
    HandedSnoc(s.log, call, x);
    PairCount(s.listener.m, s.listener.r, x);
    CountAppend(s.dropped, [s.listener.m], x);
  }

  lemma AuditBalances(j: Config, s: JState, x: Msg)
    requires s.listener.LAudit?
    ensures JAccounted(JApply(j, s, AuditOldest), x) == JAccounted(s, x)
  {
    var call := AuditLogCall(j, s, Some(s.listener.r), None);
    if call.ok {
      AuditKeepsAll(s, call, LCheck(s.listener.m), s.dropped, x);
    } else {
      AuditKeepsAll(s, call, LIdle, s.dropped + [s.listener.m], x);
    }
  }

  lemma SendPollBalances(j: Config, s: JState, m: Msg, x: Msg)
    ensures JAccounted(JApply(j, s, SendPollLast(m)), x) == JAccounted(s, x)
  {
    PolledEnds(s.deque, x);
    var c := Sending(m, Last(s.deque));
    AddedCall(s.calls, c, Holds, x);
  }

  lemma ClosePollBalances(j: Config, s: JState, status: RpcStatus, x: Msg)
    ensures JAccounted(JApply(j, s, ClosePollFirst(status)), x) == JAccounted(s, x)
  {
    PolledEnds(s.deque, x);
    var c := Closing(First(s.deque));
    AddedCall(s.calls, c, Holds, x);
  }

  lemma CallDone(s: JState, i: nat, call: Audited, x: Msg)
    requires i < |s.calls| && OptSeq(call.request) == Holds(s.calls[i])
    ensures JAccounted(s.(calls := Without(s.calls, i), log := s.log + [call]), x) == JAccounted(s, x)
  {
    RemovedCall(s.calls, i, Holds, x);
    HandedSnoc(s.log, call, x);
  }

  lemma CallGone(s: JState, i: nat, x: Msg)
    requires i < |s.calls| && Holds(s.calls[i]) == []
    ensures JAccounted(s.(calls := Without(s.calls, i)), x) == JAccounted(s, x)
  {
    RemovedCall(s.calls, i, Holds, x);
  }

  lemma ClearedHoldsNothing(s: JState, m: Msg, x: Msg)
    ensures JAccounted(s.(calls := s.calls + [Cleared(m)]), x) == JAccounted(s, x)
  {
    AddedCall(s.calls, Cleared(m), Holds, x);
  }

  lemma AuditCallBalances(j: Config, s: JState, i: nat, x: Msg)
    requires i < |s.calls| && !s.calls[i].Cleared?
    ensures JAccounted(JApply(j, s, AuditCall(i)), x) == JAccounted(s, x)
  {
    match s.calls[i]
    case Sending(m, polled) =>
      var call := AuditLogCall(j, s, polled, Some(m));
      CallDone(s, i, call, x);
      var done := s.(calls := Without(s.calls, i), log := s.log + [call]);
      ClearedHoldsNothing(done, m, x);
      assert done.calls + [] == done.calls;
    case Closing(polled) =>
      if polled.Some? {
        CallDone(s, i, AuditLogCall(j, s, polled, None), x);
      } else {
        CallGone(s, i, x);
      }
  }

  lemma TransmitBalances(j: Config, s: JState, i: nat, accepted: bool, x: Msg)
    requires i < |s.calls| && s.calls[i].Cleared?
    ensures JAccounted(JApply(j, s, Transmit(i, accepted)), x) == JAccounted(s, x)
  {
    CallGone(s, i, x);
    var gone := s.(calls := Without(s.calls, i));
    var s' := JApply(j, s, Transmit(i, accepted));
    assert s' == gone.(sent := s'.sent, refused := s'.refused);
  }

  lemma JStepBalances(j: Config, s: JState, a: JAction, x: Msg)
    requires JEnabled(s, a)
    ensures var s' := JApply(j, s, a);
            JAccounted(s', x) - JAccounted(s, x) == Count(s'.arrived, x) - Count(s.arrived, x)
  {
    match a
    case PollFirst => PollBalances(j, s, x);
    case AuditOldest => AuditBalances(j, s, x);
    case AddLast => CountAppend(s.deque, [s.listener.m], x);
    case SendPollLast(m) => SendPollBalances(j, s, m, x);
    case ClosePollFirst(status) => ClosePollBalances(j, s, status, x);
    case AuditCall(i) => AuditCallBalances(j, s, i, x);
    case Transmit(i, accepted) => TransmitBalances(j, s, i, accepted, x);
    case OnMessage(m) => CountAppend(s.arrived, [m], x);
    case _ =>
  }

  lemma {:induction false} JRunBalances(j: Config, builder: Request, acts: seq<JAction>, x: Msg)
    requires JRun(j, JInit(builder), acts).Some?
    ensures var s := JRun(j, JInit(builder), acts).value; Count(s.arrived, x) == JAccounted(s, x)
    decreases |acts|
  {
    if acts != [] {
      var n := |acts| - 1;
      JRunBalances(j, builder, acts[..n], x);
      JStepBalances(j, JRun(j, JInit(builder), acts[..n]).value, acts[n], x);
    }
  }
}
