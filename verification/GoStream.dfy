/** The Go stream wrapper at lock granularity: one receiver, one sender and the handler, interleaved. */
module GoStream {
  import opened AuditLog
  import opened AuditErrors
  import opened StreamProtocol

  /** What a stream is wrapped with: a client, seen as the error its Log returns for a request at a
      moment, and the directive of the rule that matched. */
  datatype Stream = Stream(log: (nat, Request) -> Option<Error>, directive: Directive)

  /** RecvMsg: blocked after cloning the baseline, message arrived, old request swapped out. */
  datatype Receiver =
    | RIdle
    | RBlocked(snap: Request)
    | RArrived(snap: Request, m: Msg)
    | RSwapped(snap: Request, held: Option<Msg>)

  /** SendMsg: baseline cloned, last request popped, entry logged. */
  datatype Sender =
    | SIdle
    | SCalled(snap: Request, m: Msg)
    | SPopped(snap: Request, m: Msg, held: Option<Msg>)
    | SLogged(m: Msg)

  /** A call of Client.Log, made at a moment for an entry, before sending a response if it is SendMsg's;
      `given` is the request it was called with. */
  datatype LogCall = LogCall(moment: nat, entry: Entry, given: Request, sending: Option<Msg>, err: Option<Error>)

  datatype State = State(
    baseline: Request,
    last: Option<Msg>,
    receiver: Receiver,
    sender: Sender,
    arrived: seq<Msg>,      // requests swapped in
    log: seq<LogCall>,
    delivered: seq<Msg>,    // responses the transport accepted
    lost: seq<Msg>,         // requests dropped, unlogged, by a returned conversion error
    suppressed: seq<Msg>)   // requests the directive does not log

  datatype Action =
    | HandlerWrites(base: Request)
    | RecvCall
    | RecvFault
    | RecvArrive(m: Msg)
    | RecvSwap
    | RecvFinish(moment: nat)
    | SendCall(m: Msg)
    | SendPop
    | SendLog(moment: nat)
    | SendTransmit(accepted: bool)

  function Init(baseline: Request): State {
    State(baseline, None, RIdle, SIdle, [], [], [], [], [])
  }

  /** Each receive is given a message object of its own. */
  predicate Enabled(s: State, a: Action) {
    match a
    case HandlerWrites(_) => true
    case RecvCall => s.receiver.RIdle?
    case RecvFault => s.receiver.RBlocked?
    case RecvArrive(m) => s.receiver.RBlocked? && m !in s.arrived
    case RecvSwap => s.receiver.RArrived?
    case RecvFinish(_) => s.receiver.RSwapped?
    case SendCall(_) => s.sender.SIdle?
    case SendPop => s.sender.SCalled?
    case SendLog(_) => s.sender.SPopped?
    case SendTransmit(_) => s.sender.SLogged?
  }

  function CallLog(w: Stream, moment: nat, e: Entry, sending: Option<Msg>): LogCall {
    LogCall(moment, e, Rendered(e), sending, w.log(moment, Rendered(e)))
  }

  /** The rest of RecvMsg once the earlier request is in hand. */
  function FinishRecv(w: Stream, s: State, moment: nat): State
    requires s.receiver.RSwapped?
  {
    var done := s.(receiver := RIdle);
    match s.receiver.held
    case None => done
    case Some(prev) =>
      if !ShouldLogReq(w.directive) then done.(suppressed := s.suppressed + [prev])
      else if !Convertible(prev) then done.(lost := s.lost + [prev])
      else done.(log := s.log + [CallLog(w, moment, Entry(s.receiver.snap, Some(prev), None), None)])
  }

  /** The middle of SendMsg: fill the entry and log it. */
  function LogResponse(w: Stream, s: State, moment: nat): State
    requires s.sender.SPopped?
  {
    var SPopped(snap, m, held) := s.sender;
    var logged := if ShouldLogReq(w.directive) then held else None;
    var gone := if ShouldLogReq(w.directive) then [] else OptSeq(held);
    if logged.Some? && !Convertible(logged.value) then s.(sender := SIdle, lost := s.lost + OptSeq(logged))
    else if ShouldLogResp(w.directive) && !Convertible(m) then s.(sender := SIdle, lost := s.lost + OptSeq(logged))
    else
      var call := CallLog(
        w, moment, Entry(snap, logged, if ShouldLogResp(w.directive) then Some(m) else None), Some(m));
      s.(log := s.log + [call], suppressed := s.suppressed + gone,
         sender := if call.err.None? then SLogged(m) else SIdle)
  }

  function Apply(w: Stream, s: State, a: Action): State
    requires Enabled(s, a)
  {
    match a
    case HandlerWrites(b) => s.(baseline := b)
    case RecvCall => s.(receiver := RBlocked(s.baseline))
    case RecvFault => s.(receiver := RIdle)
    case RecvArrive(m) => s.(receiver := RArrived(s.receiver.snap, m))
    case RecvSwap =>
      s.(receiver := RSwapped(s.receiver.snap, s.last), last := Some(s.receiver.m), arrived := s.arrived + [s.receiver.m])
    case RecvFinish(t) => FinishRecv(w, s, t)
    case SendCall(m) => s.(sender := SCalled(s.baseline, m))
    case SendPop => s.(sender := SPopped(s.sender.snap, s.sender.m, s.last), last := None)
    case SendLog(t) => LogResponse(w, s, t)
    case SendTransmit(accepted) =>
      s.(sender := SIdle, delivered := s.delivered + if accepted then [s.sender.m] else [])
  }

  /** The state after a schedule, if every step of it was enabled. */
  function Run(w: Stream, s0: State, acts: seq<Action>): Option<State> {
    if acts == [] then Some(s0)
    else
      var n := |acts| - 1;
      match Run(w, s0, acts[..n])
      case None => None
      case Some(s) => if Enabled(s, acts[n]) then Some(Apply(w, s, acts[n])) else None
  }

  // ---- conservation ----

  function Offered(log: seq<LogCall>): seq<Msg> {
    if log == [] then []
    else Offered(log[..|log| - 1]) + OptSeq(log[|log| - 1].entry.req)
  }

  function HeldByReceiver(r: Receiver): seq<Msg> {
    if r.RSwapped? then OptSeq(r.held) else []
  }

  function HeldBySender(s: Sender): seq<Msg> {
    if s.SPopped? then OptSeq(s.held) else []
  }

  function Count(ms: seq<Msg>, x: Msg): nat {
    CountBelow(ms, |ms|, x)
  }

  function CountBelow(ms: seq<Msg>, n: nat, x: Msg): nat
    requires n <= |ms|
  {
    if n == 0 then 0 else CountBelow(ms, n - 1, x) + if ms[n - 1] == x then 1 else 0
  }

  /** How often x is in the places a request can be. */
  function Accounted(s: State, x: Msg): nat {
    Count(Offered(s.log), x) + Count(OptSeq(s.last), x) + Count(HeldByReceiver(s.receiver), x)
    + Count(HeldBySender(s.sender), x) + Count(s.lost, x) + Count(s.suppressed, x)
  }

  ghost predicate Distinct(ms: seq<Msg>) {
    forall i, j :: 0 <= i < j < |ms| ==> ms[i] != ms[j]
  }

  ghost predicate Conserved(w: Stream, s: State) {
    && (forall x :: Count(s.arrived, x) == Accounted(s, x))
    && Distinct(s.arrived)
    && (s.receiver.RArrived? ==> s.receiver.m !in s.arrived)
    && (ShouldLogReq(w.directive) ==> s.suppressed == [])
  }

  lemma {:induction false} CountBelowAppend(a: seq<Msg>, b: seq<Msg>, n: nat, x: Msg)
    requires n <= |a| + |b|
    ensures CountBelow(a + b, n, x) == if n <= |a| then CountBelow(a, n, x) else Count(a, x) + CountBelow(b, n - |a|, x)
    decreases n
  {
    if n > 0 {
      CountBelowAppend(a, b, n - 1, x);
    }
  }

  lemma CountAppend(a: seq<Msg>, b: seq<Msg>, x: Msg)
    ensures Count(a + b, x) == Count(a, x) + Count(b, x)
  {
    CountBelowAppend(a, b, |a| + |b|, x);
  }

  lemma CountOne(y: Msg, x: Msg)
    ensures Count([y], x) == if y == x then 1 else 0
    ensures Count(OptSeq(Some(y)), x) == if y == x then 1 else 0
  {
    assert CountBelow([y], 0, x) == 0;
    assert CountBelow([y], 1, x) == if y == x then 1 else 0;
    assert OptSeq(Some(y)) == [y];
  }

  lemma OfferedSnoc(log: seq<LogCall>, c: LogCall, x: Msg)
    ensures Count(Offered(log + [c]), x) == Count(Offered(log), x) + Count(OptSeq(c.entry.req), x)
  {
    assert (log + [c])[..|log|] == log;
    CountAppend(Offered(log), OptSeq(c.entry.req), x);
  }

  /** The requests in hand go to exactly one of the log, the lost and the suppressed. */
  ghost predicate Booked(s: State, s': State, held: seq<Msg>) {
    && s'.last == s.last && s'.arrived == s.arrived
    && if |s'.log| == |s.log| + 1 then
         && s'.log == s.log + [s'.log[|s.log|]] && s'.lost == s.lost
         && if s'.suppressed == s.suppressed then OptSeq(s'.log[|s.log|].entry.req) == held
            else s'.log[|s.log|].entry.req == None && s'.suppressed == s.suppressed + held
       else
         && s'.log == s.log
         && if s'.lost == s.lost then s'.suppressed == s.suppressed + held
            else s'.lost == s.lost + held && s'.suppressed == s.suppressed
  }

  lemma BookedBalances(s: State, s': State, held: seq<Msg>, x: Msg)
    requires Booked(s, s', held)
    ensures Count(Offered(s'.log), x) + Count(s'.lost, x) + Count(s'.suppressed, x) ==
            Count(Offered(s.log), x) + Count(s.lost, x) + Count(s.suppressed, x) + Count(held, x)
  {
    if |s'.log| == |s.log| + 1 {
      OfferedSnoc(s.log, s'.log[|s.log|], x);
    }
    if s'.lost != s.lost {
      CountAppend(s.lost, held, x);
    }
    if s'.suppressed == s.suppressed + held {
      CountAppend(s.suppressed, held, x);
    }
  }

  lemma FinishBooks(w: Stream, s: State, t: nat)
    requires s.receiver.RSwapped?
    ensures Booked(s, FinishRecv(w, s, t), HeldByReceiver(s.receiver))
    ensures FinishRecv(w, s, t).sender == s.sender && FinishRecv(w, s, t).receiver == RIdle
  {
    assert s.suppressed + [] == s.suppressed;
  }

  lemma LogResponseBooks(w: Stream, s: State, t: nat)
    requires s.sender.SPopped?
    ensures Booked(s, LogResponse(w, s, t), HeldBySender(s.sender))
    ensures LogResponse(w, s, t).receiver == s.receiver && HeldBySender(LogResponse(w, s, t).sender) == []
  {
    assert s.suppressed + [] == s.suppressed && s.lost + [] == s.lost;
  }

  /** A step moves requests from place to place, or brings in the one it swaps in. */
  lemma StepBalances(w: Stream, s: State, a: Action, x: Msg)
    requires Enabled(s, a)
    ensures var s' := Apply(w, s, a);
            Accounted(s', x) - Accounted(s, x) == Count(s'.arrived, x) - Count(s.arrived, x)
  {
    match a
    case RecvSwap =>
      CountAppend(s.arrived, [s.receiver.m], x);
      assert OptSeq(Some(s.receiver.m)) == [s.receiver.m];
    case RecvFinish(t) =>
      FinishBooks(w, s, t);
      BookedBalances(s, FinishRecv(w, s, t), HeldByReceiver(s.receiver), x);
    case SendLog(t) =>
      LogResponseBooks(w, s, t);
      BookedBalances(s, LogResponse(w, s, t), HeldBySender(s.sender), x);
    case _ =>
  }

  lemma StepConserves(w: Stream, s: State, a: Action)
    requires Conserved(w, s) && Enabled(s, a)
    ensures Conserved(w, Apply(w, s, a))
  {
    var s' := Apply(w, s, a);
    forall x ensures Count(s'.arrived, x) == Accounted(s', x) {
      StepBalances(w, s, a, x);
      assert Count(s.arrived, x) == Accounted(s, x);
    }
  }

  lemma {:induction false} RunConserves(w: Stream, baseline: Request, acts: seq<Action>)
    requires Run(w, Init(baseline), acts).Some?
    ensures Conserved(w, Run(w, Init(baseline), acts).value)
    decreases |acts|
  {
    if acts != [] {
      var n := |acts| - 1;
      RunConserves(w, baseline, acts[..n]);
      StepConserves(w, Run(w, Init(baseline), acts[..n]).value, acts[n]);
    }
  }
}
