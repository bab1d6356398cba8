/** The Go stream wrapper used by one goroutine: whole calls, and what whole traces log. */
module GoStreamTrace {
  import opened AuditLog
  import opened StreamProtocol
  import opened GoStream
  import opened GoStreamSafety

  predicate Idle(s: State) {
    s.receiver.RIdle? && s.sender.SIdle?
  }

  /** A whole RecvMsg that receives m. */
  function AfterRecv(w: Stream, s: State, m: Msg, t: nat): State
    requires Idle(s) && m !in s.arrived
  {
    FinishRecv(w, s.(receiver := RSwapped(s.baseline, s.last), last := Some(m), arrived := s.arrived + [m]), t)
  }

  function SendCallOf(w: Stream, s: State, m: Msg, t: nat): LogCall {
    CallLog(w, t, Entry(s.baseline, Loggable(w, s.last), if ShouldLogResp(w.directive) then Some(m) else None), Some(m))
  }

  function Loggable(w: Stream, req: Option<Msg>): Option<Msg> {
    if ShouldLogReq(w.directive) then req else None
  }

  predicate SendConverts(w: Stream, s: State, m: Msg) {
    && (Loggable(w, s.last).Some? ==> Convertible(s.last.value))
    && (ShouldLogResp(w.directive) ==> Convertible(m))
  }

  /** A whole SendMsg of m: a conversion error loses the request it popped; otherwise the call is
      logged, and only a call that Log clears reaches the transport, which may accept m or not. */
  function AfterSend(w: Stream, s: State, m: Msg, t: nat, accepted: bool): State
    requires Idle(s)
  {
    if !SendConverts(w, s, m) then s.(last := None, lost := s.lost + OptSeq(Loggable(w, s.last)))
    else
      var call := SendCallOf(w, s, m, t);
      s.(last := None, log := s.log + [call],
         suppressed := s.suppressed + if ShouldLogReq(w.directive) then [] else OptSeq(s.last),
         delivered := s.delivered + if call.err.None? && accepted then [m] else [])
  }

  lemma RunStep(w: Stream, s0: State, acts: seq<Action>, a: Action)
    requires Run(w, s0, acts).Some? && Enabled(Run(w, s0, acts).value, a)
    ensures Run(w, s0, acts + [a]) == Some(Apply(w, Run(w, s0, acts).value, a))
  {
    assert (acts + [a])[..|acts|] == acts;
  }

  /** A whole call is a run of the interleaved machine, so all that holds of runs holds of calls. */
  lemma RecvIsARun(w: Stream, s0: State, acts: seq<Action>, m: Msg, t: nat)
    requires Run(w, s0, acts).Some? && Idle(Run(w, s0, acts).value) && m !in Run(w, s0, acts).value.arrived
    ensures Run(w, s0, acts + [RecvCall] + [RecvArrive(m)] + [RecvSwap] + [RecvFinish(t)]) ==
            Some(AfterRecv(w, Run(w, s0, acts).value, m, t))
  {
    RunStep(w, s0, acts, RecvCall);
    RunStep(w, s0, acts + [RecvCall], RecvArrive(m));
    RunStep(w, s0, acts + [RecvCall] + [RecvArrive(m)], RecvSwap);
    RunStep(w, s0, acts + [RecvCall] + [RecvArrive(m)] + [RecvSwap], RecvFinish(t));
  }

  lemma SendIsARun(w: Stream, s0: State, acts: seq<Action>, m: Msg, t: nat, accepted: bool)
    requires Run(w, s0, acts).Some? && Idle(Run(w, s0, acts).value)
    ensures var logged := acts + [SendCall(m)] + [SendPop] + [SendLog(t)];
      || Run(w, s0, logged) == Some(AfterSend(w, Run(w, s0, acts).value, m, t, accepted))
      || Run(w, s0, logged + [SendTransmit(accepted)]) == Some(AfterSend(w, Run(w, s0, acts).value, m, t, accepted))
  {
    var s := Run(w, s0, acts).value;
    RunStep(w, s0, acts, SendCall(m));
    RunStep(w, s0, acts + [SendCall(m)], SendPop);
    RunStep(w, s0, acts + [SendCall(m)] + [SendPop], SendLog(t));
    var logged := acts + [SendCall(m)] + [SendPop] + [SendLog(t)];
    SendInThree(w, s, m, t, accepted);
    if Run(w, s0, logged).value.sender.SLogged? {
      RunStep(w, s0, logged, SendTransmit(accepted));
    }
  }

  lemma SendInThree(w: Stream, s: State, m: Msg, t: nat, accepted: bool)
    requires Idle(s)
    ensures var logged := LogResponse(w, s.(sender := SPopped(s.baseline, m, s.last), last := None), t);
      AfterSend(w, s, m, t, accepted) ==
        if logged.sender.SLogged? then Apply(w, logged, SendTransmit(accepted)) else logged
  {
    assert s.delivered + [] == s.delivered;
  }

  // ---- traces ----

  /** Every receive of the trace is given a message object of its own. */
  ghost predicate FreshMessages(trace: seq<Event>) {
    Distinct(Receives(trace))
  }

  lemma FreshBefore(trace: seq<Event>)
    requires trace != [] && FreshMessages(trace)
    ensures var n := |trace| - 1;
      && FreshMessages(trace[..n])
      && (trace[n].Recv? ==> trace[n].m !in Receives(trace[..n]))
  {
    var n := |trace| - 1;
    var before, all := Receives(trace[..n]), Receives(trace);
    assert forall i :: 0 <= i < |before| ==> before[i] == all[i];
    if trace[n].Recv? {
      assert all[|before|] == trace[n].m;
    }
  }

  /** The wrapper driven through a trace in which the transport takes every response that reaches it;
      the handler sets the baseline before each call, and event i happens at moment clock(i). */
  ghost function Drive(w: Stream, baseline: Request, trace: seq<Event>, clock: nat -> nat): (s: State)
    requires FreshMessages(trace)
    ensures Idle(s) && s.arrived == Receives(trace)
  {
    if trace == [] then Init(baseline)
    else
      FreshBefore(trace);
      var n := |trace| - 1;
      var s := Drive(w, baseline, trace[..n], clock);
      match trace[n]
      case Recv(m, base) => AfterRecv(w, s.(baseline := base), m, clock(n))
      case Send(m, base) => AfterSend(w, s.(baseline := base), m, clock(n), true)
  }

  lemma {:induction false} DriveIsARun(w: Stream, baseline: Request, trace: seq<Event>, clock: nat -> nat)
    returns (acts: seq<Action>)
    requires FreshMessages(trace)
    ensures Run(w, Init(baseline), acts) == Some(Drive(w, baseline, trace, clock))
    decreases |trace|
  {
    acts := [];
    if trace != [] {
      FreshBefore(trace);
      var n := |trace| - 1;
      var s0 := Init(baseline);
      acts := DriveIsARun(w, baseline, trace[..n], clock);
      RunStep(w, s0, acts, HandlerWrites(trace[n].base));
      acts := acts + [HandlerWrites(trace[n].base)];
      match trace[n]
      case Recv(m, base) =>
        RecvIsARun(w, s0, acts, m, clock(n));
        acts := acts + [RecvCall] + [RecvArrive(m)] + [RecvSwap] + [RecvFinish(clock(n))];
      case Send(m, base) =>
        SendIsARun(w, s0, acts, m, clock(n), true);
        var logged := acts + [SendCall(m)] + [SendPop] + [SendLog(clock(n))];
        var after := AfterSend(w, Run(w, s0, acts).value, m, clock(n), true);
        acts := if Run(w, s0, logged) == Some(after) then logged else logged + [SendTransmit(true)];
    }
  }

  function Entries(log: seq<LogCall>): seq<Entry> {
    seq(|log|, i requires 0 <= i < |log| => log[i].entry)
  }

  ghost predicate AllConvertible(trace: seq<Event>) {
    forall i :: 0 <= i < |trace| ==> Convertible(trace[i].m)
  }

  /** The Log calls of one whole RecvMsg, when conversion works. */
  function RecvCalls(w: Stream, s: State, t: nat): seq<LogCall> {
    if s.last.Some? && ShouldLogReq(w.directive) then [CallLog(w, t, Entry(s.baseline, s.last, None), None)] else []
  }

  lemma RecvEffect(w: Stream, s: State, m: Msg, t: nat)
    requires Idle(s) && m !in s.arrived
    requires s.last.Some? ==> Convertible(s.last.value)
    ensures var s' := AfterRecv(w, s, m, t);
      && s'.log == s.log + RecvCalls(w, s, t)
      && s'.last == Some(m) && s'.lost == s.lost && s'.delivered == s.delivered
  {
  }

  lemma SendEffect(w: Stream, s: State, m: Msg, t: nat, accepted: bool)
    requires Idle(s) && Convertible(m)
    requires s.last.Some? ==> Convertible(s.last.value)
    ensures var s' := AfterSend(w, s, m, t, accepted);
      && s'.log == s.log + [SendCallOf(w, s, m, t)]
      && s'.last == None && s'.lost == s.lost
      && s'.delivered == s.delivered + if SendCallOf(w, s, m, t).err.None? && accepted then [m] else []
  {
  }

  lemma EntriesAppend(a: seq<LogCall>, b: seq<LogCall>)
    ensures Entries(a + b) == Entries(a) + Entries(b)
  {
  }

  /** The state's log, pending request and deliveries are those the trace should leave. */
  ghost predicate Paired(w: Stream, s: State, trace: seq<Event>) {
    && Entries(s.log) == Pair(trace, w.directive)
    && s.last == Pending(trace)
    && s.lost == []
    && s.delivered == Cleared(s.log)
  }

  /** The Log calls of a RecvMsg are for the entries of its event, and clear no response. */
  lemma RecvCallsAreTheEvents(w: Stream, s: State, trace: seq<Event>, t: nat)
    requires trace != [] && trace[|trace| - 1].Recv?
    requires var n := |trace| - 1; s.last == Pending(trace[..n]) && s.baseline == trace[n].base
    ensures Entries(RecvCalls(w, s, t)) == EntryAt(trace, |trace| - 1, w.directive)
    ensures Cleared(s.log + RecvCalls(w, s, t)) == Cleared(s.log)
  {
    var n, calls := |trace| - 1, RecvCalls(w, s, t);
    assert s.last == if FollowsRecv(trace, n) then Some(trace[n - 1].m) else None;
    if calls == [] {
      assert s.log + calls == s.log;
    } else {
      ClearedSnoc(s.log, calls[0]);
      assert calls == [calls[0]];
    }
  }

  lemma RecvKeepsPairing(w: Stream, s: State, trace: seq<Event>, t: nat)
    requires trace != [] && trace[|trace| - 1].Recv? && AllConvertible(trace)
    requires var n := |trace| - 1; Paired(w, s, trace[..n]) && s.baseline == trace[n].base
    requires Idle(s) && trace[|trace| - 1].m !in s.arrived
    ensures Paired(w, AfterRecv(w, s, trace[|trace| - 1].m, t), trace)
  {
    var n := |trace| - 1;
    RecvEffect(w, s, trace[n].m, t);
    EntriesAppend(s.log, RecvCalls(w, s, t));
    RecvCallsAreTheEvents(w, s, trace, t);
  }

  lemma SendKeepsPairing(w: Stream, s: State, trace: seq<Event>, t: nat)
    requires trace != [] && trace[|trace| - 1].Send? && AllConvertible(trace)
    requires var n := |trace| - 1; Paired(w, s, trace[..n]) && s.baseline == trace[n].base
    requires Idle(s)
    ensures Paired(w, AfterSend(w, s, trace[|trace| - 1].m, t, true), trace)
  {
    var n := |trace| - 1;
    var call := SendCallOf(w, s, trace[n].m, t);
    assert s.last == if FollowsRecv(trace, n) then Some(trace[n - 1].m) else None;
    SendEffect(w, s, trace[n].m, t, true);
    EntriesAppend(s.log, [call]);
    assert Entries([call]) == EntryAt(trace, n, w.directive);
    ClearedSnoc(s.log, call);
  }

  /** Trace refinement: whatever the directive, the handler's writes and the errors of Log, the entries
      the wrapper logs are the declared pairing of the trace, what it still holds is the pending
      request, nothing is lost, and the responses delivered are exactly those Log cleared. */
  lemma {:induction false} GoLogsThePairing(w: Stream, baseline: Request, trace: seq<Event>, clock: nat -> nat)
    requires FreshMessages(trace) && AllConvertible(trace)
    ensures Paired(w, Drive(w, baseline, trace, clock), trace)
    decreases |trace|
  {
    if trace != [] {
      FreshBefore(trace);
      var n := |trace| - 1;
      GoLogsThePairing(w, baseline, trace[..n], clock);
      var s := Drive(w, baseline, trace[..n], clock).(baseline := trace[n].base);
      match trace[n]
      case Recv(m, base) => RecvKeepsPairing(w, s, trace, clock(n));
      case Send(m, base) => SendKeepsPairing(w, s, trace, clock(n));
    }
  }

  ghost predicate LogNeverFails(log: seq<LogCall>) {
    forall k :: 0 <= k < |log| ==> log[k].err.None?
  }

  lemma {:induction false} ClearedAll(w: Stream, baseline: Request, trace: seq<Event>, clock: nat -> nat)
    requires FreshMessages(trace) && AllConvertible(trace)
    requires LogNeverFails(Drive(w, baseline, trace, clock).log)
    ensures Drive(w, baseline, trace, clock).delivered == Sends(trace)
    decreases |trace|
  {
    if trace != [] {
      FreshBefore(trace);
      var n := |trace| - 1;
      var s := Drive(w, baseline, trace[..n], clock).(baseline := trace[n].base);
      var s' := Drive(w, baseline, trace, clock);
      GoLogsThePairing(w, baseline, trace[..n], clock);
      match trace[n]
      case Recv(m, base) =>
        RecvEffect(w, s, m, clock(n));
        assert forall k :: 0 <= k < |s.log| ==> s.log[k] == s'.log[k];
        ClearedAll(w, baseline, trace[..n], clock);
      case Send(m, base) =>
        SendEffect(w, s, m, clock(n), true);
        assert forall k :: 0 <= k < |s.log| ==> s.log[k] == s'.log[k];
        assert s'.log[|s.log|] == SendCallOf(w, s, m, clock(n));
        ClearedAll(w, baseline, trace[..n], clock);
    }
  }

  /** On an error-free trace every response is delivered, in order, after its entry. */
  lemma ErrorFreeTrace(w: Stream, baseline: Request, trace: seq<Event>, clock: nat -> nat)
    requires FreshMessages(trace) && AllConvertible(trace)
    requires LogNeverFails(Drive(w, baseline, trace, clock).log)
    ensures var s := Drive(w, baseline, trace, clock);
      s.delivered == Sends(trace) && Entries(s.log) == Pair(trace, w.directive)
  {
    GoLogsThePairing(w, baseline, trace, clock);
    ClearedAll(w, baseline, trace, clock);
  }
}
