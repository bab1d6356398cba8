/** What holds in every state that any interleaving of the Go stream wrapper reaches. */
module GoStreamSafety {
  import opened AuditLog
  import opened Pipeline
  import opened StreamProtocol
  import opened GoStream

  // ---- requests ----

  /** Requests in entries whose Log returned nil, and in entries whose Log returned an error. */
  function LoggedRequests(log: seq<LogCall>): seq<Msg> {
    if log == [] then []
    else
      var c := log[|log| - 1];
      LoggedRequests(log[..|log| - 1]) + if c.err.None? then OptSeq(c.entry.req) else []
  }

  function FailedRequests(log: seq<LogCall>): seq<Msg> {
    if log == [] then []
    else
      var c := log[|log| - 1];
      FailedRequests(log[..|log| - 1]) + if c.err.Some? then OptSeq(c.entry.req) else []
  }

  lemma {:induction false} OfferedSplits(log: seq<LogCall>, x: Msg)
    ensures Count(Offered(log), x) == Count(LoggedRequests(log), x) + Count(FailedRequests(log), x)
    decreases |log|
  {
    if log != [] {
      var before, req := log[..|log| - 1], OptSeq(log[|log| - 1].entry.req);
      OfferedSplits(before, x);
      CountAppend(Offered(before), req, x);
      CountAppend(LoggedRequests(before), req, x);
      CountAppend(FailedRequests(before), req, x);
      CountAppend(LoggedRequests(before), [], x);
      CountAppend(FailedRequests(before), [], x);
    }
  }

  lemma {:induction false} CountIsMultiplicity(ms: seq<Msg>, x: Msg)
    ensures Count(ms, x) == multiset(ms)[x]
    decreases |ms|
  {
    if ms != [] {
      var before, last := ms[..|ms| - 1], [ms[|ms| - 1]];
      CountIsMultiplicity(before, x);
      assert ms == before + last;
      CountAppend(before, last, x);
      CountOne(ms[|ms| - 1], x);
    }
  }

  lemma {:induction false} DistinctCountsOnce(ms: seq<Msg>, x: Msg)
    requires Distinct(ms)
    ensures Count(ms, x) == if x in ms then 1 else 0
    decreases |ms|
  {
    if ms != [] {
      var before, last := ms[..|ms| - 1], [ms[|ms| - 1]];
      DistinctCountsOnce(before, x);
      assert ms == before + last;
      CountAppend(before, last, x);
      CountOne(ms[|ms| - 1], x);
    }
  }

  lemma {:induction false} CountsGrow(log: seq<LogCall>, i: nat, x: Msg)
    requires i <= |log|
    ensures Count(Offered(log), x) >= Count(Offered(log[..i]), x)
    decreases |log|
  {
    if i < |log| {
      var n := |log| - 1;
      CountsGrow(log[..n], i, x);
      assert log[..n][..i] == log[..i];
      CountAppend(Offered(log[..n]), OptSeq(log[n].entry.req), x);
    } else {
      assert log[..i] == log;
    }
  }

  lemma EntryCounts(log: seq<LogCall>, i: nat, x: Msg)
    requires i < |log| && log[i].entry.req == Some(x)
    ensures Count(Offered(log), x) >= Count(Offered(log[..i]), x) + 1
  {
    CountsGrow(log, i + 1, x);
    TakeOneMore(log, i);
    CountWithEntry(log[..i], log[i], log[..i + 1], x);
  }

  lemma CountWithEntry(before: seq<LogCall>, c: LogCall, all: seq<LogCall>, x: Msg)
    requires all == before + [c] && c.entry.req == Some(x)
    ensures Count(Offered(all), x) == Count(Offered(before), x) + 1
  {
    OfferedSnoc(before, c, x);
    CountOne(x, x);
  }

  /** Conservation: whatever the interleaving and whatever fails, the requests swapped in are those
      logged, the pending one, those in the hands of the receiver and of the sender, those dropped by
      a returned error (of conversion or of Log), and, only if the directive does not log requests,
      those it suppresses; and each was swapped in once. */
  lemma Conservation(w: Stream, baseline: Request, acts: seq<Action>)
    requires Run(w, Init(baseline), acts).Some?
    ensures var s := Run(w, Init(baseline), acts).value;
      && multiset(s.arrived) ==
           multiset(LoggedRequests(s.log)) + multiset(OptSeq(s.last)) + multiset(HeldByReceiver(s.receiver))
           + multiset(HeldBySender(s.sender)) + (multiset(FailedRequests(s.log)) + multiset(s.lost))
           + multiset(s.suppressed)
      && Distinct(s.arrived)
      && (ShouldLogReq(w.directive) ==> s.suppressed == [])
  {
    RunConserves(w, baseline, acts);
    var s := Run(w, Init(baseline), acts).value;
    forall x
      ensures multiset(s.arrived)[x] ==
        multiset(LoggedRequests(s.log))[x] + multiset(OptSeq(s.last))[x] + multiset(HeldByReceiver(s.receiver))[x]
        + multiset(HeldBySender(s.sender))[x] + multiset(FailedRequests(s.log))[x] + multiset(s.lost)[x]
        + multiset(s.suppressed)[x]
    {
      assert Count(s.arrived, x) == Accounted(s, x);
      OfferedSplits(s.log, x);
      CountsAreMultiplicities(s, x);
    }
  }

  lemma CountsAreMultiplicities(s: State, x: Msg)
    ensures Count(s.arrived, x) == multiset(s.arrived)[x]
    ensures Count(LoggedRequests(s.log), x) == multiset(LoggedRequests(s.log))[x]
    ensures Count(FailedRequests(s.log), x) == multiset(FailedRequests(s.log))[x]
    ensures Count(OptSeq(s.last), x) == multiset(OptSeq(s.last))[x]
    ensures Count(HeldByReceiver(s.receiver), x) == multiset(HeldByReceiver(s.receiver))[x]
    ensures Count(HeldBySender(s.sender), x) == multiset(HeldBySender(s.sender))[x]
    ensures Count(s.lost, x) == multiset(s.lost)[x]
    ensures Count(s.suppressed, x) == multiset(s.suppressed)[x]
  {
    CountIsMultiplicity(s.arrived, x);
    CountIsMultiplicity(LoggedRequests(s.log), x);
    CountIsMultiplicity(FailedRequests(s.log), x);
    CountIsMultiplicity(OptSeq(s.last), x);
    CountIsMultiplicity(HeldByReceiver(s.receiver), x);
    CountIsMultiplicity(HeldBySender(s.sender), x);
    CountIsMultiplicity(s.lost, x);
    CountIsMultiplicity(s.suppressed, x);
  }

  lemma OfferedOnce(w: Stream, baseline: Request, acts: seq<Action>, x: Msg)
    requires Run(w, Init(baseline), acts).Some?
    ensures Count(Offered(Run(w, Init(baseline), acts).value.log), x) <= 1
  {
    RunConserves(w, baseline, acts);
    var s := Run(w, Init(baseline), acts).value;
    assert Count(s.arrived, x) == Accounted(s, x);
    DistinctCountsOnce(s.arrived, x);
  }

  lemma TwoEntriesCount(log: seq<LogCall>, i: nat, j: nat, x: Msg)
    requires i < j < |log| && log[i].entry.req == Some(x) == log[j].entry.req
    ensures Count(Offered(log), x) >= 2
  {
    EntryCounts(log, j, x);
    EntryCounts(log[..j], i, x);
  }

  /** No request is in two entries, not even in a failed one and a logged one. */
  lemma LoggedAtMostOnce(w: Stream, baseline: Request, acts: seq<Action>, i: nat, j: nat)
    requires Run(w, Init(baseline), acts).Some?
    requires i < j < |Run(w, Init(baseline), acts).value.log|
    requires Run(w, Init(baseline), acts).value.log[i].entry.req.Some?
    ensures var log := Run(w, Init(baseline), acts).value.log;
            log[i].entry.req != log[j].entry.req
  {
    var log := Run(w, Init(baseline), acts).value.log;
    var x := log[i].entry.req.value;
    OfferedOnce(w, baseline, acts, x);
    if log[j].entry.req == Some(x) {
      TwoEntriesCount(log, i, j, x);
      assert false;
    }
  }

  // ---- responses ----

  /** The first sequence is the second with some elements left out. */
  predicate Subsequence<T(==)>(a: seq<T>, b: seq<T>) {
    if a == [] then true
    else if b == [] then false
    else
      || (a[|a| - 1] == b[|b| - 1] && Subsequence(a[..|a| - 1], b[..|b| - 1]))
      || Subsequence(a, b[..|b| - 1])
  }

  lemma SubsequenceSkips<T>(a: seq<T>, b: seq<T>, x: T)
    requires Subsequence(a, b)
    ensures Subsequence(a, b + [x]) && Subsequence(a + [x], b + [x])
  {
    assert (b + [x])[..|b|] == b && (a + [x])[..|a|] == a;
  }

  /** Responses whose Log call has returned nil, in the order of the calls. */
  function Cleared(log: seq<LogCall>): seq<Msg> {
    if log == [] then []
    else
      var c := log[|log| - 1];
      Cleared(log[..|log| - 1]) + if c.err.None? then OptSeq(c.sending) else []
  }

  lemma ClearedSnoc(log: seq<LogCall>, c: LogCall)
    ensures Cleared(log + [c]) == Cleared(log) + if c.err.None? then OptSeq(c.sending) else []
  {
    assert (log + [c])[..|log|] == log;
  }

  ghost predicate SendsAreCleared(w: Stream, s: State) {
    && (if s.sender.SLogged? then
          var n := |Cleared(s.log)| - 1;
          n >= 0 && Cleared(s.log)[n] == s.sender.m && Subsequence(s.delivered, Cleared(s.log)[..n])
        else Subsequence(s.delivered, Cleared(s.log)))
    && forall k :: 0 <= k < |s.log| ==> s.log[k].err == w.log(s.log[k].moment, s.log[k].given)
  }

  lemma FinishKeepsCleared(w: Stream, s: State, t: nat)
    requires SendsAreCleared(w, s) && s.receiver.RSwapped?
    ensures SendsAreCleared(w, FinishRecv(w, s, t))
  {
    var s' := FinishRecv(w, s, t);
    if s'.log != s.log {
      ClearedSnoc(s.log, s'.log[|s.log|]);
      assert Cleared(s'.log) == Cleared(s.log);
    }
  }

  lemma LogResponseClears(w: Stream, s: State, t: nat)
    requires SendsAreCleared(w, s) && s.sender.SPopped?
    ensures SendsAreCleared(w, LogResponse(w, s, t))
  {
    var s' := LogResponse(w, s, t);
    if s'.log != s.log {
      var call := s'.log[|s.log|];
      ClearedSnoc(s.log, call);
      if call.err.None? {
        assert Cleared(s'.log) == Cleared(s.log) + [s.sender.m];
        assert Cleared(s'.log)[..|Cleared(s.log)|] == Cleared(s.log);
      } else {
        assert Cleared(s'.log) == Cleared(s.log);
      }
    }
  }

  lemma TransmitKeepsCleared(w: Stream, s: State, accepted: bool)
    requires SendsAreCleared(w, s) && s.sender.SLogged?
    ensures SendsAreCleared(w, Apply(w, s, SendTransmit(accepted)))
  {
    var cleared := Cleared(s.log);
    var n := |cleared| - 1;
    assert cleared == cleared[..n] + [s.sender.m];
    SubsequenceSkips(s.delivered, cleared[..n], s.sender.m);
    assert s.delivered + [] == s.delivered;
  }

  lemma {:induction false} RunClears(w: Stream, baseline: Request, acts: seq<Action>)
    requires Run(w, Init(baseline), acts).Some?
    ensures SendsAreCleared(w, Run(w, Init(baseline), acts).value)
    decreases |acts|
  {
    if acts != [] {
      var n := |acts| - 1;
      RunClears(w, baseline, acts[..n]);
      var s := Run(w, Init(baseline), acts[..n]).value;
      match acts[n]
      case RecvFinish(t) => FinishKeepsCleared(w, s, t);
      case SendLog(t) => LogResponseClears(w, s, t);
      case SendTransmit(accepted) => TransmitKeepsCleared(w, s, accepted);
      case _ =>
    }
  }

  /** Log before send: under any schedule of log and transport faults, the responses delivered are, in
      order, among the responses whose Log call had returned nil. */
  lemma LogBeforeSend(w: Stream, baseline: Request, acts: seq<Action>)
    requires Run(w, Init(baseline), acts).Some?
    ensures var s := Run(w, Init(baseline), acts).value; Subsequence(s.delivered, Cleared(s.log))
  {
    RunClears(w, baseline, acts);
    var s := Run(w, Init(baseline), acts).value;
    if s.sender.SLogged? {
      var cleared := Cleared(s.log);
      var n := |cleared| - 1;
      TakeOneMore(cleared, n);
      assert cleared[..n + 1] == cleared;
      SubsequenceSkips(s.delivered, cleared[..n], cleared[n]);
    }
  }

  predicate ModeLeftToClient(r: Request) {
    r.mode == ModeUnspecified || r.mode == FailClose
  }

  /** Every baseline the handler ever sets up leaves the mode to a FAIL_CLOSE client. */
  ghost predicate ModesLeftToClient(acts: seq<Action>) {
    forall i :: 0 <= i < |acts| && acts[i].HandlerWrites? ==> ModeLeftToClient(acts[i].base)
  }

  ghost predicate SnapshotsLeftToClient(s: State) {
    && ModeLeftToClient(s.baseline)
    && (s.receiver.RBlocked? || s.receiver.RArrived? || s.receiver.RSwapped? ==> ModeLeftToClient(s.receiver.snap))
    && (s.sender.SCalled? || s.sender.SPopped? ==> ModeLeftToClient(s.sender.snap))
    && forall k :: 0 <= k < |s.log| ==>
         ModeLeftToClient(s.log[k].entry.base) && s.log[k].given.mode == s.log[k].entry.base.mode
  }

  lemma {:induction false} RunLeavesModes(w: Stream, baseline: Request, acts: seq<Action>)
    requires Run(w, Init(baseline), acts).Some?
    requires ModeLeftToClient(baseline) && ModesLeftToClient(acts)
    ensures SnapshotsLeftToClient(Run(w, Init(baseline), acts).value)
    decreases |acts|
  {
    if acts != [] {
      var n := |acts| - 1;
      RunLeavesModes(w, baseline, acts[..n]);
      StepLeavesModes(w, Run(w, Init(baseline), acts[..n]).value, acts[n]);
    }
  }

  lemma StepLeavesModes(w: Stream, s: State, a: Action)
    requires SnapshotsLeftToClient(s) && Enabled(s, a)
    requires a.HandlerWrites? ==> ModeLeftToClient(a.base)
    ensures SnapshotsLeftToClient(Apply(w, s, a))
  {
    match a
    case RecvFinish(t) =>
    case SendLog(t) =>
    case _ =>
  }

  lemma {:induction false} SubsequenceMember<T>(a: seq<T>, b: seq<T>, x: T)
    requires Subsequence(a, b) && x in a
    ensures x in b
    decreases |b|
  {
    if Subsequence(a, b[..|b| - 1]) {
      SubsequenceMember(a, b[..|b| - 1], x);
    } else if x != a[|a| - 1] {
      SubsequenceMember(a[..|a| - 1], b[..|b| - 1], x);
    }
  }

  lemma {:induction false} ClearedMember(log: seq<LogCall>, m: Msg) returns (k: nat)
    requires m in Cleared(log)
    ensures k < |log| && log[k].err.None? && log[k].sending == Some(m)
    decreases |log|
  {
    var c := log[|log| - 1];
    if c.err.None? && c.sending == Some(m) {
      k := |log| - 1;
    } else {
      k := ClearedMember(log[..|log| - 1], m);
    }
  }

  /** With a FAIL_CLOSE client whose processors keep the mode, every delivered response belongs to a
      Log call that every processor, so every backend, accepted or that a precondition stopped. */
  lemma DeliveredWasAccepted(w: Stream, c: Client, baseline: Request, acts: seq<Action>, m: Msg)
    requires forall t, r :: w.log(t, r) == LogSpec(c, t, r).err
    requires c.logMode == FailClose && AllKeepMode(Slots(c))
    requires ModeLeftToClient(baseline) && ModesLeftToClient(acts)
    requires Run(w, Init(baseline), acts).Some? && m in Run(w, Init(baseline), acts).value.delivered
    ensures var log := Run(w, Init(baseline), acts).value.log;
      exists k :: 0 <= k < |log| && log[k].sending == Some(m) && log[k].err.None?
        && (AllSucceed(c, log[k].moment, log[k].given) || PreconditionStop(c, log[k].moment, log[k].given))
  {
    var s := Run(w, Init(baseline), acts).value;
    LogBeforeSend(w, baseline, acts);
    SubsequenceMember(s.delivered, Cleared(s.log), m);
    var k := ClearedMember(s.log, m);
    RunClears(w, baseline, acts);
    RunLeavesModes(w, baseline, acts);
    var call := s.log[k];
    assert ModeLeftToClient(call.entry.base);
    var r := call.given;
    assert r.mode == call.entry.base.mode;
    FirstOfTwo(r.mode, c.logMode);
    ModeDecides(c, call.moment, r);
    assert LogSpec(c, call.moment, r).err == w.log(call.moment, r) == None;
  }

  // ---- what is handed to Log ----

  ghost predicate CallsCarry(log: seq<LogCall>) {
    forall k :: 0 <= k < |log| && log[k].entry.base.payload.Some? ==> Carries(log[k].given, log[k].entry)
  }

  lemma StepCarries(w: Stream, s: State, a: Action)
    requires CallsCarry(s.log) && Enabled(s, a)
    ensures CallsCarry(Apply(w, s, a).log)
  {
    var s' := Apply(w, s, a);
    if s'.log != s.log {
      var call := s'.log[|s.log|];
      assert s'.log == s.log + [call];
      if call.entry.base.payload.Some? {
        RenderedCarries(call.entry);
      }
    }
  }

  /** In every interleaving each request handed to Log is the baseline of its entry with the messages of
      the entry in their fields, from which they can be read back, and with nothing else changed. */
  lemma {:induction false} EveryCallCarries(w: Stream, baseline: Request, acts: seq<Action>)
    requires Run(w, Init(baseline), acts).Some?
    ensures CallsCarry(Run(w, Init(baseline), acts).value.log)
    decreases |acts|
  {
    if acts != [] {
      var n := |acts| - 1;
      EveryCallCarries(w, baseline, acts[..n]);
      StepCarries(w, Run(w, Init(baseline), acts[..n]).value, acts[n]);
    }
  }

  // ---- snapshots ----

  /** The baseline as the handler last wrote it. */
  function Written(baseline: Request, acts: seq<Action>): Request {
    if acts == [] then baseline
    else if acts[|acts| - 1].HandlerWrites? then acts[|acts| - 1].base
    else Written(baseline, acts[..|acts| - 1])
  }

  /** The baseline as it was when RecvMsg, or SendMsg, was last called. */
  function AtLastRecvCall(baseline: Request, acts: seq<Action>): Request {
    if acts == [] then baseline
    else if acts[|acts| - 1].RecvCall? then Written(baseline, acts[..|acts| - 1])
    else AtLastRecvCall(baseline, acts[..|acts| - 1])
  }

  function AtLastSendCall(baseline: Request, acts: seq<Action>): Request {
    if acts == [] then baseline
    else if acts[|acts| - 1].SendCall? then Written(baseline, acts[..|acts| - 1])
    else AtLastSendCall(baseline, acts[..|acts| - 1])
  }

  /** The baseline is only ever what the handler wrote: no request, response or client default of an
      entry leaks into it. And a call in progress holds the baseline as it was when it was made. */
  lemma {:induction false} BaselineIsTheHandlers(w: Stream, baseline: Request, acts: seq<Action>)
    requires Run(w, Init(baseline), acts).Some?
    ensures var s := Run(w, Init(baseline), acts).value;
      && s.baseline == Written(baseline, acts)
      && (!s.receiver.RIdle? ==> s.receiver.snap == AtLastRecvCall(baseline, acts))
      && (s.sender.SCalled? || s.sender.SPopped? ==> s.sender.snap == AtLastSendCall(baseline, acts))
    decreases |acts|
  {
    if acts != [] {
      BaselineIsTheHandlers(w, baseline, acts[..|acts| - 1]);
    }
  }

  /** Snapshot isolation: whatever happens in between, an entry that RecvMsg logs carries the baseline
      as the handler had left it when it made that call, and so for SendMsg; the only messages put in
      are the request in hand and, from SendMsg, the response being sent. Earlier entries stay. */
  lemma EntriesAreSnapshots(w: Stream, baseline: Request, acts: seq<Action>, a: Action)
    requires Run(w, Init(baseline), acts).Some? && Enabled(Run(w, Init(baseline), acts).value, a)
    ensures var s := Run(w, Init(baseline), acts).value;
      var log' := Apply(w, s, a).log;
      || log' == s.log
      || (&& |log'| == |s.log| + 1 && log'[..|s.log|] == s.log
          && var e := log'[|s.log|].entry;
             if a.RecvFinish? then
               e == Entry(AtLastRecvCall(baseline, acts), s.receiver.held, None)
             else
               && a.SendLog? && e.base == AtLastSendCall(baseline, acts)
               && (e.req == None || e.req == s.sender.held) && (e.resp == None || e.resp == Some(s.sender.m)))
  {
    BaselineIsTheHandlers(w, baseline, acts);
  }
}
