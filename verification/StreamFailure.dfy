/** What the log of a stream has when the stream fails, in the two languages. */
module StreamFailure {
  import opened AuditLog
  import opened AuditErrors
  import opened StreamProtocol
  import opened GoStream
  import opened GoStreamTrace
  import opened JavaStream
  import opened JavaStreamTrace
  import opened Unary
  import opened StreamEntry

  /** The Java interceptor driven through a trace, the builder left as `left`, and then closed. */
  function JavaFailed(j: Config, builder: Request, trace: seq<Event>, left: Request, status: RpcStatus): JState {
    AfterClose(j, JavaDrive(j, builder, trace).(builder := left), Some(status))
  }

  /** Every request received has been handed to an audit, but for the one still queued. */
  lemma {:induction false} JavaHandsOver(j: Config, builder: Request, trace: seq<Event>)
    requires NothingThrows(j)
    ensures Handed(JavaDrive(j, builder, trace).log) + OptSeq(Pending(trace)) == Receives(trace)
    decreases |trace|
  {
    if trace != [] {
      var n := |trace| - 1;
      JavaHandsOver(j, builder, trace[..n]);
      JavaLogsItsPairing(j, builder, trace[..n]);
      var s := JavaDrive(j, builder, trace[..n]).(builder := trace[n].base);
      match trace[n]
      case Recv(m, base) => OnMessageHands(j, s, m);
      case Send(m, base) => SendMessageHands(j, s, m);
    }
  }

  lemma OnMessageHands(j: Config, s: JState, m: Msg)
    requires |s.deque| <= 1 && NothingThrows(j)
    ensures Handed(AfterOnMessage(j, s, m).log) == Handed(s.log) + s.deque
  {
    var s1 := s.(arrived := s.arrived + [m]);
    DrainOne(j, s1);
    if s.deque == [] {
      assert s.log + [] == s.log;
    } else {
      HandedGrows(s.log, AuditLogCall(j, s1.(deque := []), Some(s.deque[0]), None));
      assert s.deque == [s.deque[0]];
    }
  }

  lemma SendMessageHands(j: Config, s: JState, m: Msg)
    requires |s.deque| <= 1
    ensures Handed(AfterSendMessage(j, s, m, true).log) == Handed(s.log) + s.deque
  {
    HandedGrows(s.log, AuditLogCall(j, s, Last(s.deque), Some(m)));
    assert OptSeq(Last(s.deque)) == s.deque;
  }

  lemma HandedGrows(log: seq<Audited>, c: Audited)
    ensures Handed(log + [c]) == Handed(log) + OptSeq(c.request)
  {
    assert (log + [c])[..|log|] == log;
  }

  /** The requests in the entries are those handed to the audits, when the directive logs requests. */
  lemma EntriesShowHanded(j: Config, builder: Request, trace: seq<Event>)
    requires NothingThrows(j) && ShouldLogReq(j.directive)
    ensures Requests(JavaEntries(JavaDrive(j, builder, trace).log)) == Handed(JavaDrive(j, builder, trace).log)
  {
    JavaLogsItsPairing(j, builder, trace);
    JavaHandsOver(j, builder, trace);
    PairingsAgree(trace, j.directive);
    PairKeepsRequests(trace, j.directive);
    SameBefore(Handed(JavaDrive(j, builder, trace).log), Requests(Pair(trace, j.directive)), OptSeq(Pending(trace)));
  }

  lemma SameBefore(a: seq<Msg>, b: seq<Msg>, c: seq<Msg>)
    requires a + c == b + c
    ensures a == b
  {
    assert |a + c| == |b + c|;
    assert forall k :: 0 <= k < |a| ==> a[k] == (a + c)[k] && b[k] == (b + c)[k];
  }

  /** The one audit of a failing close. */
  lemma FailureAudit(j: Config, s: JState, status: RpcStatus) returns (call: Audited)
    requires s.deque != []
    ensures AfterClose(j, s, Some(status)).log == s.log + [call]
    ensures call.request == Some(s.deque[0])
    ensures call.entry == Entry(WithStatus(s.builder, status), if ShouldLogReq(j.directive) then call.request else None, None)
  {
    call := AfterClose(j, s, Some(status)).log[|s.log|];
  }

  lemma EntriesGrow(log: seq<Audited>, call: Audited)
    ensures JavaEntries(log + [call]) == JavaEntries(log) + [call.entry]
    ensures Requests(JavaEntries(log + [call])) == Requests(JavaEntries(log)) + OptSeq(call.entry.req)
  {
    assert JavaEntries(log + [call]) == JavaEntries(log) + [call.entry];
    RequestsSnoc(JavaEntries(log), call.entry);
  }

  /** A failed Java stream hands every request it received to an audit, in order, the pending one last
      and with the status; without a pending request, the failure leaves no mark in the log at all. */
  lemma JavaFailureLogsPending(j: Config, builder: Request, trace: seq<Event>, left: Request, status: RpcStatus)
    requires NothingThrows(j)
    ensures var before, after := JavaDrive(j, builder, trace).log, JavaFailed(j, builder, trace, left, status).log;
      && Handed(after) == Receives(trace)
      && (ShouldLogReq(j.directive) ==> Requests(JavaEntries(after)) == Receives(trace))
      && JavaEntries(after) == JavaPair(trace, j.directive) +
           (if Pending(trace).None? then []
            else [Entry(WithStatus(left, status), if ShouldLogReq(j.directive) then Pending(trace) else None, None)])
      && (after == before <==> Pending(trace).None?)
  {
    JavaLogsItsPairing(j, builder, trace);
    JavaHandsOver(j, builder, trace);
    var s := JavaDrive(j, builder, trace).(builder := left);
    if ShouldLogReq(j.directive) {
      EntriesShowHanded(j, builder, trace);
    }
    if Pending(trace).Some? {
      var call := FailureAudit(j, s, status);
      HandedGrows(s.log, call);
      EntriesGrow(s.log, call);
    } else {
      assert s.deque == [];
      assert Handed(s.log) + [] == Handed(s.log);
      assert JavaEntries(s.log) + [] == JavaEntries(s.log);
    }
  }

  /** When a stream fails, Go and Java log the same requests, under a directive that logs requests,
      exactly when none is pending; otherwise Java logs the pending one and Go does not. The status is
      in the Go log always, and in the Java log exactly when a request is pending. */
  lemma FailedStreamsAgreeIff(w: Stream, j: Config, baseline: Request, d: Served, clock: nat -> nat, end: nat,
                              status: RpcStatus)
    requires WellBehaved(d) && AllConvertible(d.trace) && d.err.Some? && NothingThrows(j)
    requires w.directive == j.directive && ShouldLogReq(w.directive)
    ensures var go := Entries(WrappedSpec(w, baseline, d, clock, end).log);
      var java := JavaEntries(JavaFailed(j, baseline, d.trace, d.left, status).log);
      && (Requests(go) == Requests(java) <==> Pending(d.trace).None?)
      && Requests(java) == Requests(go) + OptSeq(Pending(d.trace))
      && |go| == |Pair(d.trace, w.directive)| + 1
      && |java| == |Pair(d.trace, w.directive)| + |OptSeq(Pending(d.trace))|
  {
    StreamLogsThePairing(w, baseline, d, clock, end);
    StreamLosesOnlyPending(w, baseline, d, clock, end);
    JavaFailureLogsPending(j, baseline, d.trace, d.left, status);
    PairingsAgree(d.trace, w.directive);
  }

  /** One request and a failure: Go logs the status and no request, Java the request with the status. */
  lemma OneRequestThenFailure(w: Stream, j: Config, baseline: Request, m: Msg, left: Request, e: Error, status: RpcStatus,
                              clock: nat -> nat, end: nat)
    requires baseline.payload.Some? && left.payload.Some? && Convertible(m) && NothingThrows(j)
    requires w.directive == j.directive && ShouldLogReq(w.directive)
    ensures var trace := [Recv(m, baseline)];
      && WellBehaved(Served(trace, left, Some(e)))
      && Entries(WrappedSpec(w, baseline, Served(trace, left, Some(e)), clock, end).log)
           == [Entry(WithErrorStatus(left, e), None, None)]
      && JavaEntries(JavaFailed(j, baseline, trace, left, status).log) == [Entry(WithStatus(left, status), Some(m), None)]
  {
    var trace := [Recv(m, baseline)];
    assert trace[..0] == [];
    assert Receives(trace) == [m];
    assert Pair(trace, w.directive) == [];
    assert JavaPair(trace, w.directive) == [];
    StreamLogsThePairing(w, baseline, Served(trace, left, Some(e)), clock, end);
    JavaFailureLogsPending(j, baseline, trace, left, status);
  }
}
