/** The order in which the Java interceptor sends responses on, against the order of its log. */
module JavaSendOrder {
  import opened AuditLog
  import opened StreamProtocol
  import opened GoStream
  import opened GoStreamSafety
  import opened JavaStream
  import opened JavaStreamSafety

  /** A transmission is of the call that was cleared first. */
  predicate InOrderStep(s: JState, a: JAction)
    requires JEnabled(s, a)
  {
    a.Transmit? ==> forall k :: 0 <= k < a.i ==> !s.calls[k].Cleared?
  }

  ghost predicate TransmitsInOrder(j: Config, builder: Request, acts: seq<JAction>)
    requires JRun(j, JInit(builder), acts).Some?
  {
    acts == [] ||
      var n := |acts| - 1;
      && TransmitsInOrder(j, builder, acts[..n])
      && InOrderStep(JRun(j, JInit(builder), acts[..n]).value, acts[n])
  }

  lemma {:induction false} NoneCleared(calls: seq<InFlight>)
    ensures ClearedInFlight(calls) == [] <==> forall k :: 0 <= k < |calls| ==> !calls[k].Cleared?
    decreases |calls|
  {
    if calls != [] {
      NoneCleared(calls[..|calls| - 1]);
    }
  }

  /** Around call i, what is sent and what is cleared to be. */
  lemma ClearedAround(s: JState, i: nat)
    requires i < |s.calls|
    ensures var before, after := ClearedInFlight(s.calls[..i]), ClearedInFlight(s.calls[i + 1..]);
      && ClearedInFlight(s.calls) == before + ClearedMessage(s.calls[i]) + after
      && ClearedInFlight(Without(s.calls, i)) == before + after
      && ((forall k :: 0 <= k < i ==> !s.calls[k].Cleared?) ==> before == [])
  {
    GatherAround(s.calls, i, ClearedMessage);
    NoneCleared(s.calls[..i]);
  }

  /** What is sent, followed by what is cleared to be. */
  function Sendable(s: JState): seq<Msg> {
    s.sent + ClearedInFlight(s.calls)
  }

  /** Every step but a transmission adds the same to what may be sent and to what was audited. */
  lemma StepClears(j: Config, s: JState, a: JAction) returns (more: seq<Msg>)
    requires JEnabled(s, a) && !a.Transmit?
    ensures var s' := JApply(j, s, a);
      && |more| <= 1 && s'.sent == s.sent && s'.refused == s.refused
      && ClearedInFlight(s'.calls) == ClearedInFlight(s.calls) + more
      && AuditedResponses(s'.log) == AuditedResponses(s.log) + more
  {
    more := [];
    match a
    case AuditOldest => AuditedResponsesSnoc(s.log, AuditLogCall(j, s, Some(s.listener.r), None));
    case SendPollLast(m) => AddedCleared(s.calls, Sending(m, Last(s.deque)));
    case ClosePollFirst(_) => AddedCleared(s.calls, Closing(First(s.deque)));
    case AuditCall(i) => more := AuditCallClears(j, s, i);
    case _ =>
  }

  lemma AddedCleared(calls: seq<InFlight>, c: InFlight)
    ensures ClearedInFlight(calls + [c]) == ClearedInFlight(calls) + ClearedMessage(c)
  {
    GatherAppend(calls, [c], ClearedMessage);
    GatherOne(c, ClearedMessage);
  }

  lemma NotClearedGone(calls: seq<InFlight>, i: nat)
    requires i < |calls| && !calls[i].Cleared?
    ensures ClearedInFlight(Without(calls, i)) == ClearedInFlight(calls)
  {
    GatherAround(calls, i, ClearedMessage);
    assert Gather(calls[..i], ClearedMessage) + [] == Gather(calls[..i], ClearedMessage);
  }

  lemma AuditedCallClears(s: JState, i: nat, call: Audited, m: Msg) returns (more: seq<Msg>)
    requires i < |s.calls| && !s.calls[i].Cleared? && call.response == Some(m)
    ensures |more| <= 1
    ensures ClearedInFlight(Without(s.calls, i) + (if call.ok then [Cleared(m)] else [])) == ClearedInFlight(s.calls) + more
    ensures AuditedResponses(s.log + [call]) == AuditedResponses(s.log) + more
  {
    NotClearedGone(s.calls, i);
    AuditedResponsesSnoc(s.log, call);
    var rest := Without(s.calls, i);
    if call.ok {
      more := [m];
      AddedCleared(rest, Cleared(m));
    } else {
      more := [];
      assert rest + [] == rest && ClearedInFlight(s.calls) + [] == ClearedInFlight(s.calls);
    }
  }

  lemma AuditCallClears(j: Config, s: JState, i: nat) returns (more: seq<Msg>)
    requires i < |s.calls| && !s.calls[i].Cleared?
    ensures var s' := JApply(j, s, AuditCall(i));
      && |more| <= 1
      && ClearedInFlight(s'.calls) == ClearedInFlight(s.calls) + more
      && AuditedResponses(s'.log) == AuditedResponses(s.log) + more
  {
    match s.calls[i]
    case Sending(m, polled) => more := AuditedCallClears(s, i, AuditLogCall(j, s, polled, Some(m)), m);
    case Closing(polled) =>
      more := [];
      NotClearedGone(s.calls, i);
      if polled.Some? {
        AuditedResponsesSnoc(s.log, AuditLogCall(j, s, polled, None));
      }
  }

  lemma {:induction false} SubsequenceDrops<T>(a: seq<T>, x: T, c: seq<T>, b: seq<T>)
    requires Subsequence(a + [x] + c, b)
    ensures Subsequence(a + c, b)
    decreases |b|
  {
    var all, rest := a + [x] + c, b[..|b| - 1];
    if Subsequence(all, rest) {
      SubsequenceDrops(a, x, c, rest);
    } else if c == [] {
      assert all[..|all| - 1] == a == a + c;
    } else {
      var n := |c| - 1;
      assert all[..|all| - 1] == a + [x] + c[..n] && (a + c)[..|a + c| - 1] == a + c[..n];
      SubsequenceDrops(a, x, c[..n], rest);
    }
  }

  /** A transmission in order leaves what may be sent as it is, or drops a refused response from it. */
  lemma TransmitInOrder(j: Config, s: JState, i: nat, accepted: bool)
    requires i < |s.calls| && s.calls[i].Cleared? && forall k :: 0 <= k < i ==> !s.calls[k].Cleared?
    ensures var s', rest := JApply(j, s, Transmit(i, accepted)), ClearedInFlight(Without(s.calls, i));
      && Sendable(s) == s.sent + [s.calls[i].m] + rest
      && Sendable(s') == if accepted then Sendable(s) else s.sent + rest
  {
    ClearedAround(s, i);
    var rest := ClearedInFlight(s.calls[i + 1..]);
    assert [] + [s.calls[i].m] + rest == [s.calls[i].m] + rest && [] + rest == rest;
    assert s.sent + ([s.calls[i].m] + rest) == s.sent + [s.calls[i].m] + rest;
    assert s.sent + [] == s.sent;
  }

  lemma StepKeepsOrder(j: Config, s: JState, a: JAction)
    requires JEnabled(s, a) && InOrderStep(s, a) && Subsequence(Sendable(s), AuditedResponses(s.log))
    ensures Subsequence(Sendable(JApply(j, s, a)), AuditedResponses(JApply(j, s, a).log))
  {
    if a.Transmit? {
      TransmitInOrder(j, s, a.i, a.accepted);
      if !a.accepted {
        SubsequenceDrops(s.sent, s.calls[a.i].m, ClearedInFlight(Without(s.calls, a.i)), AuditedResponses(s.log));
      }
    } else {
      var more := StepClears(j, s, a);
      MoreKeepsOrder(Sendable(s), AuditedResponses(s.log), more);
      assert Sendable(JApply(j, s, a)) == Sendable(s) + more;
    }
  }

  lemma MoreKeepsOrder(a: seq<Msg>, b: seq<Msg>, more: seq<Msg>)
    requires Subsequence(a, b) && |more| <= 1
    ensures Subsequence(a + more, b + more)
  {
    if more == [] {
      assert a + more == a && b + more == b;
    } else {
      SubsequenceSkips(a, b, more[0]);
      assert more == [more[0]];
    }
  }

  /** The order of sends: when calls that are cleared are transmitted in the order of their audits, the
      responses sent on are, in order, among those whose auditLog call returned. */
  lemma {:induction false} JavaSendsInOrder(j: Config, builder: Request, acts: seq<JAction>)
    requires JRun(j, JInit(builder), acts).Some? && TransmitsInOrder(j, builder, acts)
    ensures var s := JRun(j, JInit(builder), acts).value;
      Subsequence(Sendable(s), AuditedResponses(s.log)) && Subsequence(s.sent, AuditedResponses(s.log))
    decreases |acts|
  {
    if acts != [] {
      var n := |acts| - 1;
      JavaSendsInOrder(j, builder, acts[..n]);
      StepKeepsOrder(j, JRun(j, JInit(builder), acts[..n]).value, acts[n]);
    }
    var s := JRun(j, JInit(builder), acts).value;
    SubsequencePrefix(s.sent, ClearedInFlight(s.calls), AuditedResponses(s.log));
  }

  lemma {:induction false} SubsequencePrefix<T>(a: seq<T>, c: seq<T>, b: seq<T>)
    requires Subsequence(a + c, b)
    ensures Subsequence(a, b)
    decreases |c|
  {
    if c == [] {
      assert a + c == a;
    } else {
      var n := |c| - 1;
      assert a + c == a + c[..n] + [c[n]] + [] && a + c[..n] + [] == a + c[..n];
      SubsequenceDrops(a + c[..n], c[n], [], b);
      SubsequencePrefix(a, c[..n], b);
    }
  }

  // ---- one sender at a time ----

  predicate AtMostOneSend(calls: seq<InFlight>) {
    forall i, k :: 0 <= i < k < |calls| ==> calls[i].Closing? || calls[k].Closing?
  }

  /** What a gRPC server call asks of its callers: no sendMessage begins while another is in flight. */
  ghost predicate OneSenderAtATime(j: Config, builder: Request, acts: seq<JAction>)
    requires JRun(j, JInit(builder), acts).Some?
  {
    acts == [] ||
      var n := |acts| - 1;
      && OneSenderAtATime(j, builder, acts[..n])
      && (acts[n].SendPollLast? ==>
            var calls := JRun(j, JInit(builder), acts[..n]).value.calls;
            forall k :: 0 <= k < |calls| ==> calls[k].Closing?)
  }

  lemma WithoutKeepsOneSend(calls: seq<InFlight>, i: nat, m: Msg)
    requires i < |calls| && AtMostOneSend(calls)
    ensures AtMostOneSend(Without(calls, i))
    ensures !calls[i].Closing? ==> AtMostOneSend(Without(calls, i) + [Cleared(m)])
  {
    var rest := Without(calls, i);
    forall a, b | 0 <= a < b < |rest| ensures rest[a].Closing? || rest[b].Closing? {
      assert rest[a] == calls[if a < i then a else a + 1] && rest[b] == calls[if b < i then b else b + 1];
    }
    if !calls[i].Closing? {
      forall a | 0 <= a < |rest| ensures rest[a].Closing? {
        assert rest[a] == calls[if a < i then a else a + 1];
      }
    }
  }

  lemma StepKeepsOneSend(j: Config, s: JState, a: JAction)
    requires JEnabled(s, a) && AtMostOneSend(s.calls)
    requires a.SendPollLast? ==> forall k :: 0 <= k < |s.calls| ==> s.calls[k].Closing?
    ensures AtMostOneSend(JApply(j, s, a).calls)
    ensures InOrderStep(s, a)
  {
    match a
    case AuditCall(i) =>
      var rest := Without(s.calls, i);
      assert rest + [] == rest;
      WithoutKeepsOneSend(s.calls, i, if s.calls[i].Sending? then s.calls[i].m else Msg(0, None));
    case Transmit(i, _) => WithoutKeepsOneSend(s.calls, i, s.calls[i].m);
    case _ =>
  }

  /** With one sender at a time the responses sent on are, in order, among those audited, whatever the
      listener, the closes and the faults do. */
  lemma {:induction false} OneSenderIsInOrder(j: Config, builder: Request, acts: seq<JAction>)
    requires JRun(j, JInit(builder), acts).Some? && OneSenderAtATime(j, builder, acts)
    ensures TransmitsInOrder(j, builder, acts) && AtMostOneSend(JRun(j, JInit(builder), acts).value.calls)
    decreases |acts|
  {
    if acts != [] {
      var n := |acts| - 1;
      OneSenderIsInOrder(j, builder, acts[..n]);
      StepKeepsOneSend(j, JRun(j, JInit(builder), acts[..n]).value, acts[n]);
    }
  }

  lemma OneSenderSendsInOrder(j: Config, builder: Request, acts: seq<JAction>)
    requires JRun(j, JInit(builder), acts).Some? && OneSenderAtATime(j, builder, acts)
    ensures var s := JRun(j, JInit(builder), acts).value; Subsequence(s.sent, AuditedResponses(s.log))
  {
    OneSenderIsInOrder(j, builder, acts);
    JavaSendsInOrder(j, builder, acts);
  }

  // ---- and with several ----

  lemma DistinctPrefix(a: seq<Msg>, b: seq<Msg>)
    requires Distinct(a + b)
    ensures Distinct(a)
  {
    forall i, k | 0 <= i < k < |a| ensures a[i] != a[k] {
      assert (a + b)[i] == a[i] && (a + b)[k] == a[k];
    }
  }

  /** A transmission that overtakes another puts a response where a different one was audited. */
  lemma OvertakingShows(j: Config, s: JState, i: nat)
    requires i < |s.calls| && s.calls[i].Cleared? && exists k :: 0 <= k < i && s.calls[k].Cleared?
    requires Sendable(s) == AuditedResponses(s.log) && Distinct(AuditedResponses(s.log))
    ensures !(JApply(j, s, Transmit(i, true)).sent <= AuditedResponses(s.log))
  {
    ClearedAround(s, i);
    NoneCleared(s.calls[..i]);
    var before, m := ClearedInFlight(s.calls[..i]), s.calls[i].m;
    var k :| 0 <= k < i && s.calls[k].Cleared?;
    assert s.calls[..i][k].Cleared?;
    var audited, at := AuditedResponses(s.log), |s.sent|;
    assert audited[at] == before[0];
    assert audited[at + |before|] == m;
    assert (s.sent + [m])[at] == m;
  }

  lemma PrefixFails(p: seq<Msg>, a: seq<Msg>, dp: seq<Msg>, da: seq<Msg>)
    requires |p| <= |a| && !(p <= a)
    ensures !(p + dp <= a + da)
  {
    var k :| 0 <= k < |p| && p[k] != a[k];
    assert (p + dp)[k] == p[k] && (a + da)[k] == a[k];
  }

  /** How far the log and the sends of a state agree. */
  predicate Exact(s: JState) {
    Sendable(s) == AuditedResponses(s.log)
  }

  predicate SameLength(s: JState) {
    |Sendable(s)| == |AuditedResponses(s.log)|
  }

  lemma StepKeepsExact(j: Config, s: JState, a: JAction)
    requires JEnabled(s, a) && InOrderStep(s, a) && Exact(s) && JApply(j, s, a).refused == []
    ensures Exact(JApply(j, s, a))
  {
    if a.Transmit? {
      TransmitInOrder(j, s, a.i, a.accepted);
    } else {
      var more := StepClears(j, s, a);
      assert Sendable(JApply(j, s, a)) == Sendable(s) + more;
    }
  }

  lemma StepKeepsLength(j: Config, s: JState, a: JAction)
    requires JEnabled(s, a) && SameLength(s) && JApply(j, s, a).refused == []
    ensures SameLength(JApply(j, s, a))
  {
    if a.Transmit? {
      ClearedAround(s, a.i);
    } else {
      var more := StepClears(j, s, a);
    }
  }

  /** Once a response is sent on where a different one was audited, that stays. */
  lemma StepKeepsDisorder(j: Config, s: JState, a: JAction)
    requires JEnabled(s, a) && SameLength(s) && !(s.sent <= AuditedResponses(s.log))
    ensures !(JApply(j, s, a).sent <= AuditedResponses(JApply(j, s, a).log))
  {
    if a.Transmit? {
      var m := if a.accepted then [s.calls[a.i].m] else [];
      PrefixFails(s.sent, AuditedResponses(s.log), m, []);
      assert AuditedResponses(s.log) + [] == AuditedResponses(s.log);
    } else {
      var more := StepClears(j, s, a);
      PrefixFails(s.sent, AuditedResponses(s.log), [], more);
      assert s.sent + [] == s.sent;
    }
  }

  lemma AuditedGrow(j: Config, s: JState, a: JAction)
    requires JEnabled(s, a)
    ensures AuditedResponses(s.log) <= AuditedResponses(JApply(j, s, a).log)
    ensures Distinct(AuditedResponses(JApply(j, s, a).log)) ==> Distinct(AuditedResponses(s.log))
    ensures JApply(j, s, a).refused == [] ==> s.refused == []
  {
    if !a.Transmit? {
      var more := StepClears(j, s, a);
      if Distinct(AuditedResponses(JApply(j, s, a).log)) {
        DistinctPrefix(AuditedResponses(s.log), more);
      }
    }
  }

  /** Where no response is refused and no two are alike, the responses sent on are the first of those
      audited, in order, exactly when every transmission was of the call cleared first. */
  lemma {:induction false} JavaOrderIff(j: Config, builder: Request, acts: seq<JAction>)
    requires JRun(j, JInit(builder), acts).Some?
    requires var s := JRun(j, JInit(builder), acts).value; s.refused == [] && Distinct(AuditedResponses(s.log))
    ensures var s := JRun(j, JInit(builder), acts).value;
      && (s.sent <= AuditedResponses(s.log) <==> TransmitsInOrder(j, builder, acts))
      && (TransmitsInOrder(j, builder, acts) ==> Exact(s))
      && SameLength(s)
    decreases |acts|
  {
    if acts != [] {
      var n := |acts| - 1;
      var s := JRun(j, JInit(builder), acts[..n]).value;
      AuditedGrow(j, s, acts[n]);
      JavaOrderIff(j, builder, acts[..n]);
      StepKeepsLength(j, s, acts[n]);
      if !TransmitsInOrder(j, builder, acts[..n]) {
        StepKeepsDisorder(j, s, acts[n]);
      } else if InOrderStep(s, acts[n]) {
        StepKeepsExact(j, s, acts[n]);
      } else {
        OvertakingShows(j, s, acts[n].i);
      }
    }
  }

  /** The oldest call in flight is a send, and its message is logged. */
  lemma LogOldest(j: Config, s0: JState, acts: seq<JAction>, s: JState, m: Msg, rest: seq<InFlight>)
    returns (more: seq<JAction>, s': JState)
    requires JRun(j, s0, acts) == Some(s)
    requires s.calls == [Sending(m, None)] + rest && forall k, e :: j.accepts(k, e)
    ensures JRun(j, s0, more) == Some(s')
    ensures s'.calls == rest + [Cleared(m)] && s'.sent == s.sent
    ensures AuditedResponses(s'.log) == AuditedResponses(s.log) + [m]
  {
    assert s.calls[0] == Sending(m, None) && Without(s.calls, 0) == rest;
    AuditedResponsesSnoc(s.log, AuditLogCall(j, s, None, Some(m)));
    more := JThen(j, s0, acts, s, AuditCall(0));
    s' := JApply(j, s, AuditCall(0));
  }

  lemma SendBackwards(j: Config, s: JState, a: Msg, b: Msg) returns (s': JState)
    requires s.calls == [Cleared(a), Cleared(b)] && s.sent == []
    ensures s' == JApply(j, s, Transmit(1, true))
    ensures s'.calls == [Cleared(a)] && JApply(j, s', Transmit(0, true)).sent == [b, a]
    ensures JApply(j, s', Transmit(0, true)).log == s.log
  {
    s' := JApply(j, s, Transmit(1, true));
    assert s'.calls == [Cleared(a)] && s'.sent == [b];
  }

  lemma BothPolled(j: Config, builder: Request, a: Msg, b: Msg) returns (acts: seq<JAction>, s: JState)
    ensures JRun(j, JInit(builder), acts) == Some(s)
    ensures s.calls == [Sending(a, None)] + [Sending(b, None)] && s.log == [] && s.sent == []
  {
    var s0 := JInit(builder);
    acts := JThen(j, s0, [], s0, SendPollLast(a));
    var s1 := JApply(j, s0, SendPollLast(a));
    assert s1.calls == [Sending(a, None)];
    acts := JThen(j, s0, acts, s1, SendPollLast(b));
    s := JApply(j, s1, SendPollLast(b));
  }

  lemma BothLogged(j: Config, builder: Request, a: Msg, b: Msg) returns (acts: seq<JAction>, s: JState)
    requires forall k, e :: j.accepts(k, e)
    ensures JRun(j, JInit(builder), acts) == Some(s)
    ensures s.calls == [Cleared(a), Cleared(b)] && s.sent == [] && AuditedResponses(s.log) == [a, b]
  {
    var s0 := JInit(builder);
    var s2;
    acts, s2 := BothPolled(j, builder, a, b);
    var s3;
    acts, s3 := LogOldest(j, s0, acts, s2, a, [Sending(b, None)]);
    acts, s := LogOldest(j, s0, acts, s3, b, [Cleared(a)]);
  }

  lemma Crossed(a: Msg, b: Msg)
    requires a != b
    ensures !Subsequence([b, a], [a, b])
  {
    assert [a, b][..1] == [a] && [b, a][..1] == [b];
    assert !Subsequence([b], []) && !Subsequence([b, a], []);
    assert !Subsequence([b, a], [a]);
  }

  /** Two senders at a time can do it: both responses are logged, and the second is sent on first. */
  lemma TwoSendersCanOvertake(j: Config, builder: Request, a: Msg, b: Msg) returns (acts: seq<JAction>)
    requires a != b && forall k, e :: j.accepts(k, e)
    ensures JRun(j, JInit(builder), acts).Some?
    ensures var s := JRun(j, JInit(builder), acts).value;
      && s.sent == [b, a] && AuditedResponses(s.log) == [a, b]
      && !Subsequence(s.sent, AuditedResponses(s.log))
  {
    Crossed(a, b);
    var s4;
    acts, s4 := BothLogged(j, builder, a, b);
    var s5 := SendBackwards(j, s4, a, b);
    acts := JThen(j, JInit(builder), acts, s4, Transmit(1, true));
    acts := JThen(j, JInit(builder), acts, s5, Transmit(0, true));
  }

  lemma JThen(j: Config, s0: JState, acts: seq<JAction>, s: JState, a: JAction) returns (more: seq<JAction>)
    requires JRun(j, s0, acts) == Some(s) && JEnabled(s, a)
    ensures JRun(j, s0, more) == Some(JApply(j, s, a))
  {
    JRunStep(j, s0, acts, a);
    more := acts + [a];
  }
}
