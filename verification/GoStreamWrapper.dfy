/** serverStreamWrapper itself: a pending request in a field, a baseline that is cloned for each entry,
    and an audit client. */
module GoStreamWrapper {
  import opened AuditLog
  import opened AuditErrors
  import opened Pipeline
  import opened JsonStruct
  import opened StreamProtocol
  import opened GoStream
  import opened GoStreamTrace

  /** toProtoStruct's failure as setReq and setResp return it. */
  const CONVERSION_ERROR := InterceptorError(RpcError(Internal, "failed to convert into a proto struct"))
  const LOG_FAILURE := InterceptorError(RpcError(Internal, "failed to emit log"))

  /** What a stream is wrapped with, for a client and the directive of a rule. */
  function WrappedBy(c: Client, directive: Directive): Stream {
    Stream((t: nat, r: Request) => LogSpec(c, t, r).err, directive)
  }

  lemma StreamErrors(context: string)
    ensures Is(CONVERSION_ERROR, ERR_INTERCEPTOR) && Is(LOG_FAILURE, ERR_INTERCEPTOR)
    ensures Is(Wrap(context, CONVERSION_ERROR), ERR_INTERCEPTOR)
  {
    assert CONVERSION_ERROR.causes[0] == ERR_INTERCEPTOR && LOG_FAILURE.causes[0] == ERR_INTERCEPTOR;
    WrapKeepsSentinels(context, CONVERSION_ERROR, ERR_INTERCEPTOR.name);
  }

  class ServerStreamWrapper {
    const client: AuditClient
    const baseline: RequestRef    // shared with the handler, which may write to it between calls
    const directive: Directive
    var lastReq: Option<Msg>

    ghost var arrived: seq<Msg>
    ghost var log: seq<LogCall>
    ghost var delivered: seq<Msg>
    ghost var lost: seq<Msg>
    ghost var suppressed: seq<Msg>

    constructor (client: AuditClient, baseline: RequestRef, directive: Directive)
      ensures this.client == client && this.baseline == baseline && this.directive == directive
      ensures View() == Init(baseline.val)
    {
      this.client, this.baseline, this.directive := client, baseline, directive;
      lastReq := None;
      arrived, log, delivered, lost, suppressed := [], [], [], [], [];
    }

    ghost function Wrapping(): Stream
      reads this, client
    {
      WrappedBy(client.View(), directive)
    }

    ghost function View(): State
      reads this, baseline
    {
      State(baseline.val, lastReq, RIdle, SIdle, arrived, log, delivered, lost, suppressed)
    }

    method SwapLastReq(m: Msg) returns (prev: Option<Msg>)
      modifies this`lastReq
      ensures prev == old(lastReq) && lastReq == Some(m)
    {
      prev := lastReq;
      lastReq := Some(m);
    }

    method PopLastReq() returns (m: Option<Msg>)
      modifies this`lastReq
      ensures m == old(lastReq) && lastReq == None
    {
      m := lastReq;
      lastReq := None;
    }

    method SetReq(logReq: RequestRef, m: Msg) returns (err: Option<Error>)
      requires logReq.val.payload.Some?
      modifies logReq
      ensures err == if Convertible(m) then None else Some(CONVERSION_ERROR)
      ensures logReq.val == if err.Some? then old(logReq.val)
        else old(logReq.val).(payload := Some(old(logReq.val).payload.value.(request := ToProtoStruct(m.json))))
    {
      var ms := ToProtoStruct(m.json);
      if ms.None? {
        return Some(CONVERSION_ERROR);
      }
      logReq.val := logReq.val.(payload := Some(logReq.val.payload.value.(request := ms)));
      return None;
    }

    method SetResp(logReq: RequestRef, m: Msg) returns (err: Option<Error>)
      requires logReq.val.payload.Some?
      modifies logReq
      ensures err == if Convertible(m) then None else Some(CONVERSION_ERROR)
      ensures logReq.val == if err.Some? then old(logReq.val)
        else old(logReq.val).(payload := Some(old(logReq.val).payload.value.(response := ToProtoStruct(m.json))))
    {
      var ms := ToProtoStruct(m.json);
      if ms.None? {
        return Some(CONVERSION_ERROR);
      }
      logReq.val := logReq.val.(payload := Some(logReq.val.payload.value.(response := ms)));
      return None;
    }

    /** ss.c.Log, recorded. */
    method LogEntry(t: nat, logReq: RequestRef, ghost entry: Entry, ghost sending: Option<Msg>)
      returns (err: Option<Error>)
      requires logReq.val == Rendered(entry)
      modifies this`log, logReq
      ensures log == old(log) + [CallLog(Wrapping(), t, entry, sending)]
      ensures err == CallLog(Wrapping(), t, entry, sending).err
    {
      ghost var given := logReq.val;
      var calls;
      err, calls := client.Log(t, logReq);
      log := log + [LogCall(t, entry, given, sending, err)];
    }

    /** The tail of RecvMsg: log, on the clone of the baseline, the request that was pending. */
    method LogOrphan(t: nat, logReq: RequestRef, prev: Msg) returns (err: Option<Error>)
      requires logReq.val == baseline.val && logReq != baseline && baseline.val.payload.Some?
      modifies this`log, this`lost, this`suppressed, logReq
      ensures View() == FinishRecv(Wrapping(), old(View()).(receiver := RSwapped(baseline.val, Some(prev))), t)
      ensures err.None? <==> lost == old(lost) && forall k :: |old(log)| <= k < |log| ==> log[k].err.None?
      ensures err.Some? ==> Is(err.value, ERR_INTERCEPTOR)
    {
      StreamErrors("");
      err := None;
      if ShouldLogReq(directive) {
        err := SetReq(logReq, prev);
        if err.Some? {
          lost := lost + [prev];
          return;
        }
        ghost var entry := Entry(baseline.val, Some(prev), None);
        assert logReq.val == Rendered(entry);
        err := LogEntry(t, logReq, entry, None);
        assert log[|old(log)|].err == err;
        if err.Some? {
          return Some(LOG_FAILURE);
        }
      } else {
        suppressed := suppressed + [prev];
      }
    }

    /** `incoming` is what the transport's RecvMsg fills in, or None when it fails. The baseline is
        outside the frame: no entry, and nothing the client does to one, reaches it. */
    method RecvMsg(t: nat, incoming: Option<Msg>) returns (err: Option<Error>)
      requires baseline.val.payload.Some?
      requires incoming.Some? ==> incoming.value !in arrived
      modifies this
      ensures View() == (if incoming.None? then old(View())
                         else AfterRecv(Wrapping(), old(View()), incoming.value, t))
      ensures err.None? <==> incoming.Some? && lost == old(lost)
                             && forall k :: |old(log)| <= k < |log| ==> log[k].err.None?
      ensures err.Some? && incoming.Some? ==> Is(err.value, ERR_INTERCEPTOR)
    {
      var logReq := new RequestRef(baseline.val);
      if incoming.None? {
        return Some(Plain("failed to receive message from server stream"));
      }
      var m := incoming.value;
      var lr := SwapLastReq(m);
      arrived := arrived + [m];
      err := None;
      if lr.Some? {
        err := LogOrphan(t, logReq, lr.value);
      }
    }

    /** The two autofill steps of SendMsg, on the clone of the baseline. */
    method FillEntry(logReq: RequestRef, lr: Option<Msg>, m: Msg) returns (err: Option<Error>, ghost entry: Entry)
      requires logReq.val == baseline.val && logReq != baseline && baseline.val.payload.Some?
      modifies logReq
      ensures err.Some? <==>
        || (ShouldLogReq(directive) && lr.Some? && !Convertible(lr.value))
        || (ShouldLogResp(directive) && !Convertible(m))
      ensures err.Some? ==> Is(err.value, ERR_INTERCEPTOR)
      ensures err.None? ==> logReq.val == Rendered(entry) && Carries(logReq.val, entry)
      ensures entry == Entry(baseline.val, if ShouldLogReq(directive) then lr else None,
                             if ShouldLogResp(directive) then Some(m) else None)
    {
      entry := Entry(baseline.val, if ShouldLogReq(directive) then lr else None,
                     if ShouldLogResp(directive) then Some(m) else None);
      if lr.Some? {
        if ShouldLogReq(directive) {
          err := SetReq(logReq, lr.value);
          if err.Some? {
            StreamErrors("failed to set request");
            return Some(Wrap("failed to set request", err.value)), entry;
          }
        }
      }
      if ShouldLogResp(directive) {
        err := SetResp(logReq, m);
        if err.Some? {
          StreamErrors("failed to set response");
          return Some(Wrap("failed to set response", err.value)), entry;
        }
      }
      RenderedCarries(entry);
      err := None;
    }

    /** The last steps of SendMsg: log the entry, and only then send the response. `accepted` is
        whether the transport takes it. */
    method LogThenSend(t: nat, logReq: RequestRef, ghost entry: Entry, m: Msg, accepted: bool)
      returns (err: Option<Error>)
      requires logReq.val == Rendered(entry)
      modifies this`log, this`delivered, logReq
      ensures var call := CallLog(Wrapping(), t, entry, Some(m));
        && log == old(log) + [call]
        && delivered == old(delivered) + (if call.err.None? && accepted then [m] else [])
        && (err.None? <==> call.err.None? && accepted)
        && (err.Some? && call.err.Some? ==> Is(err.value, ERR_INTERCEPTOR))
    {
      StreamErrors("");
      err := LogEntry(t, logReq, entry, Some(m));
      if err.Some? {
        return Some(LOG_FAILURE);
      }
      if !accepted {
        return Some(Plain("failed to send message to server stream"));
      }
      delivered := delivered + [m];
    }

    method SendMsg(t: nat, m: Msg, accepted: bool) returns (err: Option<Error>)
      requires baseline.val.payload.Some?
      modifies this
      ensures View() == AfterSend(Wrapping(), old(View()), m, t, accepted)
      ensures err.None? <==> delivered == old(delivered) + [m]
      ensures err.Some? && accepted ==> Is(err.value, ERR_INTERCEPTOR)
    {
      var logReq := new RequestRef(baseline.val);
      var lr := PopLastReq();
      ghost var entry;
      err, entry := FillEntry(logReq, lr, m);
      if err.Some? {
        lost := lost + OptSeq(if ShouldLogReq(directive) then lr else None);
        return;
      }
      suppressed := suppressed + if ShouldLogReq(directive) then [] else OptSeq(lr);
      err := LogThenSend(t, logReq, entry, m, accepted);
    }
  }
}
