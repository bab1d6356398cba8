/** The remote backend: the processor on the client, the agent on the server, and the two pipelines
    composed. */
module Remote {
  import opened AuditLog
  import opened AuditErrors
  import opened Pipeline

  /** What happens to one call on the way: the credentials may fail, and the request or the answer may
      be lost. */
  datatype Wire = Carried | NoCredentials(err: Error) | RequestLost | AnswerLost

  type Network = nat -> Wire

  /** ProcessLog's answer: a result or a status error. */
  datatype Answer = Result(req: Request) | Refused(status: Error)

  function CodifyErr(e: Error): Error {
    if Is(e, ERR_INVALID_REQUEST) then RpcError(InvalidArgument, Text(e)) else RpcError(Internal, Text(e))
  }

  function Agent(server: Client, t: nat, r: Request): Answer {
    var res := LogSpec(server, t, r);
    if res.err.Some? then Refused(CodifyErr(res.err.value)) else Result(res.final)
  }

  /** What the remote processor does to the client's request. */
  function RemoteOutcome(server: Client, net: Network, t: nat, r: Request): Outcome {
    match net(t)
    case NoCredentials(e) => Outcome(r, Some(Wrap("failed to generate gRPC auth call options", e)))
    case RequestLost => Outcome(r, Some(Wrap("remote log processing failed", RpcError(Unavailable, "unavailable"))))
    case AnswerLost => Outcome(r, Some(Wrap("remote log processing failed", RpcError(Unavailable, "unavailable"))))
    case Carried =>
      match Agent(server, t, r)
      case Refused(status) => Outcome(r, Some(Wrap("remote log processing failed", status)))
      case Result(done) => Outcome(r.(labels := done.labels, payload := done.payload, logType := done.logType), None)
  }

  class AuditLogAgent {
    const client: AuditClient

    constructor (c: AuditClient)
      ensures client == c
    {
      client := c;
    }

    /** The server works on the request it decoded, which is not the caller's. */
    method ProcessLog(t: nat, logReq: RequestRef) returns (answer: Answer)
      modifies logReq
      ensures answer == Agent(client.View(), t, old(logReq.val))
    {
      var err, calls := client.Log(t, logReq);
      if err.Some? {
        return Refused(CodifyErr(err.value));
      }
      return Result(logReq.val);
    }
  }

  class RemoteProcessor {
    const agent: AuditLogAgent
    const net: Network

    constructor (a: AuditLogAgent, n: Network)
      ensures agent == a && net == n
    {
      agent, net := a, n;
    }

    method Process(t: nat, logReq: RequestRef) returns (err: Option<Error>)
      modifies logReq
      ensures Outcome(logReq.val, err) == RemoteOutcome(agent.client.View(), net, t, old(logReq.val))
    {
      var wire := net(t);
      if wire.NoCredentials? {
        return Some(Wrap("failed to generate gRPC auth call options", wire.err));
      }
      var lost := Some(Wrap("remote log processing failed", RpcError(Unavailable, "unavailable")));
      if wire.RequestLost? {
        return lost;
      }
      var decoded := new RequestRef(logReq.val);
      var answer := agent.ProcessLog(t, decoded);
      if wire.AnswerLost? {
        return lost;
      }
      if answer.Refused? {
        return Some(Wrap("remote log processing failed", answer.status));
      }
      logReq.val := logReq.val.(labels := answer.req.labels);
      logReq.val := logReq.val.(payload := answer.req.payload);
      logReq.val := logReq.val.(logType := answer.req.logType);
      return None;
    }
  }

  // ---- two tiers ----

  /** Slot i of the client is the remote processor of that server. */
  ghost predicate IsRemote(c: Client, i: nat, server: Client, net: Network) {
    && i < |Slots(c)|
    && forall t, r :: Slots(c)[i](t, r) == RemoteOutcome(server, net, t, r)
  }

  lemma AgentIsInvalidArgumentIff(server: Client, t: nat, r: Request)
    requires Agent(server, t, r).Refused?
    ensures var calls := LogSpec(server, t, r).calls;
            && calls != [] && calls[|calls| - 1].err.Some?
            && !Is(calls[|calls| - 1].err.value, ERR_PRECONDITION_FAILED)
            && CodeOf(Agent(server, t, r).status) ==
                 Some(if Is(calls[|calls| - 1].err.value, ERR_INVALID_REQUEST) then InvalidArgument else Internal)
  {
    ReturnedSentinels(server, t, r, ERR_INVALID_REQUEST.name);
    var calls := LogSpec(server, t, r).calls;
    RunIsAPrefix(Slots(server), |server.validators|, |server.mutators|, t, Admitted(server, r));
    WrapKeepsSentinels(StageOf(|server.validators|, |server.mutators|, |calls| - 1),
                       calls[|calls| - 1].err.value, ERR_PRECONDITION_FAILED.name);
  }

  /** The request that slot i sends to the server. */
  function Sent(c: Client, i: nat, t: nat, r: Request): Request
    requires i <= |Slots(c)|
  {
    Through(Slots(c), t, Admitted(c, r), i)
  }

  /** A remote failure is never a precondition failure to the client, whatever it was on the server. */
  lemma RemoteErrorIsNoPrecondition(code: Code, text: string)
    ensures !Is(Wrap("remote log processing failed", RpcError(code, text)), ERR_PRECONDITION_FAILED)
  {
    WrapKeepsSentinels("remote log processing failed", RpcError(code, text), ERR_PRECONDITION_FAILED.name);
  }

  /** A FAIL_CLOSE request through a client with a remote backend gets nil exactly when a client-side
      processor reports a precondition failure, or every other client-side processor succeeds, the
      call is carried, and the server's chain succeeds or reports a precondition failure itself. */
  lemma TwoTierFailClose(c: Client, i: nat, server: Client, net: Network, t: nat, r: Request)
    requires IsRemote(c, i, server, net)
    requires AllKeepMode(Slots(c)) && AllKeepMode(Slots(server))
    requires FirstSpecified([r.mode, c.logMode]) == FailClose
    ensures LogSpec(c, t, r).err.None? <==>
      || PreconditionStop(c, t, r)
      || (&& (forall k: nat :: k < |Slots(c)| && k != i ==> ErrAt(Slots(c), t, Admitted(c, r), k).None?)
          && net(t).Carried?
          && (AllSucceed(server, t, Sent(c, i, t, r)) || PreconditionStop(server, t, Sent(c, i, t, r))))
  {
    var ps, r0, sent := Slots(c), Admitted(c, r), Sent(c, i, t, r);
    FirstOfTwo(r.mode, c.logMode);
    ModeDecides(c, t, r);
    ModeIsKept(ps, t, r0, i);
    FirstOfTwo(sent.mode, server.logMode);
    ModeDecides(server, t, sent);
    assert ErrAt(ps, t, r0, i) == RemoteOutcome(server, net, t, sent).err;
    assert ErrAt(ps, t, r0, i).None? <==>
      net(t).Carried? && (AllSucceed(server, t, sent) || PreconditionStop(server, t, sent));
  }

  /** A server failure that is not a precondition failure comes back to the FAIL_CLOSE caller, as
      InvalidArgument exactly when the error that stopped the server wraps ERR_INVALID_REQUEST. */
  lemma ServerFailureIsReturned(c: Client, i: nat, server: Client, net: Network, t: nat, r: Request)
    requires IsRemote(c, i, server, net)
    requires AllKeepMode(Slots(c))
    requires FirstSpecified([r.mode, c.logMode]) == FailClose
    requires Passes(Slots(c), t, Admitted(c, r), i) && net(t).Carried?
    requires LogSpec(server, t, Sent(c, i, t, r)).err.Some?
    ensures LogSpec(c, t, r).err.Some?
    ensures var calls := LogSpec(server, t, Sent(c, i, t, r)).calls;
            && calls != [] && calls[|calls| - 1].err.Some?
            && CodeOf(LogSpec(c, t, r).err.value) ==
                 Some(if Is(calls[|calls| - 1].err.value, ERR_INVALID_REQUEST) then InvalidArgument else Internal)
  {
    FirstOfTwo(r.mode, c.logMode);
    AgentIsInvalidArgumentIff(server, t, Sent(c, i, t, r));
    RefusalFails(Slots(c), |c.validators|, |c.mutators|, t, Admitted(c, r), i, Agent(server, t, Sent(c, i, t, r)).status);
  }

  /** A refused remote call that comes first among the failures is what a FAIL_CLOSE run returns. */
  lemma RefusalFails(ps: seq<Processor>, nv: nat, nm: nat, t: nat, r: Request, i: nat, status: Error)
    requires i < |ps| && AllKeepMode(ps) && r.mode == FailClose && status.RpcError?
    requires Passes(ps, t, r, i) && ErrAt(ps, t, r, i) == Some(Wrap("remote log processing failed", status))
    ensures RunSpec(ps, nv, nm, t, r).err.Some?
    ensures CodeOf(RunSpec(ps, nv, nm, t, r).err.value) == Some(status.code)
  {
    var e := Wrap("remote log processing failed", status);
    RemoteErrorIsNoPrecondition(status.code, status.text);
    ModeIsKept(ps, t, r, i + 1);
    RunFailsWith(ps, nv, nm, t, r, i);
    WrapKeepsCode(StageOf(nv, nm, i), e);
    WrapKeepsCode("remote log processing failed", status);
  }

  /** The remote call changes labels, payload and type on success, nothing else and nothing on
      failure; in particular it keeps the mode. */
  lemma RemoteKeepsTheRest(server: Client, net: Network, t: nat, r: Request)
    ensures var o := RemoteOutcome(server, net, t, r);
      && o.req == r.(labels := o.req.labels, payload := o.req.payload, logType := o.req.logType)
      && (o.err.Some? ==> o.req == r)
      && (o.err.None? ==> var done := LogSpec(server, t, r).final;
            o.req.labels == done.labels && o.req.payload == done.payload && o.req.logType == done.logType)
  {
  }
}
