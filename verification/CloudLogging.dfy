/** The Cloud Logging backend: a synchronous or an asynchronous write, by mode. */
module CloudLogging {
  import opened AuditLog
  import opened AuditErrors
  import opened Pipeline
  import opened Remote

  datatype Entry = Entry(
    logger: LogType, payload: Option<Payload>, labels: map<string, string>, operation: Option<string>)

  /** An asynchronous write is queued by the logger; a synchronous one is attempted at once. */
  datatype Write = Sync(entry: Entry) | Async(entry: Entry)

  function EntryOf(loggers: set<LogType>, r: Request): Entry {
    Entry(if r.logType in loggers then r.logType else TypeUnspecified, r.payload, r.labels, r.operation)
  }

  /** The mode a processor built with or without WithDefaultBestEffort stands for. */
  function DefaultMode(bestEffort: bool): LogMode {
    if bestEffort then BestEffort else FailClose
  }

  /** The write of one request, by a processor of that default. */
  function WriteOf(bestEffort: bool, loggers: set<LogType>, r: Request): Write {
    if FirstSpecified([r.mode, DefaultMode(bestEffort)]) == BestEffort then Async(EntryOf(loggers, r))
    else Sync(EntryOf(loggers, r))
  }

  /** The processor as the chain sees it; `fault` is what a synchronous write runs into at a moment. */
  function CloudOutcome(bestEffort: bool, loggers: set<LogType>, fault: Option<Error>, r: Request): Outcome {
    Outcome(r, if fault.None? || WriteOf(bestEffort, loggers, r).Async? then None
               else Some(Wrap("synchronous write to Cloud logging failed", fault.value)))
  }

  class Processor {
    const bestEffort: bool
    const loggers: set<LogType>   // the log types that have a logger
    var writes: seq<Write>

    constructor (bestEffort: bool, loggers: set<LogType>)
      ensures this.bestEffort == bestEffort && this.loggers == loggers && writes == []
    {
      this.bestEffort, this.loggers, writes := bestEffort, loggers, [];
    }

    /** `fault` is what a synchronous write runs into, if anything. The request is only read. */
    method Process(logReq: RequestRef, fault: Option<Error>) returns (err: Option<Error>)
      modifies this
      ensures var async := FirstSpecified([logReq.val.mode, DefaultMode(bestEffort)]) == BestEffort;
        && writes == old(writes) + [if async then Async(EntryOf(loggers, logReq.val))
                                    else Sync(EntryOf(loggers, logReq.val))]
        && (err.None? <==> async || fault.None?)
      ensures writes == old(writes) + [WriteOf(bestEffort, loggers, logReq.val)]
      ensures Outcome(logReq.val, err) == CloudOutcome(bestEffort, loggers, fault, logReq.val)
    {
      FirstOfTwo(logReq.val.mode, DefaultMode(bestEffort));
      var logger := if logReq.val.logType in loggers then logReq.val.logType else TypeUnspecified;
      var entry := Entry(logger, logReq.val.payload, logReq.val.labels, logReq.val.operation);
      var async := bestEffort;
      if logReq.val.mode != ModeUnspecified {
        async := logReq.val.mode == BestEffort;
      }
      if async {
        writes := writes + [Async(entry)];
        return None;
      }
      writes := writes + [Sync(entry)];
      if fault.Some? {
        return Some(Wrap("synchronous write to Cloud logging failed", fault.value));
      }
      return None;
    }
  }

  /** What is written can be read back: the entry is of the request's type, or of the unspecified type
      if that type has no logger, and has its payload, labels and operation. */
  lemma WrittenIsReadable(bestEffort: bool, loggers: set<LogType>, r: Request)
    ensures var e := WriteOf(bestEffort, loggers, r).entry;
      && r == r.(payload := e.payload, labels := e.labels, operation := e.operation)
      && e.logger == if r.logType in loggers then r.logType else TypeUnspecified
    ensures WriteOf(bestEffort, loggers, r).Async? <==>
      r.mode == BestEffort || (r.mode == ModeUnspecified && bestEffort)
  {
    FirstOfTwo(r.mode, DefaultMode(bestEffort));
  }

  /** Requests that differ in type, payload, labels or operation give different writes, as long as
      their types have loggers. */
  lemma WritesDiffer(bestEffort: bool, loggers: set<LogType>, r1: Request, r2: Request)
    requires r1.logType in loggers && r2.logType in loggers
    requires WriteOf(bestEffort, loggers, r1).entry == WriteOf(bestEffort, loggers, r2).entry
    ensures r1 == r2.(mode := r1.mode, justificationToken := r1.justificationToken)
  {
    WrittenIsReadable(bestEffort, loggers, r1);
    WrittenIsReadable(bestEffort, loggers, r2);
  }

  lemma FirstOfFour(a: LogMode, b: LogMode, c: LogMode, d: LogMode)
    ensures FirstSpecified([a, b, c, d]) ==
            FirstSpecified([FirstSpecified([FirstSpecified([a, b]), c]), d])
  {
    FirstOfTwo(a, b);
    FirstOfTwo(c, d);
    FirstOfTwo(FirstSpecified([a, b]), c);
    FirstOfTwo(FirstSpecified([FirstSpecified([a, b]), c]), d);
    assert [a, b, c, d][1..] == [b, c, d] && [b, c, d][1..] == [c, d];
    assert FirstSpecified([b, c, d]) == if b != ModeUnspecified then b else FirstSpecified([c, d]);
  }

  /** Across the request, the client, the server and the Cloud Logging default, the first specified
      mode decides how the server's Cloud Logging backend (slot j there) writes the request that the
      client's remote backend (slot i) sends it. */
  lemma FirstModeWins(c: Client, i: nat, server: Client, j: nat, bestEffort: bool, t: nat, r: Request)
    requires i <= |Slots(c)| && j <= |Slots(server)|
    requires AllKeepMode(Slots(c)) && AllKeepMode(Slots(server))
    ensures var seen := Through(Slots(server), t, Admitted(server, Sent(c, i, t, r)), j);
      FirstSpecified([seen.mode, DefaultMode(bestEffort)]) ==
      FirstSpecified([r.mode, c.logMode, server.logMode, DefaultMode(bestEffort)])
  {
    var sent := Sent(c, i, t, r);
    FirstOfFour(r.mode, c.logMode, server.logMode, DefaultMode(bestEffort));
    FirstOfTwo(r.mode, c.logMode);
    ModeIsKept(Slots(c), t, Admitted(c, r), i);
    FirstOfTwo(sent.mode, server.logMode);
    ModeIsKept(Slots(server), t, Admitted(server, sent), j);
  }
}
