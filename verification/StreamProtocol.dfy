/** How the messages of a stream are to be paired in audit log entries: one declarative definition
    for both languages. */
module StreamProtocol {
  import opened AuditLog
  import opened JsonStruct

  /** A message object; `json` is what marshalling it gives, if that works. */
  datatype Msg = Msg(id: nat, json: Option<Json>)

  /** The three directives of an audit rule, and any other text a rule may hold. */
  datatype Directive = Audit | AuditRequestOnly | AuditRequestAndResponse | OtherDirective(text: string)

  predicate ShouldLogReq(directive: Directive) {
    directive == AuditRequestAndResponse || directive == AuditRequestOnly
  }

  predicate ShouldLogResp(directive: Directive) {
    directive == AuditRequestAndResponse
  }

  predicate Convertible(m: Msg) {
    ToProtoStruct(m.json).Some?
  }

  /** What a message reads as once it is a struct: a JSON null becomes an empty object. */
  function Shown(m: Msg): Json
    requires m.json.Some?
  {
    if m.json.value.JNull? then JObject(map[]) else m.json.value
  }

  /** The struct says what the message does. */
  ghost predicate ReadsBack(fields: Struct, m: Msg) {
    m.json.Some? && JsonOf(StructValue(fields)) == Shown(m)
  }

  /** A message converts exactly when it marshals to a JSON object or to null. */
  lemma ConvertibleIff(m: Msg)
    ensures Convertible(m) <==> m.json.Some? && (m.json.value.JObject? || m.json.value.JNull?)
  {
  }

  lemma StructReadsBack(m: Msg)
    requires Convertible(m)
    ensures ReadsBack(ToProtoStruct(m.json).value, m)
  {
    match m.json.value
    case JObject(members) =>
      JsonRoundTrip(JObject(members));
      assert ValueOf(JObject(members)) == StructValue(StructOf(members));
    case JNull =>
  }

  /** A log entry: the baseline as it was when the entry's call was made, and the messages in it. */
  datatype Entry = Entry(base: Request, req: Option<Msg>, resp: Option<Msg>)

  /** The request handed to the client for an entry. */
  function Rendered(e: Entry): Request {
    var r := if e.req.Some? then WithRequest(e.base, ToProtoStruct(e.req.value.json)) else e.base;
    if e.resp.Some? then WithResponse(r, ToProtoStruct(e.resp.value.json)) else r
  }

  /** A request that holds no message. */
  predicate Clean(r: Request) {
    r.payload.Some? && r.payload.value.request == None && r.payload.value.response == None
  }

  /** A request holds the messages of an entry: its request and response fields read back to them, a
      field whose message is absent is the baseline's own, and nothing else of the baseline changes. */
  ghost predicate Carries(given: Request, e: Entry) {
    && e.base.payload.Some? && given.payload.Some?
    && given.(payload := e.base.payload) == e.base
    && var p, q := e.base.payload.value, given.payload.value;
       && q.(request := p.request, response := p.response) == p
       && (if e.req.None? then q.request == p.request else q.request.Some? && ReadsBack(q.request.value, e.req.value))
       && (if e.resp.None? then q.response == p.response else q.response.Some? && ReadsBack(q.response.value, e.resp.value))
  }

  lemma RenderedCarries(e: Entry)
    requires e.base.payload.Some?
    requires (e.req.Some? ==> Convertible(e.req.value)) && (e.resp.Some? ==> Convertible(e.resp.value))
    ensures Carries(Rendered(e), e)
  {
    if e.req.Some? { StructReadsBack(e.req.value); }
    if e.resp.Some? { StructReadsBack(e.resp.value); }
  }

  /** A call the handler makes on the stream, with the baseline as it is at that call. */
  datatype Event = Recv(m: Msg, base: Request) | Send(m: Msg, base: Request)

  /** Event i follows a receive, whose request is still waiting to be logged. */
  predicate FollowsRecv(trace: seq<Event>, i: nat)
    requires i < |trace|
  {
    i > 0 && trace[i - 1].Recv?
  }

  /** What event i adds to the log. A response has one entry, with the request iff the event before it
      was a receive; a receive after a receive logs the earlier request alone. */
  function EntryAt(trace: seq<Event>, i: nat, directive: Directive): seq<Entry>
    requires i < |trace|
  {
    var waiting := if FollowsRecv(trace, i) && ShouldLogReq(directive) then Some(trace[i - 1].m) else None;
    match trace[i]
    case Send(m, base) => [Entry(base, waiting, if ShouldLogResp(directive) then Some(m) else None)]
    case Recv(_, base) => if waiting.Some? then [Entry(base, waiting, None)] else []
  }

  function Pair(trace: seq<Event>, directive: Directive): seq<Entry> {
    if trace == [] then []
    else
      var n := |trace| - 1;
      Pair(trace[..n], directive) + EntryAt(trace, n, directive)
  }

  /** The request that no entry has yet: at most the last event's. */
  function Pending(trace: seq<Event>): Option<Msg> {
    if trace != [] && trace[|trace| - 1].Recv? then Some(trace[|trace| - 1].m) else None
  }

  function Receives(trace: seq<Event>): seq<Msg> {
    if trace == [] then []
    else Receives(trace[..|trace| - 1]) + if trace[|trace| - 1].Recv? then [trace[|trace| - 1].m] else []
  }

  function Sends(trace: seq<Event>): seq<Msg> {
    if trace == [] then []
    else Sends(trace[..|trace| - 1]) + if trace[|trace| - 1].Send? then [trace[|trace| - 1].m] else []
  }

  lemma TakeOneMore<T>(s: seq<T>, i: nat)
    requires i < |s|
    ensures s[..i + 1] == s[..i] + [s[i]]
  {
  }

  lemma SplitAround<T>(s: seq<T>, i: nat)
    requires i < |s|
    ensures s == s[..i] + [s[i]] + s[i + 1..]
  {
  }

  function OptSeq<T>(o: Option<T>): seq<T> {
    match o case Some(x) => [x] case None => []
  }

  function Requests(entries: seq<Entry>): seq<Msg> {
    if entries == [] then []
    else Requests(entries[..|entries| - 1]) + OptSeq(entries[|entries| - 1].req)
  }

  function Responses(entries: seq<Entry>): seq<Msg> {
    if entries == [] then []
    else Responses(entries[..|entries| - 1]) + OptSeq(entries[|entries| - 1].resp)
  }

  lemma RequestsSnoc(entries: seq<Entry>, e: Entry)
    ensures Requests(entries + [e]) == Requests(entries) + OptSeq(e.req)
    ensures Responses(entries + [e]) == Responses(entries) + OptSeq(e.resp)
  {
    assert (entries + [e])[..|entries|] == entries;
  }

  /** The last event adds at most one entry. */
  lemma PairSnoc(trace: seq<Event>, directive: Directive)
    requires trace != []
    ensures var n := |trace| - 1;
      var before, es := Pair(trace[..n], directive), EntryAt(trace, n, directive);
      && |es| <= 1
      && Requests(Pair(trace, directive)) == Requests(before) + (if es == [] then [] else OptSeq(es[0].req))
      && Responses(Pair(trace, directive)) == Responses(before) + (if es == [] then [] else OptSeq(es[0].resp))
  {
    var n := |trace| - 1;
    var before, es := Pair(trace[..n], directive), EntryAt(trace, n, directive);
    if es == [] {
      assert before + es == before;
    } else {
      assert es == [es[0]];
      RequestsSnoc(before, es[0]);
    }
  }

  /** Under a directive that logs requests, the requests in the entries, in order, followed by the
      pending one, are the requests received, in order: none is lost and none is in two entries. */
  lemma {:induction false} PairKeepsRequests(trace: seq<Event>, directive: Directive)
    requires ShouldLogReq(directive)
    ensures Requests(Pair(trace, directive)) + OptSeq(Pending(trace)) == Receives(trace)
    decreases |trace|
  {
    if trace != [] {
      var n := |trace| - 1;
      PairKeepsRequests(trace[..n], directive);
      PairSnoc(trace, directive);
      assert OptSeq(Pending(trace[..n])) == if FollowsRecv(trace, n) then [trace[n - 1].m] else [];
      assert Requests(Pair(trace, directive)) == Receives(trace[..n]);
    }
  }

  /** Under AUDIT_REQUEST_AND_RESPONSE, the responses in the entries are the responses sent, in order. */
  lemma {:induction false} PairKeepsResponses(trace: seq<Event>, directive: Directive)
    requires ShouldLogResp(directive)
    ensures Responses(Pair(trace, directive)) == Sends(trace)
    decreases |trace|
  {
    if trace != [] {
      PairKeepsResponses(trace[..|trace| - 1], directive);
      PairSnoc(trace, directive);
    }
  }

  /** The receives that another receive follows at once. */
  function Orphans(trace: seq<Event>): nat {
    if trace == [] then 0
    else
      var n := |trace| - 1;
      Orphans(trace[..n]) + if trace[n].Recv? && FollowsRecv(trace, n) then 1 else 0
  }

  /** One entry per response, whatever the directive, and one per orphaned request when requests are
      logged. */
  lemma {:induction false} PairCounts(trace: seq<Event>, directive: Directive)
    ensures |Pair(trace, directive)| == |Sends(trace)| + if ShouldLogReq(directive) then Orphans(trace) else 0
    decreases |trace|
  {
    if trace != [] {
      PairCounts(trace[..|trace| - 1], directive);
    }
  }

  /** Entries added later never change entries made earlier. */
  lemma {:induction false} PairIsPrefixClosed(a: seq<Event>, b: seq<Event>, directive: Directive)
    ensures Pair(a, directive) <= Pair(a + b, directive)
    decreases |b|
  {
    if b == [] {
      assert a + b == a;
    } else {
      var n := |b| - 1;
      assert (a + b)[..|a + b| - 1] == a + b[..n];
      PairIsPrefixClosed(a, b[..n], directive);
    }
  }
}
