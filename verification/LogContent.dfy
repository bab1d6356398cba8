/** What the requests handed to the client hold, over whole streams: which messages, in which field. */
module LogContent {
  import opened AuditLog
  import opened JsonStruct
  import opened StreamProtocol
  import opened GoStream
  import opened GoStreamSafety
  import opened GoStreamTrace
  import opened JavaStream
  import opened JavaStreamTrace
  import opened Rules
  import opened StreamEntry

  /** The struct in a field, read back. */
  function FieldJson(field: Option<Struct>): seq<Json> {
    match field case Some(fields) => [JsonOf(StructValue(fields))] case None => []
  }

  /** What the request fields, and the response fields, of some requests say, in their order. */
  function RequestFields(rs: seq<Request>): seq<Json> {
    if rs == [] then []
    else
      var r := rs[|rs| - 1];
      RequestFields(rs[..|rs| - 1]) + if r.payload.Some? then FieldJson(r.payload.value.request) else []
  }

  function ResponseFields(rs: seq<Request>): seq<Json> {
    if rs == [] then []
    else
      var r := rs[|rs| - 1];
      ResponseFields(rs[..|rs| - 1]) + if r.payload.Some? then FieldJson(r.payload.value.response) else []
  }

  /** What some messages say. */
  function Jsons(ms: seq<Msg>): seq<Json> {
    if ms == [] then []
    else Jsons(ms[..|ms| - 1]) + if ms[|ms| - 1].json.Some? then [Shown(ms[|ms| - 1])] else []
  }

  lemma {:induction false} JsonsAppend(a: seq<Msg>, b: seq<Msg>)
    ensures Jsons(a + b) == Jsons(a) + Jsons(b)
    decreases |b|
  {
    if b == [] {
      assert a + b == a;
    } else {
      var n := |b| - 1;
      assert (a + b)[..|a + b| - 1] == a + b[..n];
      JsonsAppend(a, b[..n]);
    }
  }

  lemma JsonsOfOption(o: Option<Msg>)
    ensures Jsons(OptSeq(o)) == if o.Some? && o.value.json.Some? then [Shown(o.value)] else []
  {
    if o.Some? {
      assert OptSeq(o)[..0] == [];
    }
  }

  ghost predicate AllCarry(entries: seq<Entry>, rs: seq<Request>) {
    |entries| == |rs| && forall k :: 0 <= k < |rs| ==> Clean(entries[k].base) && Carries(rs[k], entries[k])
  }

  /** Requests that carry entries on clean baselines say what the entries hold. */
  lemma {:induction false} FieldsOfEntries(entries: seq<Entry>, rs: seq<Request>)
    requires AllCarry(entries, rs)
    ensures RequestFields(rs) == Jsons(Requests(entries)) && ResponseFields(rs) == Jsons(Responses(entries))
    decreases |rs|
  {
    if rs != [] {
      var n := |rs| - 1;
      FieldsOfEntries(entries[..n], rs[..n]);
      JsonsAppend(Requests(entries[..n]), OptSeq(entries[n].req));
      JsonsAppend(Responses(entries[..n]), OptSeq(entries[n].resp));
      JsonsOfOption(entries[n].req);
      JsonsOfOption(entries[n].resp);
      assert Carries(rs[n], entries[n]);
    }
  }

  /** The handler keeps messages of its own out of the baseline. */
  ghost predicate CleanTrace(trace: seq<Event>) {
    forall i :: 0 <= i < |trace| ==> Clean(trace[i].base)
  }

  lemma {:induction false} PairIsClean(trace: seq<Event>, directive: Directive)
    requires CleanTrace(trace)
    ensures forall k :: 0 <= k < |Pair(trace, directive)| ==> Clean(Pair(trace, directive)[k].base)
    decreases |trace|
  {
    if trace != [] {
      var n := |trace| - 1;
      PairIsClean(trace[..n], directive);
      forall e | e in EntryAt(trace, n, directive) ensures Clean(e.base) {
        assert e.base == trace[n].base;
      }
    }
  }

  /** What a directive keeps out of the pairing. */
  lemma {:induction false} PairLeavesOut(trace: seq<Event>, directive: Directive)
    ensures !ShouldLogReq(directive) ==> Requests(Pair(trace, directive)) == []
    ensures !ShouldLogResp(directive) ==> Responses(Pair(trace, directive)) == []
    decreases |trace|
  {
    if trace != [] {
      PairLeavesOut(trace[..|trace| - 1], directive);
      PairSnoc(trace, directive);
    }
  }

  /** By the text of the directive: the messages of a log are all requests but a pending one, and all
      responses, under AUDIT_REQUEST_AND_RESPONSE; the requests alone under AUDIT_REQUEST_ONLY; and none
      under AUDIT or any other text. */
  ghost predicate SaysByDirective(rs: seq<Request>, trace: seq<Event>, directive: string) {
    && (directive == "AUDIT_REQUEST_AND_RESPONSE" ==>
          RequestFields(rs) + Jsons(OptSeq(Pending(trace))) == Jsons(Receives(trace)) && ResponseFields(rs) == Jsons(Sends(trace)))
    && (directive == "AUDIT_REQUEST_ONLY" ==>
          RequestFields(rs) + Jsons(OptSeq(Pending(trace))) == Jsons(Receives(trace)) && ResponseFields(rs) == [])
    && (directive !in {"AUDIT_REQUEST_AND_RESPONSE", "AUDIT_REQUEST_ONLY"} ==>
          RequestFields(rs) == [] && ResponseFields(rs) == [])
  }

  /** What holds of the entries of a pairing holds of the requests that carry them. */
  lemma PairingSays(entries: seq<Entry>, rs: seq<Request>, trace: seq<Event>, directive: string)
    requires AllCarry(entries, rs)
    requires Requests(entries) == Requests(Pair(trace, DirectiveOf(directive)))
    requires Responses(entries) == Responses(Pair(trace, DirectiveOf(directive)))
    ensures SaysByDirective(rs, trace, directive)
  {
    var d := DirectiveOf(directive);
    FieldsOfEntries(entries, rs);
    PairLeavesOut(trace, d);
    if ShouldLogReq(d) {
      PairKeepsRequests(trace, d);
      JsonsAppend(Requests(Pair(trace, d)), OptSeq(Pending(trace)));
    }
    if ShouldLogResp(d) {
      PairKeepsResponses(trace, d);
    }
  }

  // ---- Go ----

  function Givens(log: seq<LogCall>): seq<Request> {
    seq(|log|, i requires 0 <= i < |log| => log[i].given)
  }

  lemma GoCarries(w: Stream, baseline: Request, d: Served, clock: nat -> nat, end: nat)
    requires WellBehaved(d) && AllConvertible(d.trace) && CleanTrace(d.trace) && Clean(d.left)
    ensures var log := WrappedSpec(w, baseline, d, clock, end).log; AllCarry(Entries(log), Givens(log))
  {
    var acts := DriveIsARun(w, baseline, d.trace, clock);
    EveryCallCarries(w, baseline, acts);
    GoLogsThePairing(w, baseline, d.trace, clock);
    PairIsClean(d.trace, w.directive);
    var log := WrappedSpec(w, baseline, d, clock, end).log;
    var early := Drive(w, baseline, d.trace, clock).log;
    forall k | 0 <= k < |log| ensures Clean(log[k].entry.base) && Carries(log[k].given, log[k].entry) {
      if k < |early| {
        assert log[k] == early[k] && early[k].entry == Entries(early)[k];
      } else {
        RenderedCarries(log[k].entry);
      }
    }
  }

  /** The whole log of a Go stream, as the client is given it: by the directive of the rule, the request
      fields read back to the requests received, in order, but for a pending one, and the response
      fields to the responses sent; and each request is its entry's baseline with nothing else changed. */
  lemma GoLogReadsBack(w: Stream, baseline: Request, d: Served, clock: nat -> nat, end: nat, directive: string)
    requires WellBehaved(d) && AllConvertible(d.trace) && CleanTrace(d.trace) && Clean(d.left)
    requires w.directive == DirectiveOf(directive)
    ensures var log := WrappedSpec(w, baseline, d, clock, end).log;
      && SaysByDirective(Givens(log), d.trace, directive)
      && AllCarry(Entries(log), Givens(log))
  {
    var log := WrappedSpec(w, baseline, d, clock, end).log;
    GoCarries(w, baseline, d, clock, end);
    StreamLogsThePairing(w, baseline, d, clock, end);
    FailureAddsNoMessage(Pair(d.trace, w.directive), d);
    PairingSays(Entries(log), Givens(log), d.trace, directive);
  }

  // ---- Java ----

  function JavaGivens(log: seq<Audited>): seq<Request> {
    seq(|log|, i requires 0 <= i < |log| => log[i].given)
  }

  ghost predicate GivensAreRendered(log: seq<Audited>) {
    forall k :: 0 <= k < |log| ==> log[k].given == Rendered(log[k].entry)
  }

  lemma {:induction false} JavaGivenIsRendered(j: Config, builder: Request, trace: seq<Event>)
    requires NothingThrows(j)
    ensures GivensAreRendered(JavaDrive(j, builder, trace).log)
    decreases |trace|
  {
    if trace != [] {
      var n := |trace| - 1;
      JavaGivenIsRendered(j, builder, trace[..n]);
      JavaLogsItsPairing(j, builder, trace[..n]);
      var s := JavaDrive(j, builder, trace[..n]).(builder := trace[n].base);
      match trace[n]
      case Recv(m, _) => DrainOne(j, s.(arrived := s.arrived + [m]));
      case Send(_, _) =>
    }
  }

  /** The messages of the Java pairing are those of the declared one, under every directive. */
  lemma {:induction false} JavaPairHolds(trace: seq<Event>, directive: Directive)
    ensures Requests(JavaPair(trace, directive)) == Requests(Pair(trace, directive))
    ensures Responses(JavaPair(trace, directive)) == Responses(Pair(trace, directive))
    decreases |trace|
  {
    if trace != [] {
      JavaPairHolds(trace[..|trace| - 1], directive);
      PairSnoc(trace, directive);
      JavaPairSnoc(trace, directive);
    }
  }

  ghost predicate Presentable(e: Entry) {
    Clean(e.base) && (e.req.Some? ==> Convertible(e.req.value)) && (e.resp.Some? ==> Convertible(e.resp.value))
  }

  lemma {:induction false} JavaPairIsPresentable(trace: seq<Event>, directive: Directive)
    requires CleanTrace(trace) && AllConvertible(trace)
    ensures forall e :: e in JavaPair(trace, directive) ==> Presentable(e)
    decreases |trace|
  {
    if trace != [] {
      var n := |trace| - 1;
      JavaPairIsPresentable(trace[..n], directive);
      forall e | e in JavaEntryAt(trace, n, directive) ensures Presentable(e) {
        assert e.base == trace[n].base;
      }
    }
  }

  lemma JavaPairSnoc(trace: seq<Event>, directive: Directive)
    requires trace != []
    ensures var n := |trace| - 1;
      var before, es := JavaPair(trace[..n], directive), JavaEntryAt(trace, n, directive);
      && |es| <= 1
      && Requests(JavaPair(trace, directive)) == Requests(before) + (if es == [] then [] else OptSeq(es[0].req))
      && Responses(JavaPair(trace, directive)) == Responses(before) + (if es == [] then [] else OptSeq(es[0].resp))
  {
    var n := |trace| - 1;
    var before, es := JavaPair(trace[..n], directive), JavaEntryAt(trace, n, directive);
    if es == [] {
      assert before + es == before;
    } else {
      assert es == [es[0]];
      RequestsSnoc(before, es[0]);
    }
  }

  /** The same of Java, for a trace in which nothing throws. */
  lemma JavaLogReadsBack(j: Config, builder: Request, trace: seq<Event>, directive: string)
    requires NothingThrows(j) && AllConvertible(trace) && CleanTrace(trace)
    requires j.directive == DirectiveOf(directive)
    ensures var log := JavaDrive(j, builder, trace).log;
      && SaysByDirective(JavaGivens(log), trace, directive)
      && AllCarry(JavaEntries(log), JavaGivens(log))
  {
    var log := JavaDrive(j, builder, trace).log;
    JavaLogsItsPairing(j, builder, trace);
    JavaGivenIsRendered(j, builder, trace);
    JavaPairHolds(trace, j.directive);
    JavaPairIsPresentable(trace, j.directive);
    forall k | 0 <= k < |log| ensures Clean(log[k].entry.base) && Carries(log[k].given, log[k].entry) {
      assert log[k].entry == JavaEntries(log)[k];
      assert Presentable(JavaEntries(log)[k]);
      RenderedCarries(log[k].entry);
    }
    PairingSays(JavaEntries(log), JavaGivens(log), trace, directive);
  }
}
