/** audit.Client: validators, then mutators, then backends, run over one shared request. */
module Pipeline {
  import opened AuditLog
  import opened AuditErrors

  datatype Outcome = Outcome(req: Request, err: Option<Error>)

  /** A processor may do anything to the request and may fail. Its first argument is the moment of
      the call, so one processor may behave differently each time it is called. */
  type Processor = (nat, Request) -> Outcome

  datatype Client = Client(
    validators: seq<Processor>, mutators: seq<Processor>, backends: seq<Processor>, logMode: LogMode)

  /** One call of a processor: its slot, the request it was given and what it returned. */
  datatype Call = Call(slot: nat, seen: Request, err: Option<Error>)

  datatype LogResult = LogResult(err: Option<Error>, final: Request, calls: seq<Call>)

  function Slots(c: Client): seq<Processor> {
    c.validators + c.mutators + c.backends
  }

  /** The request as slot k finds it once slots 0..k-1 have all been called. */
  function Through(ps: seq<Processor>, t: nat, r: Request, k: nat): Request
    requires k <= |ps|
  {
    if k == 0 then r else ps[k - 1](t, Through(ps, t, r, k - 1)).req
  }

  function ErrAt(ps: seq<Processor>, t: nat, r: Request, k: nat): Option<Error>
    requires k < |ps|
  {
    ps[k](t, Through(ps, t, r, k)).err
  }

  predicate Passes(ps: seq<Processor>, t: nat, r: Request, n: nat)
    requires n <= |ps|
  {
    forall k :: 0 <= k < n ==> ErrAt(ps, t, r, k).None?
  }

  predicate FailsFirstAt(ps: seq<Processor>, t: nat, r: Request, k: nat) {
    k < |ps| && Passes(ps, t, r, k) && ErrAt(ps, t, r, k).Some?
  }

  /** The first failing slot at or after k; |ps| when there is none. */
  function FirstFailure(ps: seq<Processor>, t: nat, r: Request, k: nat): (n: nat)
    requires k <= |ps|
    ensures k <= n <= |ps|
    ensures forall j :: k <= j < n ==> ErrAt(ps, t, r, j).None?
    ensures n < |ps| ==> ErrAt(ps, t, r, n).Some?
    decreases |ps| - k
  {
    if k == |ps| || ErrAt(ps, t, r, k).Some? then k else FirstFailure(ps, t, r, k + 1)
  }

  function Admitted(c: Client, r: Request): Request {
    if r.mode == ModeUnspecified then r.(mode := c.logMode) else r
  }

  /** nv and nm are the numbers of validators and of mutators. */
  function StageOf(nv: nat, nm: nat, slot: nat): string {
    if slot < nv then "failed to execute validator"
    else if slot < nv + nm then "failed to execute mutator"
    else "failed to execute backend"
  }

  /** What a failure becomes, in the mode the request has when the failing processor returns. */
  function HandleReturn(context: string, e: Error, mode: LogMode): Option<Error> {
    if Is(e, ERR_PRECONDITION_FAILED) then None
    else if ShouldFailClose(mode) then Some(Wrap(context, e))
    else None
  }

  /** One run of a list of processors, without loops: slots up to and including the first failure
      are called. */
  function RunSpec(ps: seq<Processor>, nv: nat, nm: nat, t: nat, r: Request): LogResult {
    var n := FirstFailure(ps, t, r, 0);
    var called := if n < |ps| then n + 1 else n;
    var final := Through(ps, t, r, called);
    LogResult(
      if n < |ps| then HandleReturn(StageOf(nv, nm, n), ErrAt(ps, t, r, n).value, final.mode) else None,
      final,
      CallsMade(ps, t, r, called))
  }

  function LogSpec(c: Client, t: nat, r: Request): LogResult {
    RunSpec(Slots(c), |c.validators|, |c.mutators|, t, Admitted(c, r))
  }

  function CallsMade(ps: seq<Processor>, t: nat, r: Request, n: nat): seq<Call>
    requires n <= |ps|
  {
    seq(n, k requires 0 <= k < n => Call(k, Through(ps, t, r, k), ErrAt(ps, t, r, k)))
  }

  /** Slots 0..n-1 have been called without a failure, and slot n is next. */
  ghost predicate Reached(ps: seq<Processor>, t: nat, r: Request, n: nat, now: Request, calls: seq<Call>) {
    && n <= |ps|
    && Passes(ps, t, r, n)
    && now == Through(ps, t, r, n)
    && calls == CallsMade(ps, t, r, n)
  }

  lemma RunPasses(ps: seq<Processor>, nv: nat, nm: nat, t: nat, r: Request)
    requires Passes(ps, t, r, |ps|)
    ensures RunSpec(ps, nv, nm, t, r) == LogResult(None, Through(ps, t, r, |ps|), CallsMade(ps, t, r, |ps|))
  {
    var n := FirstFailure(ps, t, r, 0);
  }

  lemma RunStops(ps: seq<Processor>, nv: nat, nm: nat, t: nat, r: Request, k: nat, now: Request, calls: seq<Call>)
    requires k < |ps| && Reached(ps, t, r, k, now, calls) && ps[k](t, now).err.Some?
    ensures var o := ps[k](t, now);
            RunSpec(ps, nv, nm, t, r) == LogResult(
              HandleReturn(StageOf(nv, nm, k), o.err.value, o.req.mode), o.req, calls + [Call(k, now, o.err)])
  {
    var n := FirstFailure(ps, t, r, 0);
    assert ErrAt(ps, t, r, k).Some?;
    assert n == k;
    assert CallsMade(ps, t, r, k + 1) == calls + [Call(k, now, ps[k](t, now).err)];
  }

  // ---- what Log promises ----

  ghost predicate KeepsMode(p: Processor) {
    forall t, r :: p(t, r).req.mode == r.mode
  }

  ghost predicate AllKeepMode(ps: seq<Processor>) {
    forall k :: 0 <= k < |ps| ==> KeepsMode(ps[k])
  }

  /** Some processor of the run reports that the precondition for going on is not met. */
  ghost predicate StoppedByPrecondition(ps: seq<Processor>, t: nat, r: Request) {
    exists k :: FailsFirstAt(ps, t, r, k) && Is(ErrAt(ps, t, r, k).value, ERR_PRECONDITION_FAILED)
  }

  lemma FirstFailureIsUnique(ps: seq<Processor>, t: nat, r: Request, k: nat)
    requires FailsFirstAt(ps, t, r, k)
    ensures k == FirstFailure(ps, t, r, 0)
  {
    var n := FirstFailure(ps, t, r, 0);
    assert n >= k;
  }

  lemma RunNilIff(ps: seq<Processor>, nv: nat, nm: nat, t: nat, r: Request)
    ensures RunSpec(ps, nv, nm, t, r).err.None? <==>
        || Passes(ps, t, r, |ps|)
        || StoppedByPrecondition(ps, t, r)
        || exists k: nat :: FailsFirstAt(ps, t, r, k) && Through(ps, t, r, k + 1).mode != FailClose
  {
    var n := FirstFailure(ps, t, r, 0);
    if n < |ps| {
      assert FailsFirstAt(ps, t, r, n);
      forall k: nat | FailsFirstAt(ps, t, r, k) ensures k == n {
        FirstFailureIsUnique(ps, t, r, k);
      }
    }
  }

  /** Every processor of the run succeeds. */
  ghost predicate AllSucceed(c: Client, t: nat, r: Request) {
    Passes(Slots(c), t, Admitted(c, r), |Slots(c)|)
  }

  ghost predicate PreconditionStop(c: Client, t: nat, r: Request) {
    StoppedByPrecondition(Slots(c), t, Admitted(c, r))
  }

  /** Log is nil exactly when every processor succeeds, or the first error wraps
      ERR_PRECONDITION_FAILED, or the request is not in FAIL_CLOSE mode when that error comes back. */
  lemma LogNilIff(c: Client, t: nat, r: Request)
    ensures var ps, r0 := Slots(c), Admitted(c, r);
      LogSpec(c, t, r).err.None? <==>
        || Passes(ps, t, r0, |ps|)
        || StoppedByPrecondition(ps, t, r0)
        || exists k: nat :: FailsFirstAt(ps, t, r0, k) && Through(ps, t, r0, k + 1).mode != FailClose
  {
    RunNilIff(Slots(c), |c.validators|, |c.mutators|, t, Admitted(c, r));
  }

  /** The first failure decides the error. */
  lemma RunFailsWith(ps: seq<Processor>, nv: nat, nm: nat, t: nat, r: Request, k: nat)
    requires FailsFirstAt(ps, t, r, k)
    ensures RunSpec(ps, nv, nm, t, r).err ==
            HandleReturn(StageOf(nv, nm, k), ErrAt(ps, t, r, k).value, Through(ps, t, r, k + 1).mode)
  {
    FirstFailureIsUnique(ps, t, r, k);
  }

  /** Call k was of slot k, and it got the request as the successful call before it left it. */
  ghost predicate InOrder(ps: seq<Processor>, t: nat, r: Request, calls: seq<Call>, k: nat)
    requires k < |calls| <= |ps|
  {
    && calls[k].slot == k
    && calls[k].err == ps[k](t, calls[k].seen).err
    && if k == 0 then calls[0].seen == r
       else calls[k - 1].err.None? && calls[k].seen == ps[k - 1](t, calls[k - 1].seen).req
  }

  ghost predicate IsPrefixRun(ps: seq<Processor>, t: nat, r: Request, res: LogResult) {
    && |res.calls| <= |ps|
    && (forall k :: 0 <= k < |res.calls| ==> InOrder(ps, t, r, res.calls, k))
    && if res.calls == [] then ps == [] && res.final == r
       else
         var last := |res.calls| - 1;
         && res.final == ps[last](t, res.calls[last].seen).req
         && (last + 1 == |ps| || res.calls[last].err.Some?)
  }

  lemma RunIsAPrefix(ps: seq<Processor>, nv: nat, nm: nat, t: nat, r: Request)
    ensures IsPrefixRun(ps, t, r, RunSpec(ps, nv, nm, t, r))
  {
    var n := FirstFailure(ps, t, r, 0);
    var called := if n < |ps| then n + 1 else n;
    var res := RunSpec(ps, nv, nm, t, r);
    assert |res.calls| == called;
    forall k | 0 <= k < called ensures InOrder(ps, t, r, res.calls, k) {
      assert res.calls[k] == Call(k, Through(ps, t, r, k), ErrAt(ps, t, r, k));
    }
  }

  /** The calls made are slots 0, 1, 2, ... of validators ++ mutators ++ backends, each once; each
      gets what the one before it left; all but the last succeed; and unless the last fails, every
      slot is called. */
  lemma CallsAreAPrefix(c: Client, t: nat, r: Request)
    ensures IsPrefixRun(Slots(c), t, Admitted(c, r), LogSpec(c, t, r))
  {
    RunIsAPrefix(Slots(c), |c.validators|, |c.mutators|, t, Admitted(c, r));
  }

  /** The first call sees the request as given, but for a mode it did not have. */
  lemma FirstCallSees(c: Client, t: nat, r: Request)
    requires LogSpec(c, t, r).calls != []
    ensures var seen := LogSpec(c, t, r).calls[0].seen;
            seen.(mode := r.mode) == r && seen.mode == FirstSpecified([r.mode, c.logMode])
  {
    CallsAreAPrefix(c, t, r);
    FirstOfTwo(r.mode, c.logMode);
    assert InOrder(Slots(c), t, Admitted(c, r), LogSpec(c, t, r).calls, 0);
  }

  /** No backend is called before every validator and every mutator has returned nil. */
  lemma BackendsRunLast(c: Client, t: nat, r: Request)
    requires |LogSpec(c, t, r).calls| > |c.validators| + |c.mutators|
    ensures forall k :: 0 <= k < |c.validators| + |c.mutators| ==> LogSpec(c, t, r).calls[k].err.None?
  {
    CallsAreAPrefix(c, t, r);
    var calls := LogSpec(c, t, r).calls;
    forall k | 0 <= k < |c.validators| + |c.mutators| ensures calls[k].err.None? {
      assert InOrder(Slots(c), t, Admitted(c, r), calls, k + 1);
    }
  }

  /** The client never returns a precondition failure, and what it does return contains exactly the
      sentinels of the error that stopped it. */
  lemma ReturnedSentinels(c: Client, t: nat, r: Request, name: string)
    requires LogSpec(c, t, r).err.Some?
    ensures !Is(LogSpec(c, t, r).err.value, ERR_PRECONDITION_FAILED)
    ensures var calls := LogSpec(c, t, r).calls;
            && calls != [] && calls[|calls| - 1].err.Some?
            && (Is(LogSpec(c, t, r).err.value, Sentinel(name)) <==> Is(calls[|calls| - 1].err.value, Sentinel(name)))
  {
    var ps, r0 := Slots(c), Admitted(c, r);
    var n := FirstFailure(ps, t, r0, 0);
    var context := StageOf(|c.validators|, |c.mutators|, n);
    WrapKeepsSentinels(context, ErrAt(ps, t, r0, n).value, ERR_PRECONDITION_FAILED.name);
    WrapKeepsSentinels(context, ErrAt(ps, t, r0, n).value, name);
  }

  lemma {:induction false} ModeIsKept(ps: seq<Processor>, t: nat, r: Request, k: nat)
    requires k <= |ps| && AllKeepMode(ps)
    ensures Through(ps, t, r, k).mode == r.mode
  {
    if k > 0 {
      ModeIsKept(ps, t, r, k - 1);
      assert KeepsMode(ps[k - 1]);
    }
  }

  lemma FirstOfTwo(a: LogMode, b: LogMode)
    ensures FirstSpecified([a, b]) == if a != ModeUnspecified then a else b
  {
    assert [a, b][1..] == [b];
    assert FirstSpecified([b]) == b by {
      assert [b][1..] == [];
    }
  }

  /** When no processor changes the mode, the request's own mode wins over the client's: in FAIL_CLOSE
      nothing but success or a precondition gives nil, in any other mode nothing gives an error. */
  lemma ModeDecides(c: Client, t: nat, r: Request)
    requires AllKeepMode(Slots(c))
    ensures LogSpec(c, t, r).final.mode == FirstSpecified([r.mode, c.logMode])
    ensures FirstSpecified([r.mode, c.logMode]) != FailClose ==> LogSpec(c, t, r).err.None?
    ensures FirstSpecified([r.mode, c.logMode]) == FailClose ==>
      (LogSpec(c, t, r).err.None? <==>
        Passes(Slots(c), t, Admitted(c, r), |Slots(c)|) || StoppedByPrecondition(Slots(c), t, Admitted(c, r)))
  {
    var r0 := Admitted(c, r);
    FirstOfTwo(r.mode, c.logMode);
    RunMode(Slots(c), |c.validators|, |c.mutators|, t, r0);
  }

  lemma RunMode(ps: seq<Processor>, nv: nat, nm: nat, t: nat, r: Request)
    requires AllKeepMode(ps)
    ensures RunSpec(ps, nv, nm, t, r).final.mode == r.mode
    ensures r.mode != FailClose ==> RunSpec(ps, nv, nm, t, r).err.None?
    ensures r.mode == FailClose ==>
      (RunSpec(ps, nv, nm, t, r).err.None? <==> Passes(ps, t, r, |ps|) || StoppedByPrecondition(ps, t, r))
  {
    var n := FirstFailure(ps, t, r, 0);
    ModeIsKept(ps, t, r, if n < |ps| then n + 1 else n);
    RunNilIff(ps, nv, nm, t, r);
    forall k: nat | FailsFirstAt(ps, t, r, k) ensures k == n {
      FirstFailureIsUnique(ps, t, r, k);
    }
  }

  // ---- the client object ----

  /** An option of NewClient; `BrokenOption` is one whose own construction failed. */
  datatype ClientOption =
    | WithValidator(p: Processor)
    | WithMutator(p: Processor)
    | WithBackend(p: Processor)
    | WithLogMode(mode: LogMode)
    | BrokenOption(err: Error)

  function ValidatorsOf(opts: seq<ClientOption>): seq<Processor> {
    if opts == [] then []
    else ValidatorsOf(opts[..|opts| - 1]) + if opts[|opts| - 1].WithValidator? then [opts[|opts| - 1].p] else []
  }

  function MutatorsOf(opts: seq<ClientOption>): seq<Processor> {
    if opts == [] then []
    else MutatorsOf(opts[..|opts| - 1]) + if opts[|opts| - 1].WithMutator? then [opts[|opts| - 1].p] else []
  }

  function BackendsOf(opts: seq<ClientOption>): seq<Processor> {
    if opts == [] then []
    else BackendsOf(opts[..|opts| - 1]) + if opts[|opts| - 1].WithBackend? then [opts[|opts| - 1].p] else []
  }

  /** The last mode an option sets, or else the given one. */
  function ModeOf(opts: seq<ClientOption>, unset: LogMode): LogMode {
    if opts == [] then unset
    else if opts[|opts| - 1].WithLogMode? then opts[|opts| - 1].mode
    else ModeOf(opts[..|opts| - 1], unset)
  }

  function Configured(c: Client, opts: seq<ClientOption>): Client {
    Client(c.validators + ValidatorsOf(opts), c.mutators + MutatorsOf(opts), c.backends + BackendsOf(opts),
           ModeOf(opts, c.logMode))
  }

  lemma ConfiguredSnoc(c: Client, opts: seq<ClientOption>, o: ClientOption)
    ensures Configured(Configured(c, opts), [o]) == Configured(c, opts + [o])
  {
    ConfiguredOne(Configured(c, opts), o);
    assert (opts + [o])[..|opts|] == opts;
    var all := Configured(c, opts + [o]);
    ConfiguredOne(c, o);
    assert all.validators == c.validators + ValidatorsOf(opts) + if o.WithValidator? then [o.p] else [];
    assert all.mutators == c.mutators + MutatorsOf(opts) + if o.WithMutator? then [o.p] else [];
    assert all.backends == c.backends + BackendsOf(opts) + if o.WithBackend? then [o.p] else [];
  }

  /** A single option appends to the list it names, or replaces the mode. */
  lemma ConfiguredOne(c: Client, o: ClientOption)
    ensures Configured(c, [o]) == Client(
      c.validators + if o.WithValidator? then [o.p] else [],
      c.mutators + if o.WithMutator? then [o.p] else [],
      c.backends + if o.WithBackend? then [o.p] else [],
      if o.WithLogMode? then o.mode else c.logMode)
  {
    var none: seq<ClientOption> := [];
    assert [o][..|[o]| - 1] == none;
    assert ValidatorsOf([o]) == if o.WithValidator? then [o.p] else [];
    assert MutatorsOf([o]) == if o.WithMutator? then [o.p] else [];
    assert BackendsOf([o]) == if o.WithBackend? then [o.p] else [];
    assert ModeOf([o], c.logMode) == if o.WithLogMode? then o.mode else ModeOf(none, c.logMode);
  }

  /** The list stands in the slots from lo on. */
  ghost predicate Holds(all: seq<Processor>, lo: nat, ps: seq<Processor>) {
    lo + |ps| <= |all| && forall k :: 0 <= k < |ps| ==> ps[k] == all[lo + k]
  }

  lemma SlotsHold(c: Client)
    ensures Holds(Slots(c), 0, c.validators)
    ensures Holds(Slots(c), |c.validators|, c.mutators)
    ensures Holds(Slots(c), |c.validators| + |c.mutators|, c.backends)
  {
  }

  class AuditClient {
    var validators: seq<Processor>
    var mutators: seq<Processor>
    var backends: seq<Processor>
    var logMode: LogMode

    function View(): Client
      reads this
    {
      Client(validators, mutators, backends, logMode)
    }

    /** The client before any option: one default validator, and the zero value elsewhere. */
    constructor (requestValidator: Processor)
      ensures View() == Client([requestValidator], [], [], ModeUnspecified)
    {
      validators, mutators, backends, logMode := [requestValidator], [], [], ModeUnspecified;
    }

    method Apply(o: ClientOption) returns (err: Option<Error>)
      modifies this
      ensures err == if o.BrokenOption? then Some(o.err) else None
      ensures View() == Configured(old(View()), [o])
    {
      ConfiguredOne(View(), o);
      err := None;
      match o
      case WithValidator(p) => validators := validators + [p];
      case WithMutator(p) => mutators := mutators + [p];
      case WithBackend(p) => backends := backends + [p];
      case WithLogMode(mode) => logMode := mode;
      case BrokenOption(e) => err := Some(e);
    }

    /** NewClient's loop: each list grows in the order of its options, up to the first that fails. */
    method ApplyAll(opts: seq<ClientOption>) returns (err: Option<Error>)
      modifies this
      ensures err.None? <==> forall i :: 0 <= i < |opts| ==> !opts[i].BrokenOption?
      ensures err.None? ==> View() == Configured(old(View()), opts)
    {
      for i := 0 to |opts|
        invariant forall j :: 0 <= j < i ==> !opts[j].BrokenOption?
        invariant View() == Configured(old(View()), opts[..i])
      {
        assert opts[..i + 1] == opts[..i] + [opts[i]];
        ConfiguredSnoc(old(View()), opts[..i], opts[i]);
        err := Apply(opts[i]);
        if err.Some? {
          return Some(Wrap("failed to apply client options", err.value));
        }
      }
      assert opts[..|opts|] == opts;
      err := None;
    }

    /** One of the three loops of Client.Log, over the slots [lo, lo + |ps|) of all of them. */
    method RunStage(context: string, ps: seq<Processor>, t: nat, logReq: RequestRef, lo: nat, before: seq<Call>,
                    ghost all: seq<Processor>, ghost nv: nat, ghost nm: nat, ghost r: Request)
      returns (stopped: bool, err: Option<Error>, calls: seq<Call>)
      requires Holds(all, lo, ps) && forall k: nat :: lo <= k < lo + |ps| ==> StageOf(nv, nm, k) == context
      requires Reached(all, t, r, lo, logReq.val, before)
      modifies logReq
      ensures stopped ==> LogResult(err, logReq.val, calls) == RunSpec(all, nv, nm, t, r)
      ensures !stopped ==> Reached(all, t, r, lo + |ps|, logReq.val, calls)
    {
      stopped, err, calls := false, None, before;
      for i := 0 to |ps|
        invariant Reached(all, t, r, lo + i, logReq.val, calls)
      {
        var o := ps[i](t, logReq.val);
        ghost var now, sofar := logReq.val, calls;
        calls := calls + [Call(lo + i, logReq.val, o.err)];
        logReq.val := o.req;
        if o.err.Some? {
          RunStops(all, nv, nm, t, r, lo + i, now, sofar);
          return true, HandleReturn(context, o.err.value, logReq.val.mode), calls;
        }
      }
    }

    method RunStages(vs: seq<Processor>, ms: seq<Processor>, bs: seq<Processor>, t: nat, logReq: RequestRef,
                     ghost all: seq<Processor>)
      returns (err: Option<Error>, calls: seq<Call>)
      requires |all| == |vs| + |ms| + |bs|
      requires Holds(all, 0, vs) && Holds(all, |vs|, ms) && Holds(all, |vs| + |ms|, bs)
      modifies logReq
      ensures LogResult(err, logReq.val, calls) == RunSpec(all, |vs|, |ms|, t, old(logReq.val))
    {
      ghost var nv, nm, r := |vs|, |ms|, logReq.val;
      var stopped;
      stopped, err, calls := RunStage("failed to execute validator", vs, t, logReq, 0, [], all, nv, nm, r);
      if stopped { return; }
      stopped, err, calls := RunStage("failed to execute mutator", ms, t, logReq, |vs|, calls, all, nv, nm, r);
      if stopped { return; }
      stopped, err, calls := RunStage("failed to execute backend", bs, t, logReq, |vs| + |ms|, calls, all, nv, nm, r);
      if stopped { return; }
      RunPasses(all, nv, nm, t, r);
      err := None;
    }

    /** Runs the client's processors in order on the request, in place. */
    method Log(t: nat, logReq: RequestRef) returns (err: Option<Error>, calls: seq<Call>)
      modifies logReq
      ensures LogResult(err, logReq.val, calls) == LogSpec(View(), t, old(logReq.val))
    {
      SlotsHold(View());
      if logReq.val.mode == ModeUnspecified {
        logReq.val := logReq.val.(mode := logMode);
      }
      err, calls := RunStages(validators, mutators, backends, t, logReq, Slots(View()));
    }
  }
}
