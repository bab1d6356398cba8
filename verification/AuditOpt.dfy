/** Building a client from a configuration, and what its chain guarantees to the backends. */
module AuditOpt {
  import opened AuditLog
  import opened AuditErrors
  import opened Pipeline
  import opened Processors
  import C = Config
  import L = CloudLogging

  /** What the surroundings provide: the runtime lookup (a resource, nothing, or an error), regular
      expressions, the JVS client, the two backends' processors, and the errors of building them. */
  datatype Environment = Environment(
    runtime: Option<Value>,
    runtimeError: Option<Error>,
    compiles: string -> bool,
    matches: Matcher,
    validate: JwtValidator,
    remote: Processor,
    cloudLogging: bool -> Processor,    // given whether best effort is its default
    remoteError: Option<Error>,
    cloudLoggingError: Option<Error>,
    justificationError: Option<Error>)

  function RequestValidatorP(): Processor {
    (t: nat, r: Request) => RequestValidation(r)
  }

  function FilterP(env: Environment, includes: seq<string>, excludes: seq<string>): Processor {
    (t: nat, r: Request) => PrincipalFilter(env.matches, includes, excludes, r)
  }

  function RuntimeP(env: Environment): Processor {
    (t: nat, r: Request) => RuntimeInfo(env.runtime, r)
  }

  function LabelsP(defaults: map<string, string>): Processor {
    (t: nat, r: Request) => Labelled(defaults, r)
  }

  function JustificationP(env: Environment): Processor {
    (t: nat, r: Request) => Justified(env.validate, t, r)
  }

  function Patterns(pattern: string): seq<string> {
    if pattern == "" then [] else [pattern]
  }

  function FilterOf(s: C.Settings): (seq<string>, seq<string>) {
    if s.condition.None? then ([], [])
    else (Patterns(s.condition.value.principalInclude), Patterns(s.condition.value.principalExclude))
  }

  predicate Compiles(s: C.Settings, env: Environment) {
    && (forall p :: p in FilterOf(s).0 ==> env.compiles(p))
    && (forall p :: p in FilterOf(s).1 ==> env.compiles(p))
  }

  /** Every processor that the configuration asks for can be built. */
  predicate Builds(s: C.Settings, env: Environment)
    requires s.backend.Some?
  {
    && (s.backend.value.remote.Some? ==> env.remoteError.None?)
    && (s.backend.value.cloudLogging.Some? ==> env.cloudLoggingError.None?)
    && (JustificationEnabled(s) ==> env.justificationError.None?)
  }

  function CloudP(s: C.Settings, env: Environment): Processor {
    env.cloudLogging(C.GetLogMode(s.logMode) == BestEffort)
  }

  predicate JustificationEnabled(s: C.Settings) {
    s.justification.Some? && s.justification.value.enabled
  }

  /** The client that a configuration stands for. */
  function ClientOf(s: C.Settings, env: Environment): Client
    requires s.backend.Some?
  {
    Client(
      [RequestValidatorP()] +
        (if s.condition.Some? then [FilterP(env, FilterOf(s).0, FilterOf(s).1)] else []),
      [RuntimeP(env), LabelsP(s.labels)] + (if JustificationEnabled(s) then [JustificationP(env)] else []),
      (if s.backend.value.remote.Some? then [env.remote] else []) +
        (if s.backend.value.cloudLogging.Some? then [CloudP(s, env)] else []),
      C.GetLogMode(s.logMode))
  }

  // ---- the options, in the order they are gathered ----

  function FilterOptions(s: C.Settings, env: Environment): seq<ClientOption> {
    if s.condition.None? then [] else [WithValidator(FilterP(env, FilterOf(s).0, FilterOf(s).1))]
  }

  function BackendOptions(s: C.Settings, env: Environment): seq<ClientOption>
    requires s.backend.Some?
  {
    (if s.backend.value.remote.Some? then [WithBackend(env.remote)] else []) +
    (if s.backend.value.cloudLogging.Some? then [WithBackend(CloudP(s, env))] else [])
  }

  function JustificationOptions(s: C.Settings, env: Environment): seq<ClientOption> {
    if JustificationEnabled(s) then [WithMutator(JustificationP(env))] else []
  }

  function OptionsOf(s: C.Settings, env: Environment): seq<ClientOption>
    requires s.backend.Some?
  {
    [WithMutator(RuntimeP(env))] + FilterOptions(s, env) + BackendOptions(s, env)
    + [WithMutator(LabelsP(s.labels))] + [WithLogMode(C.GetLogMode(s.logMode))] + JustificationOptions(s, env)
  }

  lemma {:induction false} ConfiguredTwice(c: Client, a: seq<ClientOption>, b: seq<ClientOption>)
    ensures Configured(Configured(c, a), b) == Configured(c, a + b)
    decreases |b|
  {
    if b == [] {
      assert a + b == a;
      assert Configured(Configured(c, a), b) == Configured(c, a);
    } else {
      var n := |b| - 1;
      assert a + b == (a + b[..n]) + [b[n]] && b == b[..n] + [b[n]];
      ConfiguredTwice(c, a, b[..n]);
      ConfiguredSnoc(Configured(c, a), b[..n], b[n]);
      ConfiguredSnoc(c, a + b[..n], b[n]);
    }
  }

  /** Though mutators, filters, backends and labels are gathered interleaved, each list of the client
      ends up in the order meant: the default validator first, and justification after the labels. */
  lemma OptionsGiveClient(s: C.Settings, env: Environment)
    requires s.backend.Some?
    ensures Configured(Client([RequestValidatorP()], [], [], ModeUnspecified), OptionsOf(s, env)) == ClientOf(s, env)
  {
    var c0 := Client([RequestValidatorP()], [], [], ModeUnspecified);
    var c1 := c0.(mutators := [RuntimeP(env)]);
    var o1 := [WithMutator(RuntimeP(env))];
    ConfiguredOne(c0, o1[0]);
    assert Configured(c0, o1) == c1;

    var c2 := c1.(validators := ClientOf(s, env).validators);
    FilterStep(c1, s, env);
    ConfiguredTwice(c0, o1, FilterOptions(s, env));

    var o3 := o1 + FilterOptions(s, env);
    BackendStep(c2, s, env);
    ConfiguredTwice(c0, o3, BackendOptions(s, env));

    var o4 := o3 + BackendOptions(s, env);
    var c4 := c2.(backends := ClientOf(s, env).backends);
    ConfiguredOne(c4, WithMutator(LabelsP(s.labels)));
    ConfiguredTwice(c0, o4, [WithMutator(LabelsP(s.labels))]);

    var o5 := o4 + [WithMutator(LabelsP(s.labels))];
    var c5 := c4.(mutators := [RuntimeP(env), LabelsP(s.labels)]);
    assert Configured(c0, o5) == c5;
    ConfiguredOne(c5, WithLogMode(C.GetLogMode(s.logMode)));
    ConfiguredTwice(c0, o5, [WithLogMode(C.GetLogMode(s.logMode))]);

    var o6 := o5 + [WithLogMode(C.GetLogMode(s.logMode))];
    var c6 := c5.(logMode := C.GetLogMode(s.logMode));
    assert Configured(c0, o6) == c6;
    JustificationStep(c6, s, env);
    ConfiguredTwice(c0, o6, JustificationOptions(s, env));
  }

  lemma NoOptions(c: Client)
    ensures Configured(c, []) == c
  {
    assert c.validators + [] == c.validators && c.mutators + [] == c.mutators && c.backends + [] == c.backends;
  }

  lemma FilterStep(c: Client, s: C.Settings, env: Environment)
    requires s.backend.Some? && c.validators == [RequestValidatorP()]
    ensures Configured(c, FilterOptions(s, env)) == c.(validators := ClientOf(s, env).validators)
  {
    if s.condition.None? { NoOptions(c); } else { ConfiguredOne(c, FilterOptions(s, env)[0]); }
  }

  lemma BackendStep(c: Client, s: C.Settings, env: Environment)
    requires s.backend.Some? && c.backends == []
    ensures Configured(c, BackendOptions(s, env)) == c.(backends := ClientOf(s, env).backends)
  {
    var a := if s.backend.value.remote.Some? then [WithBackend(env.remote)] else [];
    var b := if s.backend.value.cloudLogging.Some? then [WithBackend(CloudP(s, env))] else [];
    ConfiguredTwice(c, a, b);
    var d := Configured(c, a);
    NoOptions(c);
    NoOptions(d);
    ConfiguredOne(c, WithBackend(env.remote));
    ConfiguredOne(d, WithBackend(CloudP(s, env)));
  }

  lemma JustificationStep(c: Client, s: C.Settings, env: Environment)
    requires s.backend.Some? && c.mutators == [RuntimeP(env), LabelsP(s.labels)]
    ensures Configured(c, JustificationOptions(s, env)) == c.(mutators := ClientOf(s, env).mutators)
  {
    if JustificationEnabled(s) { ConfiguredOne(c, JustificationOptions(s, env)[0]); } else { NoOptions(c); }
  }

  /** clientFromConfig, on a client fresh from NewClient. */
  method ClientFromConfig(c: AuditClient, cfg: C.Config, env: Environment) returns (err: Option<Error>)
    requires c.View() == Client([RequestValidatorP()], [], [], ModeUnspecified)
    modifies c, cfg
    ensures cfg.View() == C.Defaulted(old(cfg.View()))
    ensures err.None? <==> && C.Acceptable(cfg.View()) && Compiles(cfg.View(), env)
                           && Builds(cfg.View(), env) && env.runtimeError.None?
    ensures err.None? ==> c.View() == ClientOf(cfg.View(), env)
  {
    err := cfg.Validate();
    if err.Some? {
      return Some(Wrap("invalid configuration", err.value));
    }
    var s := cfg.View();
    OptionsGiveClient(s, env);
    var opts := [if env.runtimeError.Some? then BrokenOption(env.runtimeError.value) else WithMutator(RuntimeP(env))];
    if !Compiles(s, env) {
      return Some(Plain("failed to create email matcher"));
    }
    opts := opts + FilterOptions(s, env);
    if s.backend.value.remote.Some? && env.remoteError.Some? {
      return env.remoteError;
    }
    if s.backend.value.cloudLogging.Some? && env.cloudLoggingError.Some? {
      return env.cloudLoggingError;
    }
    opts := opts + BackendOptions(s, env);
    opts := opts + [WithMutator(LabelsP(s.labels))];
    opts := opts + [WithLogMode(C.GetLogMode(s.logMode))];
    if JustificationEnabled(s) && env.justificationError.Some? {
      return env.justificationError;
    }
    opts := opts + JustificationOptions(s, env);
    assert forall i :: 0 < i < |opts| ==> !opts[i].BrokenOption?;
    assert opts[0].BrokenOption? <==> env.runtimeError.Some?;
    err := c.ApplyAll(opts);
  }

  // ---- what reaches a backend ----

  /** What the filter of a configuration lets through. */
  predicate Accepted(s: C.Settings, env: Environment, principal: string) {
    FilterPasses(env.matches, FilterOf(s).0, FilterOf(s).1, principal)
  }

  /** The metadata keys the mutators write. */
  function RuntimeEntry(env: Environment): Struct {
    if env.runtime.Some? then map[RUNTIME_KEY := env.runtime.value] else map[]
  }

  function JustificationEntry(claims: Struct): Struct {
    map[JUSTIFICATION_KEY := StructValue(claims)]
  }

  /** The reasons a token gives take the place of those there were, unless it gives none. */
  function ReasonsOf(token: JvsToken, before: Option<seq<string>>): Option<seq<string>> {
    if token.justifications.Some? && token.justifications.value != [] then token.justifications else before
  }

  /** The metadata and the reason as the mutators leave them: the keys they write, over what was there.
      With justification enabled there was a token, it was valid for the principal, and these are its
      claims and its reasons; otherwise the reason is the one there was. */
  ghost predicate PayloadEnriched(s: C.Settings, env: Environment, t: nat, r: Request, p: Payload, q: Payload) {
    if JustificationEnabled(s) then
      var token := env.validate(t, r.justificationToken, PrincipalOf(r));
      && r.justificationToken != "" && token.Some? && token.value.claims.Some? && token.value.justifications.Some?
      && MetadataOf(q) == MetadataOf(p) + RuntimeEntry(env) + JustificationEntry(token.value.claims.value)
      && q.reason == ReasonsOf(token.value, p.reason)
    else MetadataOf(q) == MetadataOf(p) + RuntimeEntry(env) && q.reason == p.reason
  }

  /** What the mutators change, and nothing else. */
  ghost predicate OnlyEnriched(s: C.Settings, env: Environment, t: nat, r: Request, seen: Request)
    requires r.payload.Some?
  {
    && seen.payload.Some?
    && PayloadEnriched(s, env, t, r, r.payload.value, seen.payload.value)
    && seen.labels == s.labels + r.labels
    && SamePayload(r.payload.value, seen.payload.value)
    && seen.(payload := r.payload, labels := r.labels) == r
  }

  /** Everything that holds of a request the first backend sees, given the one Log was called with. */
  ghost predicate FitForBackend(s: C.Settings, env: Environment, t: nat, r: Request, seen: Request) {
    && WellFormed(r.payload)
    && Accepted(s, env, r.payload.value.principalEmail.value)
    && OnlyEnriched(s, env, t, r, seen)
  }

  lemma AfterValidators(s: C.Settings, env: Environment, t: nat, r: Request)
    requires s.backend.Some?
    requires var c := ClientOf(s, env); Passes(Slots(c), t, r, |c.validators|)
    ensures var c := ClientOf(s, env);
      && Through(Slots(c), t, r, |c.validators|) == r
      && WellFormed(r.payload)
      && Accepted(s, env, r.payload.value.principalEmail.value)
  {
    var c := ClientOf(s, env);
    var ps := Slots(c);
    RequestValidationIff(r);
    assert ps[0](t, r) == RequestValidation(r);
    assert Through(ps, t, r, 0) == r;
    assert ErrAt(ps, t, r, 0).None?;
    assert Through(ps, t, r, 1) == r;
    if s.condition.Some? {
      FilterOutcome(env.matches, FilterOf(s).0, FilterOf(s).1, r);
      assert ps[1](t, r) == PrincipalFilter(env.matches, FilterOf(s).0, FilterOf(s).1, r);
      assert ErrAt(ps, t, r, 1).None?;
      assert Through(ps, t, r, 2) == r;
    }
  }

  /** The three mutators, in their order, on a request that has a payload. */
  function Mutated(s: C.Settings, env: Environment, t: nat, r: Request): Outcome {
    var first := RuntimeInfo(env.runtime, r).req;
    var second := Labelled(s.labels, first).req;
    if JustificationEnabled(s) then Justified(env.validate, t, second) else Outcome(second, None)
  }

  lemma AfterMutators(s: C.Settings, env: Environment, t: nat, r: Request)
    requires s.backend.Some?
    requires var c := ClientOf(s, env); Passes(Slots(c), t, r, |c.validators| + |c.mutators|)
    requires var c := ClientOf(s, env); Through(Slots(c), t, r, |c.validators|) == r
    ensures var c := ClientOf(s, env);
      && Through(Slots(c), t, r, |c.validators| + |c.mutators|) == Mutated(s, env, t, r).req
      && Mutated(s, env, t, r).err.None?
  {
    var c := ClientOf(s, env);
    var ps, n := Slots(c), |c.validators|;
    var first := RuntimeInfo(env.runtime, r).req;
    var second := Labelled(s.labels, first).req;
    assert ps[n](t, r) == RuntimeInfo(env.runtime, r);
    assert Through(ps, t, r, n + 1) == first;
    assert ps[n + 1](t, first) == Labelled(s.labels, first);
    assert Through(ps, t, r, n + 2) == second;
    if JustificationEnabled(s) {
      assert ps[n + 2](t, second) == Justified(env.validate, t, second);
      assert ErrAt(ps, t, r, n + 2).None?;
      assert Through(ps, t, r, n + 3) == Mutated(s, env, t, r).req;
    }
  }

  /** Only the metadata and the reason of the payload differ. */
  predicate SamePayload(p: Payload, q: Payload) {
    q.(metadata := p.metadata, reason := p.reason) == p
  }

  lemma RuntimeIsFit(env: Environment, r: Request)
    requires r.payload.Some?
    ensures var seen := RuntimeInfo(env.runtime, r).req;
      && seen.payload.Some? && SamePayload(r.payload.value, seen.payload.value)
      && MetadataOf(seen.payload.value) == MetadataOf(r.payload.value) + RuntimeEntry(env)
      && seen.payload.value.reason == r.payload.value.reason
      && seen.(payload := r.payload) == r
  {
  }

  lemma JustifiedIsFit(env: Environment, t: nat, r: Request)
    requires r.payload.Some? && Justified(env.validate, t, r).err.None?
    ensures var seen := Justified(env.validate, t, r).req;
      var token := env.validate(t, r.justificationToken, PrincipalOf(r));
      && r.justificationToken != "" && token.Some? && token.value.claims.Some? && token.value.justifications.Some?
      && seen.payload.Some? && SamePayload(r.payload.value, seen.payload.value)
      && seen.payload.value.reason == ReasonsOf(token.value, r.payload.value.reason)
      && MetadataOf(seen.payload.value) == MetadataOf(r.payload.value) + JustificationEntry(token.value.claims.value)
      && seen.(payload := r.payload) == r
  {
  }

  lemma MutatedIsFit(s: C.Settings, env: Environment, t: nat, r: Request)
    requires r.payload.Some? && Mutated(s, env, t, r).err.None?
    ensures OnlyEnriched(s, env, t, r, Mutated(s, env, t, r).req)
  {
    var first := RuntimeInfo(env.runtime, r).req;
    RuntimeIsFit(env, r);
    var second := first.(labels := s.labels + first.labels);
    assert PrincipalOf(second) == PrincipalOf(r) && second.justificationToken == r.justificationToken;
    if JustificationEnabled(s) {
      JustifiedIsFit(env, t, second);
    }
  }

  // ---- said of the configuration and the request themselves ----

  /** The documented rule for the patterns of a configuration. */
  predicate ConditionMet(condition: Option<C.RegexCondition>, matches: Matcher, principal: string) {
    condition.None? ||
      var inc, exc := condition.value.principalInclude, condition.value.principalExclude;
      if inc == "" && exc == "" then true
      else if exc == "" then matches(inc, principal)
      else if inc == "" then !matches(exc, principal)
      else matches(inc, principal) || !matches(exc, principal)
  }

  lemma OnePattern(matches: Matcher, pattern: string, principal: string)
    ensures MatchesAny(matches, Patterns(pattern), principal) <==> pattern != "" && matches(pattern, principal)
  {
    if pattern != "" && matches(pattern, principal) {
      assert matches(Patterns(pattern)[0], principal);
    }
  }

  lemma AcceptedIff(s: C.Settings, env: Environment, principal: string)
    ensures Accepted(s, env, principal) <==> ConditionMet(s.condition, env.matches, principal)
  {
    if s.condition.Some? {
      OnePattern(env.matches, s.condition.value.principalInclude, principal);
      OnePattern(env.matches, s.condition.value.principalExclude, principal);
    }
  }

  /** The validators of a configured client pass a request exactly when its payload is well formed and
      its principal meets the condition. */
  lemma ValidatorsPassIff(s: C.Settings, env: Environment, t: nat, r: Request)
    requires s.backend.Some?
    ensures var c := ClientOf(s, env);
      Passes(Slots(c), t, r, |c.validators|) <==>
        WellFormed(r.payload) && ConditionMet(s.condition, env.matches, r.payload.value.principalEmail.value)
  {
    var c := ClientOf(s, env);
    var ps := Slots(c);
    if Passes(ps, t, r, |c.validators|) {
      AfterValidators(s, env, t, r);
      AcceptedIff(s, env, r.payload.value.principalEmail.value);
    } else if WellFormed(r.payload) {
      AcceptedIff(s, env, r.payload.value.principalEmail.value);
      RequestValidationIff(r);
      FilterOutcome(env.matches, FilterOf(s).0, FilterOf(s).1, r);
      assert ps[0](t, r) == RequestValidation(r);
      assert Through(ps, t, r, 0) == r && ErrAt(ps, t, r, 0).None?;
      assert Through(ps, t, r, 1) == r;
      if s.condition.Some? {
        assert ps[1](t, r) == PrincipalFilter(env.matches, FilterOf(s).0, FilterOf(s).1, r);
      }
    }
  }

  /** The configured labels, and over them the request's own. */
  ghost predicate LabelsMerged(configured: map<string, string>, own: map<string, string>, seen: map<string, string>) {
    forall k ::
      && (k in seen <==> k in configured || k in own)
      && (k in seen ==> seen[k] == if k in own then own[k] else configured[k])
  }

  /** The token of a request is valid for its principal, and these are its claims and reasons. */
  ghost predicate HasToken(env: Environment, t: nat, r: Request, claims: Struct, reasons: seq<string>)
    requires r.payload.Some? && r.payload.value.principalEmail.Some?
  {
    && r.justificationToken != ""
    && env.validate(t, r.justificationToken, r.payload.value.principalEmail.value)
         == Some(JvsToken(Some(claims), Some(reasons)))
  }

  /** The metadata before and after: what each mutator writes, and every other key as it was. */
  ghost predicate MetadataKept(env: Environment, claims: Option<Struct>, before: Struct, after: Struct) {
    && (env.runtime.Some? ==> "originating_resource" in after && after["originating_resource"] == env.runtime.value)
    && (claims.Some? ==> "justification" in after && after["justification"] == StructValue(claims.value))
    && forall k :: (k == "originating_resource" && env.runtime.Some?) || (k == "justification" && claims.Some?)
                   || ((k in after <==> k in before) && (k in after ==> after[k] == before[k]))
  }

  /** What the chain has done to r when a backend sees it: labels, metadata, reason and mode, and
      nothing else. */
  ghost predicate Enriched(s: C.Settings, env: Environment, t: nat, r: Request, seen: Request)
    requires r.payload.Some? && r.payload.value.principalEmail.Some?
  {
    && seen.payload.Some?
    && seen.mode == FirstSpecified([r.mode, C.GetLogMode(s.logMode)])
    && seen.(payload := r.payload, labels := r.labels, mode := r.mode) == r
    && LabelsMerged(s.labels, r.labels, seen.labels)
    && var p, q := r.payload.value, seen.payload.value;
       && q.(metadata := p.metadata, reason := p.reason) == p
       && if s.justification.Some? && s.justification.value.enabled then
            exists claims, reasons ::
              && HasToken(env, t, r, claims, reasons)
              && MetadataKept(env, Some(claims), MetadataOf(p), MetadataOf(q))
              && q.reason == if reasons == [] then p.reason else Some(reasons)
          else MetadataKept(env, None, MetadataOf(p), MetadataOf(q)) && q.reason == p.reason
  }

  lemma EnrichedFrom(s: C.Settings, env: Environment, t: nat, r: Request, c: Client, seen: Request)
    requires c.logMode == C.GetLogMode(s.logMode) && WellFormed(r.payload)
    requires OnlyEnriched(s, env, t, Admitted(c, r), seen)
    ensures Enriched(s, env, t, r, seen)
  {
    FirstOfTwo(r.mode, c.logMode);
    var p, q := r.payload.value, seen.payload.value;
    if JustificationEnabled(s) {
      var token := env.validate(t, r.justificationToken, PrincipalOf(r)).value;
      assert HasToken(env, t, r, token.claims.value, token.justifications.value);
      assert MetadataKept(env, Some(token.claims.value), MetadataOf(p), MetadataOf(q));
    }
  }

  /** First-backend invariant: for a client built from any valid configuration, every request that
      reaches the first backend passed payload validation and the configured condition; carries the
      configured labels under its own; has the runtime and, if enabled, the justification in its
      metadata and every other key as it was; has the reason it had, or, if justification is enabled,
      the reasons of its token; and is otherwise untouched, but for its mode, which is its own or else
      the configured one. */
  lemma FirstBackendInvariant(s: C.Settings, env: Environment, t: nat, r: Request, c: Client, seen: Request)
    requires C.Acceptable(s) && c == ClientOf(s, env)
    requires |LogSpec(c, t, r).calls| > |c.validators| + |c.mutators|
    requires seen == LogSpec(c, t, r).calls[|c.validators| + |c.mutators|].seen
    ensures WellFormed(r.payload)
    ensures ConditionMet(s.condition, env.matches, r.payload.value.principalEmail.value)
    ensures Enriched(s, env, t, r, seen)
  {
    CallsSeen(c, t, r, |c.validators| + |c.mutators|);
    ReachedBackend(s, env, t, Admitted(c, r));
    AcceptedIff(s, env, r.payload.value.principalEmail.value);
    EnrichedFrom(s, env, t, r, c, seen);
  }

  /** Every backend that is configured is in the client, the remote one first, and no other; so a run in
      which every processor succeeds hands the request to each of them. */
  lemma ConfiguredBackends(s: C.Settings, env: Environment, t: nat, r: Request)
    requires s.backend.Some?
    ensures var c, b := ClientOf(s, env), s.backend.value;
      var n := |c.validators| + |c.mutators|;
      && |c.backends| == (if b.remote.Some? then 1 else 0) + (if b.cloudLogging.Some? then 1 else 0)
      && (b.remote.Some? ==> Slots(c)[n] == env.remote)
      && (b.cloudLogging.Some? ==> Slots(c)[|Slots(c)| - 1] == env.cloudLogging(C.GetLogMode(s.logMode) == BestEffort))
      && (AllSucceed(c, t, r) ==> |LogSpec(c, t, r).calls| == n + |c.backends|)
  {
    var c := ClientOf(s, env);
    RunIsAPrefix(Slots(c), |c.validators|, |c.mutators|, t, Admitted(c, r));
    if AllSucceed(c, t, r) {
      RunPasses(Slots(c), |c.validators|, |c.mutators|, t, Admitted(c, r));
    }
  }

  /** What a client whose one backend is Cloud Logging writes: the labels, metadata and reason as above,
      in the log of the request's type, at once unless the request's mode, or else the configured one,
      is BEST_EFFORT. */
  lemma CloudLoggingWrites(s: C.Settings, env: Environment, t: nat, r: Request, c: Client, seen: Request,
                           loggers: set<LogType>)
    requires C.Acceptable(s) && c == ClientOf(s, env) && s.backend.value.remote.None?
    requires |LogSpec(c, t, r).calls| > |c.validators| + |c.mutators|
    requires seen == LogSpec(c, t, r).calls[|c.validators| + |c.mutators|].seen
    ensures WellFormed(r.payload) && Enriched(s, env, t, r, seen)
    ensures var write := L.WriteOf(C.GetLogMode(s.logMode) == BestEffort, loggers, seen);
      && LabelsMerged(s.labels, r.labels, write.entry.labels)
      && write.entry.payload == seen.payload && write.entry.operation == r.operation
      && (r.logType in loggers ==> write.entry.logger == r.logType)
      && (write.Async? <==> FirstSpecified([r.mode, C.GetLogMode(s.logMode)]) == BestEffort)
  {
    FirstBackendInvariant(s, env, t, r, c, seen);
    L.WrittenIsReadable(C.GetLogMode(s.logMode) == BestEffort, loggers, seen);
    FirstOfTwo(r.mode, C.GetLogMode(s.logMode));
  }

  lemma ReachedBackend(s: C.Settings, env: Environment, t: nat, r: Request)
    requires s.backend.Some?
    requires var c := ClientOf(s, env); Passes(Slots(c), t, r, |c.validators| + |c.mutators|)
    ensures var c := ClientOf(s, env);
      FitForBackend(s, env, t, r, Through(Slots(c), t, r, |c.validators| + |c.mutators|))
  {
    AfterValidators(s, env, t, r);
    AfterMutators(s, env, t, r);
    MutatedIsFit(s, env, t, r);
  }

  lemma CallsSeen(c: Client, t: nat, r: Request, n: nat)
    requires n < |LogSpec(c, t, r).calls|
    ensures n < |Slots(c)| && Passes(Slots(c), t, Admitted(c, r), n)
    ensures LogSpec(c, t, r).calls[n].seen == Through(Slots(c), t, Admitted(c, r), n)
    ensures LogSpec(c, t, r).calls[n].err == Slots(c)[n](t, LogSpec(c, t, r).calls[n].seen).err
  {
    RunSeen(Slots(c), |c.validators|, |c.mutators|, t, Admitted(c, r), n);
  }

  lemma RunSeen(ps: seq<Processor>, nv: nat, nm: nat, t: nat, r: Request, n: nat)
    requires n < |RunSpec(ps, nv, nm, t, r).calls|
    ensures n < |ps| && Passes(ps, t, r, n)
    ensures RunSpec(ps, nv, nm, t, r).calls[n].seen == Through(ps, t, r, n)
    ensures RunSpec(ps, nv, nm, t, r).calls[n].err == ErrAt(ps, t, r, n)
  {
    var first := FirstFailure(ps, t, r, 0);
  }

  /** Only the runtime mutator can dereference a missing payload. */
  lemma OnlyRuntimeDereferences(s: C.Settings, env: Environment, t: nat, k: nat, x: Request)
    requires s.backend.Some?
    requires var c := ClientOf(s, env); k < |c.validators| + |c.mutators|
    ensures Slots(ClientOf(s, env))[k](t, x).err == Some(NIL_DEREFERENCE) ==>
              k == |ClientOf(s, env).validators| && x.payload.None?
  {
    var c := ClientOf(s, env);
    var p := Slots(c)[k];
    if k < |c.validators| {
      assert p == c.validators[k];
      if k == 0 {
        assert p(t, x) == RequestValidation(x);
      } else {
        assert p(t, x) == PrincipalFilter(env.matches, FilterOf(s).0, FilterOf(s).1, x);
      }
    } else {
      assert p == c.mutators[k - |c.validators|];
      if k == |c.validators| {
        assert p(t, x) == RuntimeInfo(env.runtime, x);
      } else if k == |c.validators| + 1 {
        assert p(t, x) == Labelled(s.labels, x);
      } else {
        assert p(t, x) == Justified(env.validate, t, x);
      }
    }
  }

  /** And no validator or mutator of a configured client ever dereferences a missing payload. */
  lemma NoNilDereference(s: C.Settings, env: Environment, t: nat, r: Request, k: nat)
    requires C.Acceptable(s)
    requires var c := ClientOf(s, env); k < |LogSpec(c, t, r).calls| && k < |c.validators| + |c.mutators|
    ensures LogSpec(ClientOf(s, env), t, r).calls[k].err != Some(NIL_DEREFERENCE)
  {
    var c := ClientOf(s, env);
    CallsSeen(c, t, r, k);
    OnlyRuntimeDereferences(s, env, t, k, LogSpec(c, t, r).calls[k].seen);
    if k == |c.validators| {
      AfterValidators(s, env, t, Admitted(c, r));
    }
  }
}
