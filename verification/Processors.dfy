/** The processors a configured client runs before its backends. Each has its effect as a function, and
    the object that has that effect on a request in place. */
module Processors {
  import opened AuditLog
  import opened AuditErrors
  import opened Pipeline

  // ---- payload validation ----

  /** strings.Split on one character. */
  function Split(s: string, sep: char): (parts: seq<string>)
    ensures |parts| >= 1
  {
    if s == "" then [""]
    else
      var rest := Split(s[1..], sep);
      if s[0] == sep then [""] + rest else [[s[0]] + rest[0]] + rest[1..]
  }

  function ValidateEmail(email: string): Option<Error> {
    if email == "" then Some(Plain("PrincipalEmail cannot be empty"))
    else
      var parts := Split(email, '@');
      if |parts| != 2 || parts[1] == "" then Some(Plain("PrincipalEmail is malformed")) else None
  }

  /** One @, and something after it. What comes before may be empty. */
  ghost predicate IsEmail(email: string) {
    exists at :: 0 <= at < |email| - 1 && email[at] == '@' && forall i :: 0 <= i < |email| && i != at ==> email[i] != '@'
  }

  lemma {:induction false} SplitWithout(s: string, sep: char)
    requires sep !in s
    ensures Split(s, sep) == [s]
  {
    if s != "" {
      SplitWithout(s[1..], sep);
      assert [s[0]] + s[1..] == s;
    }
  }

  lemma {:induction false} SplitAt(a: string, sep: char, b: string)
    requires sep !in a
    ensures Split(a + [sep] + b, sep) == [a] + Split(b, sep)
  {
    var s := a + [sep] + b;
    if a == "" {
      assert s[1..] == b;
    } else {
      assert s[1..] == a[1..] + [sep] + b;
      SplitAt(a[1..], sep, b);
      assert [a[0]] + a[1..] == a;
    }
  }

  lemma FirstOf(s: string, c: char) returns (i: nat)
    requires c in s
    ensures i < |s| && s[i] == c && c !in s[..i]
  {
    i := 0;
    while s[i] != c
      invariant i < |s| && c !in s[..i] && c in s[i..]
      decreases |s| - i
    {
      assert s[..i + 1] == s[..i] + [s[i]];
      i := i + 1;
    }
  }

  /** The two-part split is the same as one @ that is not the last character. */
  lemma EmailIff(email: string)
    ensures ValidateEmail(email).None? <==> IsEmail(email)
  {
    if '@' !in email {
      SplitWithout(email, '@');
    } else {
      var at := FirstOf(email, '@');
      var a, b := email[..at], email[at + 1..];
      assert email == a + ['@'] + b;
      if '@' in b {
        SplitMore(a, '@', b);
        assert exists i :: at < i < |email| && email[i] == '@';
      } else {
        SplitAt(a, '@', b);
        SplitWithout(b, '@');
        assert forall i :: 0 <= i < at ==> email[i] == a[i];
        assert forall i :: at < i < |email| ==> email[i] == b[i - at - 1];
      }
    }
  }

  lemma SplitMore(a: string, sep: char, b: string)
    requires sep !in a && sep in b
    ensures |Split(a + [sep] + b, sep)| > 2
  {
    SplitAt(a, sep, b);
    var i := FirstOf(b, sep);
    assert b == b[..i] + [sep] + b[i + 1..];
    SplitAt(b[..i], sep, b[i + 1..]);
  }

  ghost predicate WellFormed(p: Option<Payload>) {
    && p.Some?
    && p.value.methodName != "" && p.value.serviceName != "" && p.value.resourceName != ""
    && p.value.principalEmail.Some? && IsEmail(p.value.principalEmail.value)
  }

  function NonEmpty(s: string, text: string): Option<Error> {
    if s == "" then Some(Plain(text)) else None
  }

  function ValidateAuditLog(payload: Option<Payload>): Option<Error> {
    match payload
    case None => Some(Plain("audit log payload cannot be nil"))
    case Some(p) =>
      var retErr := Join(None, NonEmpty(p.methodName, "MethodName cannot be empty"));
      var retErr := Join(retErr, NonEmpty(p.serviceName, "ServiceName cannot be empty"));
      var retErr := Join(retErr, NonEmpty(p.resourceName, "ResourceName cannot be empty"));
      Join(retErr, if p.principalEmail.None? then Some(Plain("AuthenticationInfo cannot be nil"))
                   else ValidateEmail(p.principalEmail.value))
  }

  lemma ValidateAuditLogIff(payload: Option<Payload>)
    ensures ValidateAuditLog(payload).None? <==> WellFormed(payload)
  {
    if payload.Some? && payload.value.principalEmail.Some? {
      EmailIff(payload.value.principalEmail.value);
    }
  }

  function RequestValidation(r: Request): Outcome {
    match ValidateAuditLog(r.payload)
    case None => Outcome(r, None)
    case Some(e) =>
      Outcome(r, Some(WrapBoth(ERR_INVALID_REQUEST, Wrap("AuditLogRequest does not have a valid payload", e))))
  }

  lemma RequestValidationIff(r: Request)
    ensures RequestValidation(r).req == r
    ensures RequestValidation(r).err.None? <==> WellFormed(r.payload)
    ensures RequestValidation(r).err.Some? ==> Is(RequestValidation(r).err.value, ERR_INVALID_REQUEST)
  {
    ValidateAuditLogIff(r.payload);
    if RequestValidation(r).err.Some? {
      var e := ValidateAuditLog(r.payload).value;
      WrapBothIs(ERR_INVALID_REQUEST, Wrap("AuditLogRequest does not have a valid payload", e), ERR_INVALID_REQUEST.name);
    }
  }

  // ---- principal filter ----

  /** regexp.MatchString of a pattern on a principal. */
  type Matcher = (string, string) -> bool

  predicate MatchesAny(matches: Matcher, patterns: seq<string>, principal: string) {
    exists i :: 0 <= i < |patterns| && matches(patterns[i], principal)
  }

  /** The documented rule: no filters pass all; an include match passes; otherwise only excludes can
      pass, by not matching. */
  predicate FilterPasses(matches: Matcher, includes: seq<string>, excludes: seq<string>, principal: string) {
    || (includes == [] && excludes == [])
    || MatchesAny(matches, includes, principal)
    || (excludes != [] && !MatchesAny(matches, excludes, principal))
  }

  const NO_AUTHENTICATION := Wrapped("request.Payload.AuthenticationInfo is missing", [ERR_INVALID_REQUEST])
  const NOT_INCLUDED := Wrapped("PrincipalEmail not included", [ERR_PRECONDITION_FAILED])
  const EXCLUDED := Wrapped("PrincipalEmail matches exclude regexp", [ERR_PRECONDITION_FAILED])

  function PrincipalFilter(matches: Matcher, includes: seq<string>, excludes: seq<string>, r: Request): Outcome {
    if includes == [] && excludes == [] then Outcome(r, None)
    else if r.payload.None? || r.payload.value.principalEmail.None? then Outcome(r, Some(NO_AUTHENTICATION))
    else if FilterPasses(matches, includes, excludes, r.payload.value.principalEmail.value) then Outcome(r, None)
    else if excludes == [] then Outcome(r, Some(NOT_INCLUDED))
    else Outcome(r, Some(EXCLUDED))
  }

  class PrincipalEmailMatcher {
    const matches: Matcher
    var includes: seq<string>
    var excludes: seq<string>

    constructor (matches: Matcher)
      ensures this.matches == matches && includes == [] && excludes == []
    {
      this.matches, includes, excludes := matches, [], [];
    }

    /** WithIncludes and WithExcludes on one string each: an empty string adds nothing, and one that
        does not compile is an error. */
    method AddFilters(inc: string, exc: string, compiles: string -> bool) returns (err: Option<Error>)
      modifies this
      ensures err.None? <==> (inc == "" || compiles(inc)) && (exc == "" || compiles(exc))
      ensures includes == old(includes) + (if inc != "" && compiles(inc) then [inc] else [])
      ensures excludes == old(excludes) + (if exc != "" && err.None? then [exc] else [])
    {
      if inc != "" {
        if !compiles(inc) {
          return Some(Plain("failed to compile include string as a regular expression"));
        }
        includes := includes + [inc];
      }
      if exc != "" {
        if !compiles(exc) {
          return Some(Plain("failed to compile exclude string as a regular expression"));
        }
        excludes := excludes + [exc];
      }
      return None;
    }

    method Process(logReq: RequestRef) returns (err: Option<Error>)
      ensures Outcome(logReq.val, err) == PrincipalFilter(matches, includes, excludes, logReq.val)
    {
      if |includes| == 0 && |excludes| == 0 {
        return None;
      }
      if logReq.val.payload.None? || logReq.val.payload.value.principalEmail.None? {
        return Some(NO_AUTHENTICATION);
      }
      var principal := logReq.val.payload.value.principalEmail.value;
      for i := 0 to |includes|
        invariant !MatchesAny(matches, includes[..i], principal)
      {
        assert includes[..i + 1] == includes[..i] + [includes[i]];
        if matches(includes[i], principal) {
          return None;
        }
      }
      assert includes[..|includes|] == includes;
      if |excludes| == 0 {
        return Some(NOT_INCLUDED);
      }
      for i := 0 to |excludes|
        invariant !MatchesAny(matches, excludes[..i], principal)
      {
        assert excludes[..i + 1] == excludes[..i] + [excludes[i]];
        if matches(excludes[i], principal) {
          return Some(EXCLUDED);
        }
      }
      assert excludes[..|excludes|] == excludes;
      return None;
    }
  }

  /** A request that the filter drops is dropped as a precondition failure, so Log gives nil for it in
      every mode; one without a principal is invalid instead. */
  lemma FilterOutcome(matches: Matcher, includes: seq<string>, excludes: seq<string>, r: Request)
    ensures var o := PrincipalFilter(matches, includes, excludes, r);
      && o.req == r
      && (o.err.None? <==>
            || (includes == [] && excludes == [])
            || (&& r.payload.Some? && r.payload.value.principalEmail.Some?
                && FilterPasses(matches, includes, excludes, r.payload.value.principalEmail.value)))
      && (o.err.Some? ==>
            (Is(o.err.value, ERR_PRECONDITION_FAILED) <==> r.payload.Some? && r.payload.value.principalEmail.Some?))
  {
    assert NOT_INCLUDED.causes[0] == ERR_PRECONDITION_FAILED && EXCLUDED.causes[0] == ERR_PRECONDITION_FAILED;
  }

  // ---- runtime information ----

  const RUNTIME_KEY := "originating_resource"
  const JUSTIFICATION_KEY := "justification"

  function MetadataOf(p: Payload): Struct {
    match p.metadata case Some(m) => m case None => map[]
  }

  /** A request without a payload makes the original dereference nil and panic. */
  const NIL_DEREFERENCE := Panic("invalid memory address or nil pointer dereference")

  function RuntimeInfo(resource: Option<Value>, r: Request): Outcome {
    if resource.None? then Outcome(r, None)
    else if r.payload.None? then Outcome(r, Some(NIL_DEREFERENCE))
    else
      var p := r.payload.value;
      Outcome(r.(payload := Some(p.(metadata := Some(MetadataOf(p)[RUNTIME_KEY := resource.value])))), None)
  }

  class RuntimeInfoProcessor {
    const monitoredResource: Option<Value>

    constructor (monitoredResource: Option<Value>)
      ensures this.monitoredResource == monitoredResource
    {
      this.monitoredResource := monitoredResource;
    }

    method Process(logReq: RequestRef) returns (err: Option<Error>)
      requires monitoredResource.Some? ==> logReq.val.payload.Some?
      modifies logReq
      ensures Outcome(logReq.val, err) == RuntimeInfo(monitoredResource, old(logReq.val))
    {
      if monitoredResource.None? {
        return None;
      }
      if logReq.val.payload.value.metadata.None? {
        logReq.val := logReq.val.(payload := Some(logReq.val.payload.value.(metadata := Some(map[]))));
      }
      var fields := logReq.val.payload.value.metadata.value;
      logReq.val := logReq.val.(payload := Some(
        logReq.val.payload.value.(metadata := Some(fields[RUNTIME_KEY := monitoredResource.value]))));
      return None;
    }
  }

  // ---- labels ----

  function Labelled(defaults: map<string, string>, r: Request): Outcome {
    Outcome(r.(labels := defaults + r.labels), None)
  }

  class LabelProcessor {
    const defaultLabels: map<string, string>

    /** The labels are copied, key by key. */
    constructor (labels: map<string, string>)
      ensures defaultLabels == labels
    {
      var cp: map<string, string> := map[];
      var todo := labels.Keys;
      while todo != {}
        invariant todo <= labels.Keys && cp.Keys == labels.Keys - todo
        invariant forall k :: k in cp ==> cp[k] == labels[k]
        decreases |todo|
      {
        var k :| k in todo;
        cp := cp[k := labels[k]];
        todo := todo - {k};
      }
      defaultLabels := cp;
    }

    /** The defaults are ranged over in no particular order; a label already there stays. */
    method Process(logReq: RequestRef) returns (err: Option<Error>)
      modifies logReq
      ensures Outcome(logReq.val, err) == Labelled(defaultLabels, old(logReq.val))
    {
      err := None;
      ghost var before := logReq.val.labels;
      if |defaultLabels| == 0 {
        assert defaultLabels + before == before;
        return;
      }
      var todo := defaultLabels.Keys;
      while todo != {}
        invariant todo <= defaultLabels.Keys
        invariant logReq.val == old(logReq.val).(labels := logReq.val.labels)
        invariant logReq.val.labels.Keys == before.Keys + (defaultLabels.Keys - todo)
        invariant forall k :: k in logReq.val.labels ==>
          logReq.val.labels[k] == if k in before then before[k] else defaultLabels[k]
        decreases |todo|
      {
        var key :| key in todo;
        if key !in logReq.val.labels {
          logReq.val := logReq.val.(labels := logReq.val.labels[key := defaultLabels[key]]);
        }
        todo := todo - {key};
      }
      assert logReq.val.labels == defaultLabels + before;
    }
  }

  // ---- justification ----

  /** What a valid token decodes to; None where the original returns an error. */
  datatype JvsToken = JvsToken(claims: Option<Struct>, justifications: Option<seq<string>>)

  /** ValidateJWT of a token for a principal, at a moment. */
  type JwtValidator = (nat, string, string) -> Option<JvsToken>

  const BAD_TOKEN := WrapBoth(ERR_JUSTIFICATION_INVALID, Plain("invalid token"))
  const UNDECODABLE := Plain("failed to decode justification token")

  function PrincipalOf(r: Request): string {
    if r.payload.None? || r.payload.value.principalEmail.None? then "" else r.payload.value.principalEmail.value
  }

  function Justified(validate: JwtValidator, t: nat, r: Request): Outcome {
    if r.justificationToken == "" then Outcome(r, Some(ERR_JUSTIFICATION_MISSING))
    else
      var token := validate(t, r.justificationToken, PrincipalOf(r));
      if token.None? then Outcome(r, Some(BAD_TOKEN))
      else if token.value.claims.None? then Outcome(r, Some(UNDECODABLE))
      else if r.payload.None? then Outcome(r, Some(ERR_LOG_REQUEST_MISSING_PAYLOAD))
      else
        var p := r.payload.value;
        var noted := p.(metadata := Some(MetadataOf(p)[JUSTIFICATION_KEY := StructValue(token.value.claims.value)]));
        match token.value.justifications
        case None => Outcome(r.(payload := Some(noted)), Some(BAD_TOKEN))
        case Some(js) =>
          Outcome(r.(payload := Some(if js == [] then noted else noted.(reason := Some(js)))), None)
  }

  /** Justification succeeds exactly with a token that is valid for the principal and decodes to claims
      and reasons, on a request with a payload; a missing token and an invalid one are told apart; and a
      request that fails has nothing but its metadata changed, and that only by a token whose reasons
      cannot be had. */
  lemma JustifiedIff(validate: JwtValidator, t: nat, r: Request)
    ensures var o := Justified(validate, t, r);
      var principal := if r.payload.Some? && r.payload.value.principalEmail.Some?
                       then r.payload.value.principalEmail.value else "";
      var token := validate(t, r.justificationToken, principal);
      && (o.err.None? <==> && r.justificationToken != "" && token.Some? && token.value.claims.Some?
                           && token.value.justifications.Some? && r.payload.Some?)
      && (o.err.Some? ==>
            && (Is(o.err.value, ERR_JUSTIFICATION_MISSING) <==> r.justificationToken == "")
            && (r.justificationToken != "" && token.None? ==> Is(o.err.value, ERR_JUSTIFICATION_INVALID))
            && !Is(o.err.value, ERR_PRECONDITION_FAILED)
            && (o.req == r || (&& token.Some? && token.value.claims.Some? && token.value.justifications.None?
                               && r.payload.Some? && o.req.payload.Some?
                               && o.req.payload.value.(metadata := r.payload.value.metadata) == r.payload.value
                               && o.req.(payload := r.payload) == r)))
  {
    BadTokenSentinels();
  }

  lemma BadTokenSentinels()
    ensures Is(BAD_TOKEN, ERR_JUSTIFICATION_INVALID)
    ensures !Is(BAD_TOKEN, ERR_JUSTIFICATION_MISSING) && !Is(BAD_TOKEN, ERR_PRECONDITION_FAILED)
  {
    WrapBothIs(ERR_JUSTIFICATION_INVALID, Plain("invalid token"), ERR_JUSTIFICATION_MISSING.name);
    WrapBothIs(ERR_JUSTIFICATION_INVALID, Plain("invalid token"), ERR_PRECONDITION_FAILED.name);
    WrapBothIs(ERR_JUSTIFICATION_INVALID, Plain("invalid token"), ERR_JUSTIFICATION_INVALID.name);
  }

  class JustificationProcessor {
    const validate: JwtValidator

    constructor (validate: JwtValidator)
      ensures this.validate == validate
    {
      this.validate := validate;
    }

    method Process(t: nat, logReq: RequestRef) returns (err: Option<Error>)
      modifies logReq
      ensures Outcome(logReq.val, err) == Justified(validate, t, old(logReq.val))
    {
      var jvsToken := logReq.val.justificationToken;
      if jvsToken == "" {
        return Some(ERR_JUSTIFICATION_MISSING);
      }
      var token := validate(t, jvsToken, PrincipalOf(logReq.val));
      if token.None? {
        return Some(BAD_TOKEN);
      }
      if token.value.claims.None? {
        return Some(UNDECODABLE);
      }
      if logReq.val.payload.None? {
        return Some(ERR_LOG_REQUEST_MISSING_PAYLOAD);
      }
      if logReq.val.payload.value.metadata.None? {
        logReq.val := logReq.val.(payload := Some(logReq.val.payload.value.(metadata := Some(map[]))));
      }
      var fields := logReq.val.payload.value.metadata.value[JUSTIFICATION_KEY := StructValue(token.value.claims.value)];
      logReq.val := logReq.val.(payload := Some(logReq.val.payload.value.(metadata := Some(fields))));
      if token.value.justifications.None? {
        return Some(BAD_TOKEN);
      }
      var justifications := token.value.justifications.value;
      if |justifications| == 0 {
        return None;
      }
      logReq.val := logReq.val.(payload := Some(logReq.val.payload.value.(reason := Some(justifications))));
      return None;
    }
  }
}
