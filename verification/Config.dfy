/** The client configuration: defaults, validation and the log mode. */
module Config {
  import opened AuditLog
  import opened AuditErrors
  import opened Rules

  datatype Remote = Remote(address: string)
  datatype CloudBackend = CloudBackend(defaultProject: bool, project: string)
  datatype Backend = Backend(remote: Option<Remote>, cloudLogging: Option<CloudBackend>)
  datatype RegexCondition = RegexCondition(principalInclude: string, principalExclude: string)
  datatype Justification = Justification(publicKeysEndpoint: string, enabled: bool)

  /** SecurityContext is given by the keys of its FromRawJWT list. */
  datatype Settings = Settings(
    version: string,
    backend: Option<Backend>,
    condition: Option<RegexCondition>,
    securityContext: Option<seq<string>>,
    rules: seq<AuditRule>,
    labels: map<string, string>,
    logMode: string,
    justification: Option<Justification>)

  const VERSION := "v1alpha1"

  /** unicode.ToUpper on the characters whose upper case is an ASCII letter: a to z, the long s and the
      dotless i. No other character can turn into part of a mode's name. */
  function Upper(c: char): char {
    if 'a' <= c <= 'z' then c - 'a' + 'A'
    else if c == '\U{017F}' then 'S'
    else if c == '\U{0131}' then 'I'
    else c
  }

  function ToUpper(s: string): string {
    seq(|s|, i requires 0 <= i < |s| => Upper(s[i]))
  }

  /** AuditLogRequest_LogMode_value */
  function ModeNamed(name: string): Option<LogMode> {
    if name == "LOG_MODE_UNSPECIFIED" then Some(ModeUnspecified)
    else if name == "FAIL_CLOSE" then Some(FailClose)
    else if name == "BEST_EFFORT" then Some(BestEffort)
    else None
  }

  /** GetLogMode: a name the map does not have gives its zero value. */
  function GetLogMode(logMode: string): LogMode {
    match ModeNamed(ToUpper(logMode)) case Some(m) => m case None => ModeUnspecified
  }

  // ---- defaults ----

  function DefaultedCloud(cl: CloudBackend): CloudBackend {
    if cl.project == "" && !cl.defaultProject then cl.(defaultProject := true) else cl
  }

  function DefaultedRule(r: AuditRule): AuditRule {
    r.(directive := if r.directive == "" then "AUDIT" else r.directive,
       logType := if r.logType == "" then "DATA_ACCESS" else r.logType)
  }

  function DefaultedMode(logMode: string): string {
    if logMode == "" || ToUpper(logMode) == "LOG_MODE_UNSPECIFIED" then "FAIL_CLOSE" else logMode
  }

  function DefaultedBackend(b: Backend): Backend {
    if b.cloudLogging.None? then b else b.(cloudLogging := Some(DefaultedCloud(b.cloudLogging.value)))
  }

  function DefaultedRules(rules: seq<AuditRule>): seq<AuditRule> {
    seq(|rules|, i requires 0 <= i < |rules| => DefaultedRule(rules[i]))
  }

  function Defaulted(s: Settings): Settings {
    s.(version := if s.version == "" then VERSION else s.version,
       logMode := DefaultedMode(s.logMode),
       backend := if s.backend.None? then None else Some(DefaultedBackend(s.backend.value)),
       rules := DefaultedRules(s.rules))
  }

  // ---- validation ----

  function ErrorUnless(ok: bool, text: string): Option<Error> {
    if ok then None else Some(Plain(text))
  }

  function ValidateCloud(cl: CloudBackend): Option<Error> {
    if cl.project == "" && !cl.defaultProject then Some(Plain("no project or using default project is set"))
    else if cl.project != "" && cl.defaultProject then Some(Plain("project is set while using default project"))
    else None
  }

  function ValidateBackend(b: Backend): Option<Error> {
    var merr := Join(None, if b.remote.Some? then ErrorUnless(b.remote.value.address != "", "backend address is nil") else None);
    var merr := Join(merr, if b.cloudLogging.Some? then ValidateCloud(b.cloudLogging.value) else None);
    Join(merr, ErrorUnless(b.remote.Some? || b.cloudLogging.Some?, "no backend is set"))
  }

  function ValidateRule(r: AuditRule): Option<Error> {
    if r.selector == "" then Some(Plain("audit rule selector is empty"))
    else if r.directive == "" then Some(Plain("audit rule directive is empty"))
    else if r.logType == "" then Some(Plain("audit rule log type is empty"))
    else if DirectiveOf(r.directive).OtherDirective? then Some(Plain("unexpected rule.Directive"))
    else if r.logType != "ADMIN_ACTIVITY" && r.logType != "DATA_ACCESS" then Some(Plain("unexpected rule.LogType"))
    else None
  }

  function ValidateJustification(j: Justification): Option<Error> {
    ErrorUnless(j.enabled ==> j.publicKeysEndpoint != "", "public_keys_endpoint must be specified")
  }

  /** What a valid configuration is, said at once. */
  ghost predicate Acceptable(s: Settings) {
    && s.version == VERSION
    && s.backend.Some? && AcceptableBackend(s.backend.value)
    && AcceptableSecurity(s.securityContext)
    && AcceptableRules(s.rules)
    && AcceptableMode(s.logMode)
    && AcceptableJustification(s.justification)
  }

  predicate AcceptableRule(r: AuditRule) {
    && r.selector != ""
    && !DirectiveOf(r.directive).OtherDirective?
    && (LogTypeOf(r.logType) == AdminActivity || LogTypeOf(r.logType) == DataAccess)
  }

  class Config {
    var version: string
    var backend: Option<Backend>
    var condition: Option<RegexCondition>
    var securityContext: Option<seq<string>>
    var rules: seq<AuditRule>
    var labels: map<string, string>
    var logMode: string
    var justification: Option<Justification>

    constructor (s: Settings)
      ensures View() == s
    {
      version, backend, condition, securityContext := s.version, s.backend, s.condition, s.securityContext;
      rules, labels, logMode, justification := s.rules, s.labels, s.logMode, s.justification;
    }

    function View(): Settings
      reads this
    {
      Settings(version, backend, condition, securityContext, rules, labels, logMode, justification)
    }

    method SetDefault()
      modifies this
      ensures View() == Defaulted(old(View()))
    {
      if version == "" {
        version := VERSION;
      }
      if logMode == "" || ToUpper(logMode) == "LOG_MODE_UNSPECIFIED" {
        logMode := "FAIL_CLOSE";
      }
      if backend.Some? && backend.value.cloudLogging.Some? {
        var cl := backend.value.cloudLogging.value;
        if cl.project == "" && !cl.defaultProject {
          backend := Some(backend.value.(cloudLogging := Some(cl.(defaultProject := true))));
        }
      }
      SetRuleDefaults();
    }

    /** The loop of SetDefault over the rules. */
    method SetRuleDefaults()
      modifies this`rules
      ensures rules == DefaultedRules(old(rules))
    {
      for i := 0 to |rules|
        invariant |rules| == |old(rules)|
        invariant forall k :: 0 <= k < |rules| ==>
          rules[k] == if k < i then DefaultedRule(old(rules)[k]) else old(rules)[k]
      {
        if rules[i].directive == "" {
          rules := rules[i := rules[i].(directive := "AUDIT")];
        }
        if rules[i].logType == "" {
          rules := rules[i := rules[i].(logType := "DATA_ACCESS")];
        }
      }
    }

    method ValidateSecurityContext(keys: seq<string>) returns (merr: Option<Error>)
      ensures merr.None? <==> keys != [] && "" !in keys
    {
      if |keys| == 0 {
        return Some(Plain("one and only one SecurityContext option must be specified"));
      }
      merr := None;
      for i := 0 to |keys|
        invariant merr.None? <==> "" !in keys[..i]
      {
        merr := Join(merr, ErrorUnless(keys[i] != "", "key must be specified"));
        assert keys[..i + 1] == keys[..i] + [keys[i]];
      }
      assert keys[..|keys|] == keys;
    }

    /** merr = errors.Join(merr, e), for callers that only ask whether it is nil. */
    method Add(merr: Option<Error>, e: Option<Error>) returns (r: Option<Error>)
      ensures r.None? <==> merr.None? && e.None?
    {
      r := Join(merr, e);
    }

    /** The loop of Validate over the rules, adding to what was found before it. */
    method ValidateRules(rules: seq<AuditRule>, before: Option<Error>) returns (merr: Option<Error>)
      ensures merr.None? <==> before.None? && AcceptableRules(rules)
    {
      merr := before;
      for i := 0 to |rules|
        invariant merr.None? <==> before.None? && forall k :: 0 <= k < i ==> AcceptableRule(rules[k])
      {
        RuleErrorIff(rules[i]);
        merr := Add(merr, ValidateRule(rules[i]));
      }
    }

    method CheckBackend(before: Option<Error>) returns (merr: Option<Error>)
      ensures merr.None? <==> before.None? && backend.Some? && AcceptableBackend(backend.value)
    {
      if backend.None? {
        merr := Add(before, Some(Plain("backend is nil")));
      } else {
        BackendErrorIff(backend.value);
        merr := Add(before, ValidateBackend(backend.value));
      }
    }

    method CheckSecurity(before: Option<Error>) returns (merr: Option<Error>)
      ensures merr.None? <==> before.None? && AcceptableSecurity(securityContext)
    {
      merr := before;
      if securityContext.Some? {
        var e := ValidateSecurityContext(securityContext.value);
        merr := Add(merr, e);
      }
    }

    method CheckMode(before: Option<Error>) returns (merr: Option<Error>)
      ensures merr.None? <==> before.None? && AcceptableMode(logMode)
    {
      merr := before;
      if logMode != "" {
        merr := Add(merr, ErrorUnless(ModeNamed(ToUpper(logMode)).Some?, "invalid LogMode"));
      }
    }

    /** The rest of Validate, on a configuration that has its defaults: every check adds its error. */
    method Check() returns (merr: Option<Error>)
      ensures merr.None? <==> Acceptable(View())
    {
      merr := Add(None, ErrorUnless(version == VERSION, "unexpected Version"));
      merr := CheckBackend(merr);
      merr := CheckSecurity(merr);
      merr := ValidateRules(rules, merr);
      merr := CheckMode(merr);
      if justification.Some? {
        merr := Add(merr, ValidateJustification(justification.value));
      }
    }

    /** Defaults the configuration, and is nil exactly when what results is acceptable. */
    method Validate() returns (merr: Option<Error>)
      modifies this
      ensures View() == Defaulted(old(View()))
      ensures merr.None? <==> Acceptable(View())
    {
      SetDefault();
      merr := Check();
    }
  }

  ghost predicate AcceptableRules(rules: seq<AuditRule>) {
    forall i :: 0 <= i < |rules| ==> AcceptableRule(rules[i])
  }

  ghost predicate AcceptableJustification(j: Option<Justification>) {
    j.Some? && j.value.enabled ==> j.value.publicKeysEndpoint != ""
  }

  ghost predicate AcceptableSecurity(keys: Option<seq<string>>) {
    keys.Some? ==> keys.value != [] && "" !in keys.value
  }

  ghost predicate AcceptableMode(logMode: string) {
    logMode == "" || ModeNamed(ToUpper(logMode)).Some?
  }

  ghost predicate AcceptableBackend(b: Backend) {
    && (b.remote.Some? || b.cloudLogging.Some?)
    && (b.remote.Some? ==> b.remote.value.address != "")
    && (b.cloudLogging.Some? ==> (b.cloudLogging.value.project != "") != b.cloudLogging.value.defaultProject)
  }

  lemma BackendErrorIff(b: Backend)
    ensures ValidateBackend(b).None? <==> AcceptableBackend(b)
  {
  }

  lemma RuleErrorIff(r: AuditRule)
    ensures ValidateRule(r).None? <==> AcceptableRule(r)
  {
  }

  // ---- what validation gives ----

  lemma UpperOfModeNames()
    ensures ToUpper("FAIL_CLOSE") == "FAIL_CLOSE"
  {
  }

  /** Defaulting twice is defaulting once. */
  lemma DefaultIsIdempotent(s: Settings)
    ensures Defaulted(Defaulted(s)) == Defaulted(s)
  {
    UpperOfModeNames();
    assert Defaulted(Defaulted(s)).rules == Defaulted(s).rules;
  }

  /** Once Validate has returned nil, validating again changes nothing and returns nil. */
  lemma ValidateIsStable(s: Settings)
    requires Acceptable(Defaulted(s))
    ensures Defaulted(Defaulted(s)) == Defaulted(s) && Acceptable(Defaulted(Defaulted(s)))
  {
    DefaultIsIdempotent(s);
  }

  /** A validated configuration has one of the two real modes, however its name was written; its Cloud
      Logging backend has exactly one of project and default project; and none of its rules has a
      directive or a log type outside those listed, so no interceptor built from it logs UNSPECIFIED. */
  lemma ValidatedConfig(s: Settings)
    requires Acceptable(Defaulted(s))
    ensures var d := Defaulted(s);
      && (GetLogMode(d.logMode) == FailClose || GetLogMode(d.logMode) == BestEffort)
      && (d.backend.value.cloudLogging.Some? ==>
            var cl := d.backend.value.cloudLogging.value;
            (cl.project != "" && !cl.defaultProject) || (cl.project == "" && cl.defaultProject))
      && (forall r :: r in d.rules ==> LogTypeOf(r.logType) == AdminActivity || LogTypeOf(r.logType) == DataAccess)
      && (forall r :: r in d.rules ==> !DirectiveOf(r.directive).OtherDirective?)
  {
    UpperOfModeNames();
    var d := Defaulted(s);
    assert d.logMode != "";
    assert ToUpper(d.logMode) != "LOG_MODE_UNSPECIFIED";
    forall r | r in d.rules ensures AcceptableRule(r) {
      var i :| 0 <= i < |d.rules| && d.rules[i] == r;
    }
  }

  /** The same letter, be it upper or lower case. */
  predicate SameLetter(a: char, b: char) {
    || a == b
    || ('a' <= a <= 'z' && b as int == a as int - 32)
    || ('a' <= b <= 'z' && a as int == b as int - 32)
  }

  ghost predicate SameUpToCase(a: string, b: string) {
    |a| == |b| && forall i :: 0 <= i < |a| ==> SameLetter(a[i], b[i])
  }

  ghost predicate IsAscii(s: string) {
    forall i :: 0 <= i < |s| ==> s[i] as int < 128
  }

  /** Names that differ only in letter case are the same mode. */
  lemma CaseDoesNotMatter(a: string, b: string)
    requires SameUpToCase(a, b)
    ensures GetLogMode(a) == GetLogMode(b)
    ensures AcceptableMode(a) <==> AcceptableMode(b)
  {
    assert ToUpper(a) == ToUpper(b);
  }

  lemma UpperIff(name: string, mode: string)
    requires forall i :: 0 <= i < |mode| ==> 'A' <= mode[i] <= 'Z' || mode[i] == '_'
    ensures SameUpToCase(name, mode) ==> ToUpper(name) == mode
    ensures IsAscii(name) && ToUpper(name) == mode ==> SameUpToCase(name, mode)
  {
    if IsAscii(name) && ToUpper(name) == mode {
      assert |name| == |mode|;
      forall i | 0 <= i < |name| ensures SameLetter(name[i], mode[i]) {
        assert mode[i] == Upper(name[i]);
      }
    }
  }

  /** The names of the modes, in any letter case, and among ASCII names no other. */
  lemma ModesByName(name: string)
    ensures SameUpToCase(name, "FAIL_CLOSE") ==> GetLogMode(name) == FailClose && AcceptableMode(name)
    ensures SameUpToCase(name, "BEST_EFFORT") ==> GetLogMode(name) == BestEffort && AcceptableMode(name)
    ensures SameUpToCase(name, "LOG_MODE_UNSPECIFIED") ==> GetLogMode(name) == ModeUnspecified && AcceptableMode(name)
    ensures IsAscii(name) && AcceptableMode(name) ==>
      || name == "" || SameUpToCase(name, "FAIL_CLOSE") || SameUpToCase(name, "BEST_EFFORT")
      || SameUpToCase(name, "LOG_MODE_UNSPECIFIED")
  {
    UpperIff(name, "FAIL_CLOSE");
    UpperIff(name, "BEST_EFFORT");
    UpperIff(name, "LOG_MODE_UNSPECIFIED");
  }

  /** The mode the configuration asks for is the one it gets: an explicit FAIL_CLOSE or BEST_EFFORT in
      any letter case is kept, and nothing or LOG_MODE_UNSPECIFIED becomes FAIL_CLOSE. */
  lemma ModeAskedFor(s: Settings)
    ensures SameUpToCase(s.logMode, "BEST_EFFORT") ==> GetLogMode(Defaulted(s).logMode) == BestEffort
    ensures || s.logMode == "" || SameUpToCase(s.logMode, "FAIL_CLOSE")
            || SameUpToCase(s.logMode, "LOG_MODE_UNSPECIFIED") ==>
      GetLogMode(Defaulted(s).logMode) == FailClose
  {
    UpperOfModeNames();
    UpperIff(s.logMode, "FAIL_CLOSE");
    UpperIff(s.logMode, "BEST_EFFORT");
    UpperIff(s.logMode, "LOG_MODE_UNSPECIFIED");
  }

  /** Defaults fill gaps and do nothing else. */
  lemma DefaultsFillGaps(s: Settings)
    ensures var d := Defaulted(s);
      && d.(version := s.version, logMode := s.logMode, backend := s.backend, rules := s.rules) == s
      && (if s.version == "" then d.version == "v1alpha1" else d.version == s.version)
      && |d.rules| == |s.rules|
      && forall i :: 0 <= i < |s.rules| ==>
           && d.rules[i].selector == s.rules[i].selector
           && (if s.rules[i].directive == "" then DirectiveOf(d.rules[i].directive).Audit?
               else d.rules[i].directive == s.rules[i].directive)
           && (if s.rules[i].logType == "" then LogTypeOf(d.rules[i].logType) == DataAccess
               else d.rules[i].logType == s.rules[i].logType)
    ensures var d := Defaulted(s);
      && (d.backend.Some? <==> s.backend.Some?)
      && (s.backend.Some? ==>
            && d.backend.value.remote == s.backend.value.remote
            && (d.backend.value.cloudLogging.Some? <==> s.backend.value.cloudLogging.Some?)
            && (s.backend.value.cloudLogging.Some? ==>
                  var given, got := s.backend.value.cloudLogging.value, d.backend.value.cloudLogging.value;
                  got.project == given.project && (got.defaultProject <==> given.defaultProject || given.project == "")))
  {
  }
}
