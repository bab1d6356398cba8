/** Rule selection in Go: the longest selector that applies to a method name. */
module Rules {
  import opened AuditLog
  import opened StreamProtocol
  import opened Selection

  datatype AuditRule = AuditRule(selector: string, directive: string, logType: string)

  /** strings.TrimLeft(s, "/") */
  function TrimSlashes(s: string): string {
    if s != "" && s[0] == '/' then TrimSlashes(s[1..]) else s
  }

  function LeadingSlashes(s: string): nat {
    if s != "" && s[0] == '/' then 1 + LeadingSlashes(s[1..]) else 0
  }

  predicate IsRuleApplicable(selector: string, methodName: string) {
    if selector == "*" then true
    else
      var sel, m := TrimSlashes(selector), TrimSlashes(methodName);
      if EndsInWildcard(sel) then Stem(sel) <= m else sel == m
  }

  ghost predicate AllSlashes(s: string) {
    forall i :: 0 <= i < |s| ==> s[i] == '/'
  }

  ghost predicate NoLeadingSlash(s: string) {
    s == "" || s[0] != '/'
  }

  /** The selector is slashes and sel, the name slashes and m, and sel is m or covers it. */
  ghost predicate AppliesWith(selector: string, methodName: string, a: string, sel: string, b: string, m: string) {
    && selector == a + sel && AllSlashes(a) && NoLeadingSlash(sel)
    && methodName == b + m && AllSlashes(b) && NoLeadingSlash(m)
    && (sel == m || exists p, rest :: Covers(sel, m, p, rest))
  }

  /** What it is for a selector to apply to a method name, said of the two texts alone. */
  ghost predicate Applies(selector: string, methodName: string) {
    selector == "*" || exists a, sel, b, m :: AppliesWith(selector, methodName, a, sel, b, m)
  }

  lemma {:induction false} TrimOfSplit(a: string, rest: string)
    requires AllSlashes(a) && NoLeadingSlash(rest)
    ensures TrimSlashes(a + rest) == rest
    decreases |a|
  {
    if a == "" {
      assert a + rest == rest;
    } else {
      assert (a + rest)[1..] == a[1..] + rest;
      TrimOfSplit(a[1..], rest);
    }
  }

  lemma SplitAtTrim(s: string) returns (a: string)
    ensures s == a + TrimSlashes(s) && AllSlashes(a) && NoLeadingSlash(TrimSlashes(s))
  {
    TrimSplits(s);
    SlashesLead(s);
    a := s[..LeadingSlashes(s)];
  }

  /** A selector applies exactly when it is the lone wildcard, or when, leading slashes aside, it is the
      method name, or a prefix of it followed by a wildcard. */
  lemma AppliesIff(selector: string, methodName: string)
    ensures IsRuleApplicable(selector, methodName) <==> Applies(selector, methodName)
  {
    var a := SplitAtTrim(selector);
    var b := SplitAtTrim(methodName);
    var sel, m := TrimSlashes(selector), TrimSlashes(methodName);
    CoversIff(sel, m);
    if IsRuleApplicable(selector, methodName) && selector != "*" {
      assert AppliesWith(selector, methodName, a, sel, b, m);
    }
    if selector != "*" && Applies(selector, methodName) {
      var a', sel', b', m' :| AppliesWith(selector, methodName, a', sel', b', m');
      TrimOfSplit(a', sel');
      TrimOfSplit(b', m');
      assert sel' == sel && m' == m;
      if sel == m && EndsInWildcard(sel) {
        assert Stem(sel) <= m;
      }
    }
  }

  function Candidates(methodName: string, rules: seq<AuditRule>): seq<Candidate> {
    seq(|rules|, i requires 0 <= i < |rules| =>
      Candidate(IsRuleApplicable(rules[i].selector, methodName), |rules[i].selector|))
  }

  lemma EligibleIff(methodName: string, rules: seq<AuditRule>)
    ensures var cs := Candidates(methodName, rules);
      forall i :: 0 <= i < |rules| ==>
        (Eligible(cs[i]) <==> rules[i].selector != "" && Applies(rules[i].selector, methodName))
  {
    forall i | 0 <= i < |rules|
      ensures Eligible(Candidates(methodName, rules)[i]) <==>
              rules[i].selector != "" && Applies(rules[i].selector, methodName)
    {
      AppliesIff(rules[i].selector, methodName);
    }
  }

  /** The index of the rule returned; None is nil. */
  method MostRelevantRule(methodName: string, rules: seq<AuditRule>) returns (mostRelevant: Option<nat>)
    ensures IsSelected(Candidates(methodName, rules), |methodName|, mostRelevant)
    ensures mostRelevant.Some? ==>
      var k := mostRelevant.value;
      && k < |rules| && Applies(rules[k].selector, methodName)
      && (forall i :: 0 <= i < k && Applies(rules[i].selector, methodName) ==> |rules[i].selector| < |rules[k].selector|)
      && (|rules[k].selector| == |methodName| || forall i :: k < i < |rules| && Applies(rules[i].selector, methodName) ==>
            |rules[i].selector| <= |rules[k].selector|)
    ensures mostRelevant.None? <==>
      forall i :: 0 <= i < |rules| && rules[i].selector != "" ==> !Applies(rules[i].selector, methodName)
  {
    ghost var cs := Candidates(methodName, rules);
    EligibleIff(methodName, rules);
    var longest := 0;
    mostRelevant := None;
    for i := 0 to |rules|
      invariant mostRelevant.None? ==> longest == 0 && forall k :: 0 <= k < i ==> !Eligible(cs[k])
      invariant mostRelevant.Some? ==>
        && mostRelevant.value < i && LongestSoFar(cs, mostRelevant.value)
        && longest == cs[mostRelevant.value].length != |methodName|
        && forall k :: 0 <= k < i && Eligible(cs[k]) ==> cs[k].length <= longest
      invariant !StopsBefore(cs, |methodName|, i)
    {
      assert cs[i] == Candidate(IsRuleApplicable(rules[i].selector, methodName), |rules[i].selector|);
      if IsRuleApplicable(rules[i].selector, methodName) && |rules[i].selector| > longest {
        longest := |rules[i].selector|;
        mostRelevant := Some(i);
        if longest == |methodName| {
          return;
        }
      }
    }
  }

  // ---- when an applicable selector is longer than the method name ----

  lemma {:induction false} TrimSplits(s: string)
    ensures LeadingSlashes(s) <= |s| && TrimSlashes(s) == s[LeadingSlashes(s)..]
    ensures TrimSlashes(s) == "" || TrimSlashes(s)[0] != '/'
  {
    if s != "" && s[0] == '/' {
      TrimSplits(s[1..]);
    }
  }

  /** How many characters a selector leaves out of the trimmed method name it applies to, less the
      wildcard it ends in. */
  function Uncovered(selector: string, methodName: string): int {
    var sel, m := TrimSlashes(selector), TrimSlashes(methodName);
    if EndsInWildcard(sel) then |m| - |Stem(sel)| - 1 else 0
  }

  /** An applicable selector is longer than the method name exactly when it has more leading slashes
      than the name by more than it leaves uncovered. */
  lemma LongerThanMethodIff(selector: string, methodName: string)
    requires IsRuleApplicable(selector, methodName)
    ensures |selector| > |methodName| <==>
            LeadingSlashes(selector) - LeadingSlashes(methodName) > Uncovered(selector, methodName)
  {
    TrimSplits(selector);
    TrimSplits(methodName);
    if selector == "*" {
      assert TrimSlashes(selector) == "*";
    }
  }

  /** So, unless it has more leading slashes, it is the whole method name followed by a wildcard. */
  lemma LongerMeansSlashesOrWholeStem(selector: string, methodName: string)
    requires IsRuleApplicable(selector, methodName) && |selector| > |methodName|
    ensures || LeadingSlashes(selector) > LeadingSlashes(methodName)
            || selector == methodName + "*"
  {
    TrimSplits(selector);
    TrimSplits(methodName);
    if selector == "*" { assert TrimSlashes(selector) == "*"; }
    LongerThanMethodIff(selector, methodName);
    if LeadingSlashes(selector) <= LeadingSlashes(methodName) {
      var sel, m := TrimSlashes(selector), TrimSlashes(methodName);
      assert EndsInWildcard(sel) && |Stem(sel)| == |m|;
      assert sel == Stem(sel) + "*";
      SameSlashes(selector, methodName, "*");
    }
  }

  lemma SameSlashes(a: string, b: string, tail: string)
    requires LeadingSlashes(a) == LeadingSlashes(b) && TrimSlashes(a) == TrimSlashes(b) + tail
    ensures a == b + tail
  {
    TrimSplits(a);
    TrimSplits(b);
    SlashesLead(a);
    SlashesLead(b);
    var k := LeadingSlashes(a);
    assert a[..k] == b[..k];
    assert a == a[..k] + a[k..] && b == b[..k] + b[k..];
  }

  lemma {:induction false} SlashesLead(s: string)
    ensures LeadingSlashes(s) <= |s|
    ensures forall i :: 0 <= i < LeadingSlashes(s) ==> s[i] == '/'
  {
    if s != "" && s[0] == '/' {
      SlashesLead(s[1..]);
      forall i | 0 <= i < LeadingSlashes(s) ensures s[i] == '/' {
        if i > 0 { assert s[i] == s[1..][i - 1]; }
      }
    }
  }

  /** What a rule must avoid for the search to be exact on a method name. */
  predicate Tame(selector: string, methodName: string) {
    LeadingSlashes(selector) <= LeadingSlashes(methodName) && selector != methodName + "*"
  }

  /** The selected rule is the first longest applicable one exactly when no applicable rule shorter than
      it seems hides a longer one; and no tame list of rules does. */
  lemma SelectionIsFirstLongestIff(methodName: string, rules: seq<AuditRule>, k: nat)
    requires IsSelected(Candidates(methodName, rules), |methodName|, Some(k))
    ensures var cs := Candidates(methodName, rules);
      && (FirstLongest(cs, k) <==> !HidesLonger(cs, |methodName|))
      && ((forall i :: 0 <= i < |rules| ==> Tame(rules[i].selector, methodName)) ==> FirstLongest(cs, k))
  {
    var cs := Candidates(methodName, rules);
    ShortCircuitIsExactIff(cs, |methodName|, k);
    if forall i :: 0 <= i < |rules| ==> Tame(rules[i].selector, methodName) {
      forall i | 0 <= i < |rules| && Eligible(cs[i]) ensures cs[i].length <= |methodName| {
        if |rules[i].selector| > |methodName| {
          LongerMeansSlashesOrWholeStem(rules[i].selector, methodName);
        }
      }
    }
  }

  /** It does happen: a rule for the exact name hides a later, longer rule that also applies, be it
      longer by a wildcard or by a leading slash. */
  lemma AnExactRuleCanHideALongerOne(longer: string)
    requires longer in ["/s/m*", "//s/m"]
    ensures var rules := [AuditRule("/s/m", "", ""), AuditRule(longer, "", "")];
      && IsSelected(Candidates("/s/m", rules), |"/s/m"|, Some(0))
      && IsRuleApplicable(longer, "/s/m") && !FirstLongest(Candidates("/s/m", rules), 0)
  {
    var rules := [AuditRule("/s/m", "", ""), AuditRule(longer, "", "")];
    var cs := Candidates("/s/m", rules);
    assert TrimSlashes("/s/m") == TrimSlashes("s/m") == "s/m";
    assert TrimSlashes("//s/m") == TrimSlashes("/s/m");
    assert TrimSlashes("/s/m*") == TrimSlashes("s/m*") == "s/m*" && Stem("s/m*") == "s/m";
    assert cs[0] == Candidate(true, 4) && cs[1] == Candidate(true, 5);
    assert LongestSoFar(cs, 0) && Eligible(cs[1]);
  }

  function DirectiveOf(text: string): Directive {
    if text == "AUDIT" then Audit
    else if text == "AUDIT_REQUEST_ONLY" then AuditRequestOnly
    else if text == "AUDIT_REQUEST_AND_RESPONSE" then AuditRequestAndResponse
    else OtherDirective(text)
  }

  /** AuditLogRequest_LogType_value, with UNSPECIFIED for a name it does not have. */
  function LogTypeOf(text: string): LogType {
    if text == "ADMIN_ACTIVITY" then AdminActivity
    else if text == "DATA_ACCESS" then DataAccess
    else if text == "CONSENT_EVENT" then ConsentEvent
    else if text == "SYSTEM_EVENT" then SystemEvent
    else TypeUnspecified
  }
}
