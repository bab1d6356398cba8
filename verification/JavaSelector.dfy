/** Selector choice in Java, and the interceptor's memo of it. */
module JavaSelector {
  import opened AuditLog
  import opened StreamProtocol
  import opened Selection

  datatype Selector = Selector(selector: string, directive: Option<Directive>, logType: Option<LogType>)

  /** Without a wildcard, a selector still applies to every method it is a prefix of. */
  predicate IsApplicable(selector: string, methodIdentifier: string) {
    if selector == "*" then true
    else if EndsInWildcard(selector) then Stem(selector) <= methodIdentifier
    else selector <= methodIdentifier
  }

  ghost predicate Extends(selector: string, methodIdentifier: string, rest: string) {
    methodIdentifier == selector + rest
  }

  /** What it is for a selector to apply to a method, said of the two texts alone. */
  ghost predicate Applies(selector: string, methodIdentifier: string) {
    || (exists rest :: Extends(selector, methodIdentifier, rest))
    || (exists p, rest :: Covers(selector, methodIdentifier, p, rest))
  }

  /** A wildcard selector that is itself a prefix of the method is no exception. */
  lemma PrefixIff(selector: string, methodIdentifier: string)
    ensures selector <= methodIdentifier <==> exists rest :: Extends(selector, methodIdentifier, rest)
    ensures IsApplicable(selector, methodIdentifier) <==>
      selector <= methodIdentifier || (EndsInWildcard(selector) && Stem(selector) <= methodIdentifier)
  {
    if selector <= methodIdentifier {
      assert methodIdentifier == selector + methodIdentifier[|selector|..];
      assert Extends(selector, methodIdentifier, methodIdentifier[|selector|..]);
    }
    if selector == "*" {
      assert EndsInWildcard(selector) && Stem(selector) == "";
    }
  }

  /** A selector applies exactly when it is a prefix of the method, or a prefix followed by a wildcard. */
  lemma AppliesIff(selector: string, methodIdentifier: string)
    ensures IsApplicable(selector, methodIdentifier) <==> Applies(selector, methodIdentifier)
  {
    CoversIff(selector, methodIdentifier);
    PrefixIff(selector, methodIdentifier);
  }

  function Candidates(methodIdentifier: string, selectors: seq<Selector>): seq<Candidate> {
    seq(|selectors|, i requires 0 <= i < |selectors| =>
      Candidate(IsApplicable(selectors[i].selector, methodIdentifier), |selectors[i].selector|))
  }

  lemma EligibleIff(methodIdentifier: string, selectors: seq<Selector>)
    ensures var cs := Candidates(methodIdentifier, selectors);
      forall i :: 0 <= i < |selectors| ==>
        (Eligible(cs[i]) <==> selectors[i].selector != "" && Applies(selectors[i].selector, methodIdentifier))
  {
    forall i | 0 <= i < |selectors|
      ensures Eligible(Candidates(methodIdentifier, selectors)[i]) <==>
              selectors[i].selector != "" && Applies(selectors[i].selector, methodIdentifier)
    {
      AppliesIff(selectors[i].selector, methodIdentifier);
    }
  }

  method ReturnMostRelevant(methodIdentifier: string, selectors: seq<Selector>) returns (mostRelevant: Option<nat>)
    ensures IsSelected(Candidates(methodIdentifier, selectors), |methodIdentifier|, mostRelevant)
    ensures mostRelevant.Some? ==>
      var k := mostRelevant.value;
      && k < |selectors| && Applies(selectors[k].selector, methodIdentifier)
      && (forall i :: 0 <= i < k && Applies(selectors[i].selector, methodIdentifier) ==> |selectors[i].selector| < |selectors[k].selector|)
      && (|selectors[k].selector| == |methodIdentifier| || forall i :: k < i < |selectors| && Applies(selectors[i].selector, methodIdentifier) ==>
            |selectors[i].selector| <= |selectors[k].selector|)
    ensures mostRelevant.None? <==>
      forall i :: 0 <= i < |selectors| && selectors[i].selector != "" ==> !Applies(selectors[i].selector, methodIdentifier)
  {
    ghost var cs := Candidates(methodIdentifier, selectors);
    EligibleIff(methodIdentifier, selectors);
    var longest := 0;
    mostRelevant := None;
    for i := 0 to |selectors|
      invariant mostRelevant.None? ==> longest == 0 && forall k :: 0 <= k < i ==> !Eligible(cs[k])
      invariant mostRelevant.Some? ==>
        && mostRelevant.value < i && LongestSoFar(cs, mostRelevant.value)
        && longest == cs[mostRelevant.value].length != |methodIdentifier|
        && forall k :: 0 <= k < i && Eligible(cs[k]) ==> cs[k].length <= longest
      invariant !StopsBefore(cs, |methodIdentifier|, i)
    {
      assert cs[i] == Candidate(IsApplicable(selectors[i].selector, methodIdentifier), |selectors[i].selector|);
      if IsApplicable(selectors[i].selector, methodIdentifier) && |selectors[i].selector| > longest {
        longest := |selectors[i].selector|;
        mostRelevant := Some(i);
        if longest == |methodIdentifier| {
          return;
        }
      }
    }
  }

  /** An applicable selector is at most one character longer than the method, and then it is the method
      followed by a wildcard. */
  lemma ApplicableLength(selector: string, methodIdentifier: string)
    requires IsApplicable(selector, methodIdentifier)
    ensures |selector| <= |methodIdentifier| + 1
    ensures |selector| == |methodIdentifier| + 1 <==> selector == methodIdentifier + "*"
  {
    if |selector| == |methodIdentifier| + 1 {
      if selector == "*" {
        assert methodIdentifier == "";
      } else {
        assert EndsInWildcard(selector);
        assert selector == selector[..|selector| - 1] + [selector[|selector| - 1]];
      }
    }
  }

  /** A selector as long as the method, which stops the search, comes before the first selector that
      is the method followed by a wildcard. */
  ghost predicate HidesWholeStem(methodIdentifier: string, selectors: seq<Selector>) {
    exists i, k :: 0 <= i < k < |selectors|
      && selectors[i].selector != "" && |selectors[i].selector| == |methodIdentifier|
      && IsApplicable(selectors[i].selector, methodIdentifier)
      && selectors[k].selector == methodIdentifier + "*"
      && forall h :: 0 <= h < k ==> selectors[h].selector != methodIdentifier + "*"
  }

  lemma CandidateLengths(methodIdentifier: string, selectors: seq<Selector>)
    ensures forall i :: 0 <= i < |selectors| && IsApplicable(selectors[i].selector, methodIdentifier) ==>
      && |selectors[i].selector| <= |methodIdentifier| + 1
      && (|selectors[i].selector| == |methodIdentifier| + 1 ==> selectors[i].selector == methodIdentifier + "*")
  {
    forall i | 0 <= i < |selectors| && IsApplicable(selectors[i].selector, methodIdentifier)
      ensures |selectors[i].selector| <= |methodIdentifier| + 1
      ensures |selectors[i].selector| == |methodIdentifier| + 1 ==> selectors[i].selector == methodIdentifier + "*"
    {
      ApplicableLength(selectors[i].selector, methodIdentifier);
    }
  }

  /** The first of the candidates that are eligible and of length n. */
  lemma FirstOfLength(cs: seq<Candidate>, n: nat, i: nat) returns (j: nat)
    requires i < |cs| && Eligible(cs[i]) && cs[i].length == n
    ensures j <= i && Eligible(cs[j]) && cs[j].length == n
    ensures forall h :: 0 <= h < j && Eligible(cs[h]) ==> cs[h].length != n
  {
    j := 0;
    while !(Eligible(cs[j]) && cs[j].length == n)
      invariant j <= i && forall h :: 0 <= h < j && Eligible(cs[h]) ==> cs[h].length != n
      decreases i - j
    {
      j := j + 1;
    }
  }

  lemma WholeStemIsHidden(m: string, selectors: seq<Selector>, i: nat, k: nat)
    requires i < k < |selectors| && |selectors[i].selector| == |m| > 0 && IsApplicable(selectors[i].selector, m)
    requires selectors[k].selector == m + "*"
    requires forall h :: 0 <= h < k ==> selectors[h].selector != m + "*"
    ensures HidesLonger(Candidates(m, selectors), |m|)
  {
    var cs := Candidates(m, selectors);
    CandidateLengths(m, selectors);
    WholeStemApplies(m);
    assert Eligible(cs[i]) && cs[i].length == |m|;
    var j := FirstOfLength(cs, |m|, i);
    forall h | 0 <= h < j && Eligible(cs[h]) ensures cs[h].length < cs[j].length {
      assert IsApplicable(selectors[h].selector, m);
    }
    assert LongestSoFar(cs, j) && Eligible(cs[k]);
  }

  lemma OnlyWholeStemIsHidden(m: string, selectors: seq<Selector>, i: nat, k: nat)
    requires var cs := Candidates(m, selectors);
      i < k < |cs| && LongestSoFar(cs, i) && cs[i].length == |m| && Eligible(cs[k]) && cs[k].length > |m|
    ensures HidesWholeStem(m, selectors)
  {
    var cs := Candidates(m, selectors);
    CandidateLengths(m, selectors);
    WholeStemApplies(m);
    assert IsApplicable(selectors[i].selector, m) && IsApplicable(selectors[k].selector, m);
    var j := FirstOfLength(cs, |m| + 1, k);
    assert IsApplicable(selectors[j].selector, m);
    assert i < j;
    forall h | 0 <= h < j ensures selectors[h].selector != m + "*" {
      assert cs[h] == Candidate(IsApplicable(selectors[h].selector, m), |selectors[h].selector|);
    }
  }

  lemma HidesLongerIff(m: string, selectors: seq<Selector>)
    ensures HidesLonger(Candidates(m, selectors), |m|) <==> HidesWholeStem(m, selectors)
  {
    var cs := Candidates(m, selectors);
    if HidesWholeStem(m, selectors) {
      var i, k :| 0 <= i < k < |selectors|
        && selectors[i].selector != "" && |selectors[i].selector| == |m| && IsApplicable(selectors[i].selector, m)
        && selectors[k].selector == m + "*" && forall h :: 0 <= h < k ==> selectors[h].selector != m + "*";
      WholeStemIsHidden(m, selectors, i, k);
    }
    if HidesLonger(cs, |m|) {
      var i, k :| 0 <= i < k < |cs| && LongestSoFar(cs, i) && cs[i].length == |m| && Eligible(cs[k]) && cs[k].length > |m|;
      OnlyWholeStemIsHidden(m, selectors, i, k);
    }
  }

  /** So the selected one is within one character of every applicable one, and it is the first longest
      exactly when no selector as long as the method hides the method followed by a wildcard. */
  lemma SelectedIsNearlyLongest(methodIdentifier: string, selectors: seq<Selector>, k: nat)
    requires IsSelected(Candidates(methodIdentifier, selectors), |methodIdentifier|, Some(k))
    ensures forall i :: 0 <= i < |selectors| && IsApplicable(selectors[i].selector, methodIdentifier) ==>
              |selectors[i].selector| <= |selectors[k].selector| + 1
    ensures FirstLongest(Candidates(methodIdentifier, selectors), k) <==> !HidesWholeStem(methodIdentifier, selectors)
  {
    var cs := Candidates(methodIdentifier, selectors);
    CandidateLengths(methodIdentifier, selectors);
    HidesLongerIff(methodIdentifier, selectors);
    ShortCircuitIsExactIff(cs, |methodIdentifier|, k);
    forall i | 0 <= i < |selectors| && IsApplicable(selectors[i].selector, methodIdentifier)
      ensures |selectors[i].selector| <= |selectors[k].selector| + 1
    {
      assert Eligible(cs[i]) || selectors[i].selector == "";
    }
  }

  /** It does happen. */
  lemma AnExactSelectorCanHideALongerOne(directive: Option<Directive>, logType: Option<LogType>)
    ensures var selectors := [Selector("s/m", directive, logType), Selector("s/m*", directive, logType)];
      && IsSelected(Candidates("s/m", selectors), |"s/m"|, Some(0))
      && IsApplicable("s/m*", "s/m") && !FirstLongest(Candidates("s/m", selectors), 0)
  {
    var cs := Candidates("s/m", [Selector("s/m", directive, logType), Selector("s/m*", directive, logType)]);
    assert Stem("s/m*") == "s/m";
    assert cs[0] == Candidate(true, 3) && cs[1] == Candidate(true, 4);
    assert LongestSoFar(cs, 0) && Eligible(cs[1]);
  }

  lemma WholeStemApplies(methodIdentifier: string)
    ensures IsApplicable(methodIdentifier + "*", methodIdentifier)
  {
    assert (methodIdentifier + "*")[..|methodIdentifier|] == methodIdentifier;
  }

  class Interceptor {
    const rules: seq<Selector>
    var memo: map<string, Option<nat>>

    constructor (rules: seq<Selector>)
      ensures this.rules == rules && Valid() && memo == map[]
    {
      this.rules, memo := rules, map[];
    }

    /** Every remembered answer is what a direct search gives. */
    ghost predicate Valid()
      reads this
    {
      forall m :: m in memo ==> IsSelected(Candidates(m, rules), |m|, memo[m])
    }

    /** Whatever calls came before, the answer is the direct one; memory only grows, and only by it. */
    method GetRelevantSelector(methodIdentifier: string) returns (r: Option<nat>)
      requires Valid()
      modifies this
      ensures Valid()
      ensures IsSelected(Candidates(methodIdentifier, rules), |methodIdentifier|, r)
      ensures memo == old(memo)[methodIdentifier := r]
      ensures methodIdentifier in old(memo) ==> memo == old(memo)
    {
      if methodIdentifier in memo {
        return memo[methodIdentifier];
      }
      r := ReturnMostRelevant(methodIdentifier, rules);
      if methodIdentifier !in memo {
        memo := memo[methodIdentifier := r];
      }
    }
  }
}
