/** The longest-selector search that both languages run, seen through what each selector contributes:
    whether it applies to the method, and its length. */
module Selection {
  import opened AuditLog

  predicate EndsInWildcard(s: string) {
    s != "" && s[|s| - 1] == '*'
  }

  function Stem(s: string): string
    requires EndsInWildcard(s)
  {
    s[..|s| - 1]
  }

  /** A selector of p and a wildcard, and a name of p and the rest. */
  ghost predicate Covers(selector: string, name: string, p: string, rest: string) {
    selector == p + "*" && name == p + rest
  }

  lemma CoversIff(selector: string, name: string)
    ensures EndsInWildcard(selector) && Stem(selector) <= name <==> exists p, rest :: Covers(selector, name, p, rest)
  {
    if EndsInWildcard(selector) && Stem(selector) <= name {
      var p := Stem(selector);
      assert selector == p + [selector[|p|]] && name == p + name[|p|..];
      assert Covers(selector, name, p, name[|p|..]);
    }
    forall p, rest | Covers(selector, name, p, rest) ensures EndsInWildcard(selector) && Stem(selector) <= name {
      assert Stem(selector) == p;
    }
  }

  datatype Candidate = Candidate(applies: bool, length: nat)

  predicate Eligible(c: Candidate) {
    c.applies && c.length > 0
  }

  /** Every eligible candidate before k is strictly shorter. */
  ghost predicate LongestSoFar(cs: seq<Candidate>, k: nat)
    requires k < |cs|
  {
    Eligible(cs[k]) && forall i :: 0 <= i < k && Eligible(cs[i]) ==> cs[i].length < cs[k].length
  }

  /** k is the first of the longest eligible candidates. */
  ghost predicate FirstLongest(cs: seq<Candidate>, k: nat)
    requires k < |cs|
  {
    LongestSoFar(cs, k) && forall i :: k < i < |cs| && Eligible(cs[i]) ==> cs[i].length <= cs[k].length
  }

  /** What the search gives: nothing iff nothing is eligible; otherwise a candidate that beats all
      before it, and all after it too unless its length is the method's, where the search stops. */
  ghost predicate IsSelected(cs: seq<Candidate>, methodLength: nat, r: Option<nat>) {
    match r
    case None => forall i :: 0 <= i < |cs| ==> !Eligible(cs[i])
    case Some(k) =>
      && k < |cs|
      && LongestSoFar(cs, k)
      && (cs[k].length != methodLength ==> FirstLongest(cs, k) && !StopsBefore(cs, methodLength, |cs|))
  }

  /** Some candidate before n, of exactly the method's length, stops the search. */
  ghost predicate StopsBefore(cs: seq<Candidate>, methodLength: nat, n: nat)
    requires n <= |cs|
  {
    exists k :: 0 <= k < n && LongestSoFar(cs, k) && cs[k].length == methodLength
  }

  /** That determines the result. */
  lemma SelectionIsUnique(cs: seq<Candidate>, methodLength: nat, r1: Option<nat>, r2: Option<nat>)
    requires IsSelected(cs, methodLength, r1) && IsSelected(cs, methodLength, r2)
    ensures r1 == r2
  {
  }

  /** A candidate of the method's length comes before a longer eligible one, and after no longer one. */
  ghost predicate HidesLonger(cs: seq<Candidate>, methodLength: nat) {
    exists i, k :: 0 <= i < k < |cs| && LongestSoFar(cs, i) && cs[i].length == methodLength
                   && Eligible(cs[k]) && cs[k].length > methodLength
  }

  /** The short-circuit returns the first longest eligible candidate exactly when it hides none. */
  lemma ShortCircuitIsExactIff(cs: seq<Candidate>, methodLength: nat, k: nat)
    requires IsSelected(cs, methodLength, Some(k))
    ensures FirstLongest(cs, k) <==> !HidesLonger(cs, methodLength)
  {
    if HidesLonger(cs, methodLength) {
      var i, j :| 0 <= i < j < |cs| && LongestSoFar(cs, i) && cs[i].length == methodLength
                  && Eligible(cs[j]) && cs[j].length > methodLength;
      assert StopsBefore(cs, methodLength, |cs|);
      assert cs[k].length == methodLength;
    } else if cs[k].length == methodLength {
      forall i | k < i < |cs| && Eligible(cs[i]) ensures cs[i].length <= cs[k].length {
        assert LongestSoFar(cs, k);
      }
    }
  }
}
