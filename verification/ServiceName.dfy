/** serviceName: a regular expression on the full method name, matched by backtracking. */
module ServiceName {
  import opened AuditLog

  /** The constructs the pattern uses. `Alt` prefers its first branch; `LazyStar` prefers to stop. */
  datatype Re =
    | Chr(c: char)
    | Dot                  // any character but a newline
    | Eps
    | Cat(head: Re, tail: Re)
    | Alt(preferred: Re, other: Re)
    | LazyStar(body: Re)
    | Group(body: Re)

  /** Where a match ends, and the span of the group if it took part. */
  datatype Out = Out(end: nat, group: Option<(nat, nat)>)

  ghost predicate Within(outs: seq<Out>, p: nat, s: string) {
    forall i :: 0 <= i < |outs| ==> p <= outs[i].end <= |s|
  }

  /** All matches of re at position p, in the order a leftmost-first matcher tries them. */
  function Matches(re: Re, s: string, p: nat, g: Option<(nat, nat)>): (outs: seq<Out>)
    requires p <= |s|
    ensures Within(outs, p, s)
    decreases re, |s| - p, 1, 0
  {
    match re
    case Chr(c) => if p < |s| && s[p] == c then [Out(p + 1, g)] else []
    case Dot => if p < |s| && s[p] != '\n' then [Out(p + 1, g)] else []
    case Eps => [Out(p, g)]
    case Cat(head, tail) => Continue(Matches(head, s, p, g), tail, s, p)
    case Alt(preferred, other) => Matches(preferred, s, p, g) + Matches(other, s, p, g)
    case LazyStar(body) => [Out(p, g)] + Repeat(Matches(body, s, p, g), re, s, p)
    case Group(body) => Captured(Matches(body, s, p, g), p, s)
  }

  /** After each of the given matches, in order, match re. */
  function Continue(outs: seq<Out>, re: Re, s: string, p: nat): (r: seq<Out>)
    requires Within(outs, p, s)
    ensures Within(r, p, s)
    decreases re, |s| + 1, 0, |outs|
  {
    if outs == [] then []
    else Matches(re, s, outs[0].end, outs[0].group) + Continue(outs[1..], re, s, p)
  }

  /** As Continue, for another round of a star: rounds that consume nothing are not repeated. */
  function Repeat(outs: seq<Out>, star: Re, s: string, p: nat): (r: seq<Out>)
    requires p <= |s| && Within(outs, p, s)
    ensures Within(r, p, s)
    decreases star, |s| - p, 0, |outs|
  {
    if outs == [] then []
    else (if outs[0].end > p then Matches(star, s, outs[0].end, outs[0].group) else []) + Repeat(outs[1..], star, s, p)
  }

  function Captured(outs: seq<Out>, p: nat, s: string): (r: seq<Out>)
    requires Within(outs, p, s)
    ensures Within(r, p, s) && |r| == |outs|
    ensures forall i :: 0 <= i < |outs| ==> r[i] == Out(outs[i].end, Some((p, outs[i].end)))
  {
    if outs == [] then [] else [Out(outs[0].end, Some((p, outs[0].end)))] + Captured(outs[1..], p, s)
  }

  /** ^/{1,2}(.*?)/ */
  const SLASHES := Cat(Chr('/'), Alt(Chr('/'), Eps))
  const LAZILY := LazyStar(Dot)
  const TAIL := Cat(Group(LAZILY), Chr('/'))
  const SERVICE_PATTERN := Cat(SLASHES, TAIL)

  /** FindStringSubmatch and the check after it: the first match, if its group is not empty. */
  function ServiceNameOf(methodName: string): Option<string> {
    var outs := Matches(SERVICE_PATTERN, methodName, 0, None);
    if outs == [] || outs[0].group.None? then None
    else
      var (a, b) := outs[0].group.value;
      if a < b <= |methodName| then Some(methodName[a..b]) else None
  }

  // ---- the same by one scan ----

  /** The first slash or newline at or after p; |s| when there is none. */
  function NextStop(s: string, p: nat): (q: nat)
    requires p <= |s|
    ensures p <= q <= |s|
    ensures forall i :: p <= i < q ==> s[i] != '/' && s[i] != '\n'
    ensures q < |s| ==> s[q] == '/' || s[q] == '\n'
    decreases |s| - p
  {
    if p == |s| || s[p] == '/' || s[p] == '\n' then p else NextStop(s, p + 1)
  }

  function Scan(s: string): Option<string> {
    if s == "" || s[0] != '/' then None
    else
      var p := if |s| > 1 && s[1] == '/' then 2 else 1;
      var q := NextStop(s, p);
      if p < q < |s| && s[q] == '/' then Some(s[p..q]) else None
  }

  // ---- what the pattern's parts match ----

  /** The first newline at or after p; |s| when there is none. */
  function LineEnd(s: string, p: nat): (q: nat)
    requires p <= |s|
    ensures p <= q <= |s|
    decreases |s| - p
  {
    if p == |s| || s[p] == '\n' then p else LineEnd(s, p + 1)
  }

  /** .*? offers every end up to the end of the line, shortest first. */
  lemma {:induction false} LazilyMatches(s: string, p: nat, g: Option<(nat, nat)>)
    requires p <= |s|
    ensures Matches(LAZILY, s, p, g) == Ends(s, p, g)
    decreases |s| - p
  {
    LazilyUnfolds(s, p, g);
    if p < |s| && s[p] != '\n' {
      LazilyMatches(s, p + 1, g);
    }
    EndsUnfold(s, p, g);
  }

  /** The ends p, p + 1, ... up to the end of the line. */
  function Ends(s: string, p: nat, g: Option<(nat, nat)>): (outs: seq<Out>)
    requires p <= |s|
    ensures Within(outs, p, s)
  {
    seq(LineEnd(s, p) - p + 1, i requires 0 <= i <= LineEnd(s, p) - p => Out(p + i, g))
  }

  lemma EndsUnfold(s: string, p: nat, g: Option<(nat, nat)>)
    requires p <= |s|
    ensures Ends(s, p, g) == [Out(p, g)] + if p < |s| && s[p] != '\n' then Ends(s, p + 1, g) else []
  {
  }

  lemma LazilyUnfolds(s: string, p: nat, g: Option<(nat, nat)>)
    requires p <= |s|
    ensures Matches(LAZILY, s, p, g) ==
            [Out(p, g)] + if p < |s| && s[p] != '\n' then Matches(LAZILY, s, p + 1, g) else []
  {
    var outs := Matches(Dot, s, p, g);
    if p < |s| && s[p] != '\n' {
      assert outs == [Out(p + 1, g)] && outs[1..] == [];
      RepeatOne(Out(p + 1, g), s, p);
    }
  }

  lemma RepeatOne(out: Out, s: string, p: nat)
    requires p < out.end <= |s|
    ensures Repeat([out], LAZILY, s, p) == Matches(LAZILY, s, out.end, out.group)
  {
    assert [out][1..] == [];
    assert Repeat([], LAZILY, s, p) == [];
  }

  /** Continuing with a slash keeps, in order, the matches that a slash follows. */
  lemma {:induction false} FirstSlash(outs: seq<Out>, s: string, p: nat, k: nat)
    requires Within(outs, p, s) && k < |outs|
    requires forall i :: 0 <= i < k ==> !(outs[i].end < |s| && s[outs[i].end] == '/')
    requires outs[k].end < |s| && s[outs[k].end] == '/'
    ensures var r := Continue(outs, Chr('/'), s, p); r != [] && r[0] == Out(outs[k].end + 1, outs[k].group)
    decreases |outs|
  {
    var here := Matches(Chr('/'), s, outs[0].end, outs[0].group);
    if k > 0 {
      FirstSlash(outs[1..], s, p, k - 1);
      assert here == [];
      assert here + Continue(outs[1..], Chr('/'), s, p) == Continue(outs[1..], Chr('/'), s, p);
    } else {
      assert here == [Out(outs[0].end + 1, outs[0].group)];
    }
  }

  lemma {:induction false} NoSlash(outs: seq<Out>, s: string, p: nat)
    requires Within(outs, p, s)
    requires forall i :: 0 <= i < |outs| ==> !(outs[i].end < |s| && s[outs[i].end] == '/')
    ensures Continue(outs, Chr('/'), s, p) == []
    decreases |outs|
  {
    if outs != [] {
      NoSlash(outs[1..], s, p);
    }
  }

  lemma {:induction false} StopsWithinLine(s: string, p: nat)
    requires p <= |s|
    ensures NextStop(s, p) <= LineEnd(s, p)
    ensures LineEnd(s, p) < |s| ==> s[LineEnd(s, p)] == '\n'
    ensures forall i :: p <= i < LineEnd(s, p) ==> s[i] != '\n'
    decreases |s| - p
  {
    if p < |s| && s[p] != '\n' {
      StopsWithinLine(s, p + 1);
    }
  }

  lemma TailIs(s: string, p: nat)
    requires p <= |s|
    ensures Matches(TAIL, s, p, None) == Continue(Captured(Ends(s, p, None), p, s), Chr('/'), s, p)
  {
    LazilyMatches(s, p, None);
  }

  /** (.*?)/ at p: the group ends at the next stop if that is a slash; otherwise there is no match,
      since no slash can be reached without crossing a newline. */
  lemma TailMatches(s: string, p: nat)
    requires p <= |s|
    ensures var q, outs := NextStop(s, p), Matches(TAIL, s, p, None);
      if q < |s| && s[q] == '/' then outs != [] && outs[0] == Out(q + 1, Some((p, q))) else outs == []
  {
    TailIs(s, p);
    SlashAfterLazily(s, p, Captured(Ends(s, p, None), p, s));
  }

  lemma SlashAfterLazily(s: string, p: nat, groups: seq<Out>)
    requires p <= |s| && |groups| == LineEnd(s, p) - p + 1
    requires forall i :: 0 <= i < |groups| ==> groups[i] == Out(p + i, Some((p, p + i)))
    ensures Within(groups, p, s)
    ensures var q, outs := NextStop(s, p), Continue(groups, Chr('/'), s, p);
      if q < |s| && s[q] == '/' then outs != [] && outs[0] == Out(q + 1, Some((p, q))) else outs == []
  {
    var q := NextStop(s, p);
    StopsWithinLine(s, p);
    if q < |s| && s[q] == '/' {
      FirstSlash(groups, s, p, q - p);
    } else {
      assert q == LineEnd(s, p);
      NoSlash(groups, s, p);
    }
  }

  lemma ContinueOne(a: Out, re: Re, s: string)
    requires a.end <= |s|
    ensures Continue([a], re, s, 0) == Matches(re, s, a.end, a.group)
  {
    assert [a][1..] == [];
    assert Continue([], re, s, 0) == [];
  }

  lemma ContinueTwo(a: Out, b: Out, re: Re, s: string)
    requires a.end <= |s| && b.end <= |s|
    ensures Continue([a, b], re, s, 0) == Matches(re, s, a.end, a.group) + Matches(re, s, b.end, b.group)
  {
    assert [a, b][1..] == [b];
    ContinueOne(b, re, s);
  }

  lemma SlashesMatch(s: string)
    ensures Matches(SLASHES, s, 0, None) ==
      if s == "" || s[0] != '/' then []
      else if |s| > 1 && s[1] == '/' then [Out(2, None), Out(1, None)]
      else [Out(1, None)]
  {
    if s != "" && s[0] == '/' {
      assert Matches(Chr('/'), s, 0, None) == [Out(1, None)];
      ContinueOne(Out(1, None), Alt(Chr('/'), Eps), s);
    }
  }

  lemma PatternIs(s: string)
    ensures Matches(SERVICE_PATTERN, s, 0, None) == Continue(Matches(SLASHES, s, 0, None), TAIL, s, 0)
  {
  }

  /** The whole pattern: two slashes are tried before one. */
  lemma PatternMatches(s: string)
    ensures Matches(SERVICE_PATTERN, s, 0, None) ==
      if s == "" || s[0] != '/' then []
      else if |s| > 1 && s[1] == '/' then Matches(TAIL, s, 2, None) + Matches(TAIL, s, 1, None)
      else Matches(TAIL, s, 1, None)
  {
    PatternIs(s);
    SlashesMatch(s);
    if s != "" && s[0] == '/' {
      ContinueOne(Out(1, None), TAIL, s);
      if |s| > 1 && s[1] == '/' {
        ContinueTwo(Out(2, None), Out(1, None), TAIL, s);
      }
    }
  }

  /** The first match of the pattern, if any, has the group of the next stop after the slashes; and
      giving the second slash back leaves an empty group. */
  lemma MatcherIsScan(s: string)
    ensures ServiceNameOf(s) == Scan(s)
  {
    PatternMatches(s);
    if s != "" && s[0] == '/' {
      TailMatches(s, 1);
      if |s| > 1 && s[1] == '/' {
        TailMatches(s, 2);
        assert NextStop(s, 1) == 1;
      }
    }
  }

  /** One or two slashes, then x, then a slash and anything, where x is not empty and holds neither a
      slash nor a newline. */
  ghost predicate IsService(s: string, x: string) {
    && x != "" && '/' !in x && '\n' !in x
    && exists rest: string :: s == "/" + x + "/" + rest || s == "//" + x + "/" + rest
  }

  lemma ScanIsService(s: string, x: string)
    requires Scan(s) == Some(x)
    ensures IsService(s, x)
  {
    var p := if |s| > 1 && s[1] == '/' then 2 else 1;
    var q := NextStop(s, p);
    var rest := s[q + 1..];
    assert x == s[p..q];
    assert s == s[..p] + (x + "/" + rest);
    if p == 1 {
      assert s[..p] == "/";
      assert s == "/" + x + "/" + rest;
    } else {
      assert s[..p] == "//";
      assert s == "//" + x + "/" + rest;
    }
  }

  lemma ServiceIsScanned(s: string, x: string)
    requires IsService(s, x)
    ensures Scan(s) == Some(x)
  {
    var rest :| s == "/" + x + "/" + rest || s == "//" + x + "/" + rest;
    if s == "/" + x + "/" + rest {
      Between("/", x, rest, s);
      NextStopIs(s, 1, 1 + |x|);
    } else {
      Between("//", x, rest, s);
      NextStopIs(s, 2, 2 + |x|);
    }
  }

  lemma Between(slashes: string, x: string, rest: string, s: string)
    requires s == slashes + x + "/" + rest
    ensures |slashes| + |x| < |s| && s[..|slashes|] == slashes && s[|slashes|..|slashes| + |x|] == x
    ensures s[|slashes| + |x|] == '/'
    ensures forall i :: 0 <= i < |slashes| ==> s[i] == slashes[i]
    ensures forall i :: |slashes| <= i < |slashes| + |x| ==> s[i] == x[i - |slashes|]
  {
  }

  lemma {:induction false} NextStopIs(s: string, p: nat, q: nat)
    requires p <= q < |s| && s[q] == '/'
    requires forall i :: p <= i < q ==> s[i] != '/' && s[i] != '\n'
    ensures NextStop(s, p) == q
    decreases q - p
  {
    if p < q {
      NextStopIs(s, p + 1, q);
    }
  }

  /** serviceName succeeds with x exactly on /x/... and //x/..., and x is then unique. */
  lemma ServiceNameIff(s: string, x: string)
    ensures ServiceNameOf(s) == Some(x) <==> IsService(s, x)
  {
    MatcherIsScan(s);
    if Scan(s) == Some(x) { ScanIsService(s, x); }
    if IsService(s, x) { ServiceIsScanned(s, x); }
  }
}
