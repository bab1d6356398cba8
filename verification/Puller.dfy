/** Puller.Pull: a bounded collecting loop inside a retried closure. */
module Puller {
  import opened AuditLog

  /** One attempt lists the entries from the start; it may fail at the k-th call of the iterator. The
      schedule gives the attempts the retry strategy allows, and has at least one. */
  type FailsAt = Option<nat>

  function Min(a: int, b: int): int {
    if a < b then a else b
  }

  /** How many entries one attempt adds when `have` are there already, and whether it succeeds. */
  function Attempt(n: nat, maxCount: int, have: nat, fails: FailsAt): (r: (nat, bool))
    ensures r.0 <= n
    ensures have + r.0 <= if have < maxCount then maxCount else have
    ensures !r.1 ==> have + r.0 < maxCount
  {
    if have >= maxCount then (0, true)
    else
      var k := Min(n, maxCount - have);
      if fails.Some? && fails.value <= n && have + fails.value < maxCount then (fails.value, false) else (k, true)
  }

  /** The numbers of entries added by each attempt up to the first that succeeds; None if none does. */
  function Added(n: nat, maxCount: int, have: nat, schedule: seq<FailsAt>): (r: Option<seq<nat>>)
    ensures r.Some? ==> 0 < |r.value| <= |schedule| && forall i :: 0 <= i < |r.value| ==> r.value[i] <= n
    decreases |schedule|
  {
    if schedule == [] then None
    else
      var (k, ok) := Attempt(n, maxCount, have, schedule[0]);
      if ok then Some([k])
      else
        match Added(n, maxCount, have + k, schedule[1..])
        case None => None
        case Some(ks) => Some([k] + ks)
  }

  /** One prefix of the listing for each number, one after the other. */
  function Prefixes<T>(listing: seq<T>, ks: seq<nat>): seq<T>
    requires forall i :: 0 <= i < |ks| ==> ks[i] <= |listing|
  {
    if ks == [] then [] else listing[..ks[0]] + Prefixes(listing, ks[1..])
  }

  /** The loop of one attempt: `ls` comes in with what earlier attempts left, and is only added to. */
  method Collect<T>(listing: seq<T>, maxCount: int, fails: FailsAt, before: seq<T>) returns (ls: seq<T>, ok: bool)
    ensures var (k, succeeds) := Attempt(|listing|, maxCount, |before|, fails);
            ls == before + listing[..k] && ok == succeeds
  {
    ls := before;
    var next := 0;
    while |ls| < maxCount
      invariant 0 <= next <= |listing| && ls == before + listing[..next]
      invariant next > 0 ==> |ls| <= maxCount
      invariant fails.Some? ==> fails.value >= next || |before| >= maxCount
      decreases |listing| - next
    {
      if fails == Some(next) {
        return ls, false;
      }
      if next == |listing| {
        break;
      }
      assert listing[..next + 1] == listing[..next] + [listing[next]];
      ls := ls + [listing[next]];
      next := next + 1;
    }
    ok := true;
  }

  /** What remains of Pull when earlier attempts have left `ls`. */
  function Resumed<T>(listing: seq<T>, maxCount: int, ls: seq<T>, schedule: seq<FailsAt>): Option<seq<T>> {
    match Added(|listing|, maxCount, |ls|, schedule)
    case None => None
    case Some(ks) => Some(ls + Prefixes(listing, ks))
  }

  lemma ResumedStep<T>(listing: seq<T>, maxCount: int, ls: seq<T>, schedule: seq<FailsAt>)
    requires schedule != []
    ensures var (k, ok) := Attempt(|listing|, maxCount, |ls|, schedule[0]);
      Resumed(listing, maxCount, ls, schedule) ==
        if ok then Some(ls + listing[..k]) else Resumed(listing, maxCount, ls + listing[..k], schedule[1..])
  {
    var (k, ok) := Attempt(|listing|, maxCount, |ls|, schedule[0]);
    if ok {
      assert [k][1..] == [];
      assert Prefixes(listing, [k]) == listing[..k];
    } else if Added(|listing|, maxCount, |ls| + k, schedule[1..]).Some? {
      var ks := Added(|listing|, maxCount, |ls| + k, schedule[1..]).value;
      assert ([k] + ks)[1..] == ks;
      assert ls + (listing[..k] + Prefixes(listing, ks)) == (ls + listing[..k]) + Prefixes(listing, ks);
    }
  }

  method Pull<T>(listing: seq<T>, maxCount: int, schedule: seq<FailsAt>) returns (r: Option<seq<T>>)
    requires schedule != []
    ensures r == Resumed(listing, maxCount, [], schedule)
    ensures r == match Added(|listing|, maxCount, 0, schedule)
                 case None => None
                 case Some(ks) => Some(Prefixes(listing, ks))
  {
    var ls: seq<T> := [];
    ghost var want := Resumed(listing, maxCount, [], schedule);
    assert schedule[0..] == schedule;
    if Added(|listing|, maxCount, 0, schedule).Some? {
      ghost var ks := Added(|listing|, maxCount, 0, schedule).value;
      assert [] + Prefixes(listing, ks) == Prefixes(listing, ks);
    }
    for i := 0 to |schedule|
      invariant Resumed(listing, maxCount, ls, schedule[i..]) == want
    {
      ResumedStep(listing, maxCount, ls, schedule[i..]);
      var ok;
      ls, ok := Collect(listing, maxCount, schedule[i], ls);
      assert schedule[i..][1..] == schedule[i + 1..];
      if ok {
        return Some(ls);
      }
    }
    r := None;
  }

  // ---- what Pull promises ----

  lemma {:induction false} AddedWithinLimit<T>(listing: seq<T>, maxCount: int, have: nat, schedule: seq<FailsAt>)
    requires Added(|listing|, maxCount, have, schedule).Some?
    ensures have + |Prefixes(listing, Added(|listing|, maxCount, have, schedule).value)| <=
            if have < maxCount then maxCount else have
    decreases |schedule|
  {
    var (k, ok) := Attempt(|listing|, maxCount, have, schedule[0]);
    var ks := Added(|listing|, maxCount, have, schedule).value;
    assert ks[0] == k;
    if ok {
      assert ks[1..] == [];
    } else {
      AddedWithinLimit(listing, maxCount, have + k, schedule[1..]);
      assert ks[1..] == Added(|listing|, maxCount, have + k, schedule[1..]).value;
    }
  }

  /** A successful Pull returns at most maxCount entries, one prefix of the listing per attempt; and when
      the first attempt succeeds, exactly the first entries of the listing, up to maxCount of them. */
  lemma PullIsBounded<T>(listing: seq<T>, maxCount: int, schedule: seq<FailsAt>)
    requires maxCount > 0 && Added(|listing|, maxCount, 0, schedule).Some?
    ensures var ks := Added(|listing|, maxCount, 0, schedule).value;
      && |Prefixes(listing, ks)| <= maxCount
      && (|ks| == 1 ==> Prefixes(listing, ks) == listing[..Min(maxCount, |listing|)])
  {
    AddedWithinLimit(listing, maxCount, 0, schedule);
    var ks := Added(|listing|, maxCount, 0, schedule).value;
    if |ks| == 1 {
      assert ks[1..] == [];
      assert Attempt(|listing|, maxCount, 0, schedule[0]).1;
    }
  }

  ghost predicate NoDuplicates<T>(s: seq<T>) {
    forall i, j :: 0 <= i < j < |s| ==> s[i] != s[j]
  }

  /** Every attempt but the last failed before it added anything. */
  ghost predicate FailuresAddedNothing(ks: seq<nat>) {
    forall i :: 0 <= i < |ks| - 1 ==> ks[i] == 0
  }

  lemma {:induction false} PrefixesSnoc<T>(listing: seq<T>, ks: seq<nat>, k: nat)
    requires k <= |listing| && forall i :: 0 <= i < |ks| ==> ks[i] <= |listing|
    ensures Prefixes(listing, ks + [k]) == Prefixes(listing, ks) + listing[..k]
    decreases |ks|
  {
    if ks == [] {
      assert ks + [k] == [k] && [k][1..] == [];
    } else {
      assert (ks + [k])[1..] == ks[1..] + [k];
      PrefixesSnoc(listing, ks[1..], k);
    }
  }

  /** The first entry of the listing starts every non-empty concatenation of prefixes. */
  lemma {:induction false} StartsWithFirst<T>(listing: seq<T>, ks: seq<nat>)
    requires forall i :: 0 <= i < |ks| ==> ks[i] <= |listing|
    ensures Prefixes(listing, ks) == [] <==> forall i :: 0 <= i < |ks| ==> ks[i] == 0
    ensures Prefixes(listing, ks) != [] ==> listing != [] && Prefixes(listing, ks)[0] == listing[0]
    decreases |ks|
  {
    if ks != [] {
      StartsWithFirst(listing, ks[1..]);
      if ks[0] == 0 {
        assert Prefixes(listing, ks) == Prefixes(listing, ks[1..]);
        assert forall i :: 1 <= i < |ks| ==> ks[i] == ks[1..][i - 1];
      }
    }
  }

  /** The last attempt adds all it can. */
  lemma {:induction false} LastAdds(n: nat, maxCount: int, have: nat, schedule: seq<FailsAt>)
    requires have < maxCount && Added(n, maxCount, have, schedule).Some?
    ensures var ks := Added(n, maxCount, have, schedule).value;
            && (n > 0 ==> ks[|ks| - 1] > 0)
            && (FailuresAddedNothing(ks) ==> ks[|ks| - 1] == Min(n, maxCount - have))
    decreases |schedule|
  {
    var (k, ok) := Attempt(n, maxCount, have, schedule[0]);
    if !ok {
      LastAdds(n, maxCount, have + k, schedule[1..]);
      var ks := Added(n, maxCount, have, schedule).value;
      var more := Added(n, maxCount, have + k, schedule[1..]).value;
      assert ks[0] == k && ks[1..] == more && ks[|ks| - 1] == more[|more| - 1];
      assert forall i :: 0 <= i < |more| ==> more[i] == ks[i + 1];
    }
  }

  /** An attempt that starts with nothing collected and is not stopped before it is done. */
  predicate Completes(n: nat, maxCount: int, fails: FailsAt) {
    fails.None? || fails.value > n || fails.value >= maxCount
  }

  /** Every attempt before the first that completes fails at its first call of the iterator. */
  ghost predicate FailsOnlyAtOnce(n: nat, maxCount: int, schedule: seq<FailsAt>) {
    exists p :: 0 <= p < |schedule| && Completes(n, maxCount, schedule[p])
                && forall i :: 0 <= i < p ==> schedule[i] == Some(0)
  }

  /** In terms of the schedule: that is when failures add nothing. */
  lemma {:induction false} FailuresAddNothingIff(n: nat, maxCount: int, schedule: seq<FailsAt>)
    requires maxCount > 0
    ensures FailsOnlyAtOnce(n, maxCount, schedule) <==>
            var added := Added(n, maxCount, 0, schedule); added.Some? && FailuresAddedNothing(added.value)
    decreases |schedule|
  {
    if schedule != [] {
      var (k, ok) := Attempt(n, maxCount, 0, schedule[0]);
      var rest := schedule[1..];
      if ok {
        assert Completes(n, maxCount, schedule[0]);
      } else if schedule[0] == Some(0) {
        FailuresAddNothingIff(n, maxCount, rest);
        LaterCompletion(n, maxCount, schedule);
        var more := Added(n, maxCount, 0, rest);
        if more.Some? {
          FailuresPrepend(0, more.value);
        }
      } else if Added(n, maxCount, 0, schedule).Some? {
        assert Added(n, maxCount, 0, schedule).value[0] == k > 0;
      }
    }
  }

  lemma FailuresPrepend(k: nat, ks: seq<nat>)
    requires ks != []
    ensures FailuresAddedNothing([k] + ks) <==> k == 0 && FailuresAddedNothing(ks)
  {
    var all := [k] + ks;
    assert all[0] == k && forall i :: 0 <= i < |ks| ==> ks[i] == all[i + 1];
  }

  lemma LaterCompletion(n: nat, maxCount: int, schedule: seq<FailsAt>)
    requires maxCount > 0 && schedule != [] && schedule[0] == Some(0)
    ensures FailsOnlyAtOnce(n, maxCount, schedule) <==> FailsOnlyAtOnce(n, maxCount, schedule[1..])
  {
    var rest := schedule[1..];
    if FailsOnlyAtOnce(n, maxCount, schedule) {
      var p :| 0 <= p < |schedule| && Completes(n, maxCount, schedule[p]) && forall i :: 0 <= i < p ==> schedule[i] == Some(0);
      assert rest[p - 1] == schedule[p] && forall i :: 0 <= i < p - 1 ==> rest[i] == schedule[i + 1];
    }
    if FailsOnlyAtOnce(n, maxCount, rest) {
      var p :| 0 <= p < |rest| && Completes(n, maxCount, rest[p]) && forall i :: 0 <= i < p ==> rest[i] == Some(0);
      assert schedule[p + 1] == rest[p] && forall i :: 0 < i < p + 1 ==> schedule[i] == rest[i - 1];
    }
  }

  /** Pull returns the first entries of a listing without duplicates, up to maxCount of them, exactly
      when every attempt before the first that completes fails at once. */
  lemma PullIsExactIff<T>(listing: seq<T>, maxCount: int, schedule: seq<FailsAt>)
    requires maxCount > 0 && NoDuplicates(listing)
    ensures Resumed(listing, maxCount, [], schedule) == Some(listing[..Min(maxCount, |listing|)]) <==>
            FailsOnlyAtOnce(|listing|, maxCount, schedule)
  {
    FailuresAddNothingIff(|listing|, maxCount, schedule);
    var added := Added(|listing|, maxCount, 0, schedule);
    if added.Some? {
      assert [] + Prefixes(listing, added.value) == Prefixes(listing, added.value);
      ExactWhenFailuresAddNothing(listing, maxCount, schedule);
    }
  }

  lemma ExactWhenFailuresAddNothing<T>(listing: seq<T>, maxCount: int, schedule: seq<FailsAt>)
    requires maxCount > 0 && NoDuplicates(listing) && Added(|listing|, maxCount, 0, schedule).Some?
    ensures var ks := Added(|listing|, maxCount, 0, schedule).value;
      Prefixes(listing, ks) == listing[..Min(maxCount, |listing|)] <==> FailuresAddedNothing(ks)
  {
    var ks := Added(|listing|, maxCount, 0, schedule).value;
    var n := |ks| - 1;
    var before, last := ks[..n], ks[n];
    assert ks == before + [last];
    LastAdds(|listing|, maxCount, 0, schedule);
    PrefixesSnoc(listing, before, last);
    StartsWithFirst(listing, before);
    var r, early := Prefixes(listing, ks), Prefixes(listing, before);
    if FailuresAddedNothing(ks) {
      assert early == [];
    } else {
      assert early != [];
      assert r[0] == listing[0] && r[|early|] == listing[0];
      if |early| < Min(maxCount, |listing|) {
        assert listing[..Min(maxCount, |listing|)][|early|] == listing[|early|] != listing[0];
      }
    }
  }

  /** It does happen: an attempt that fails at its second call leaves its first entry behind. */
  lemma PullCanDuplicate<T>(a: T, b: T)
    requires a != b
    ensures Resumed([a, b], 2, [], [Some(1), None]) == Some([a, a])
  {
    var schedule: seq<FailsAt> := [Some(1), None];
    ResumedStep([a, b], 2, [], schedule);
    assert schedule[1..] == [None];
    assert [] + [a, b][..1] == [a] && [a] + [a, b][..1] == [a, a];
    ResumedStep([a, b], 2, [a], [None]);
  }
}
