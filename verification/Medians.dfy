/** The lower median, by sorting and by counting. */
module Medians {
  import opened Sorting

  /** The middle of a sorted copy, rounding down. */
  ghost predicate IsLowerMedian(m: real, values: seq<real>) {
    exists s :: SortedReals(s) && multiset(s) == multiset(values) && |s| > 0 && m == s[(|s| - 1) / 2]
  }

  lemma MedianIsMember(m: real, values: seq<real>)
    requires IsLowerMedian(m, values)
    ensures m in values
  {
    var s :| SortedReals(s) && multiset(s) == multiset(values) && |s| > 0 && m == s[(|s| - 1) / 2];
    assert m in multiset(s);
  }

  // ---------------------------------------------------------------- counting

  /** How many values lie below `m`. */
  ghost function Below(values: seq<real>, m: real): nat {
    if values == [] then 0 else Below(values[..|values| - 1], m) + if values[|values| - 1] < m then 1 else 0
  }

  /** How many lie at or below it. */
  ghost function UpTo(values: seq<real>, m: real): nat {
    if values == [] then 0 else UpTo(values[..|values| - 1], m) + if values[|values| - 1] <= m then 1 else 0
  }

  lemma {:induction false} CountsConcat(a: seq<real>, b: seq<real>, m: real)
    ensures Below(a + b, m) == Below(a, m) + Below(b, m) && UpTo(a + b, m) == UpTo(a, m) + UpTo(b, m)
  {
    if b == [] {
      assert a + b == a;
    } else {
      assert (a + b)[..|a + b| - 1] == a + b[..|b| - 1];
      CountsConcat(a, b[..|b| - 1], m);
    }
  }

  lemma CountsOne(x: real, m: real)
    ensures Below([x], m) == (if x < m then 1 else 0) && UpTo([x], m) == (if x <= m then 1 else 0)
  {
    assert [x][..0] == [];
  }

  lemma Removed(t: seq<real>, k: nat)
    requires k < |t|
    ensures multiset(t) == multiset(t[..k] + t[k + 1..]) + multiset{t[k]}
  {
    assert t == t[..k] + [t[k]] + t[k + 1..];
  }

  lemma CountsRemoved(t: seq<real>, k: nat, m: real)
    requires k < |t|
    ensures Below(t, m) == Below(t[..k] + t[k + 1..], m) + (if t[k] < m then 1 else 0)
    ensures UpTo(t, m) == UpTo(t[..k] + t[k + 1..], m) + (if t[k] <= m then 1 else 0)
  {
    assert t == t[..k] + [t[k]] + t[k + 1..];
    CountsConcat(t[..k], t[k + 1..], m);
    CountsConcat(t[..k] + [t[k]], t[k + 1..], m);
    CountsConcat(t[..k], [t[k]], m);
    CountsOne(t[k], m);
  }

  /** The order does not matter. */
  lemma {:induction false} CountsOrderFree(s: seq<real>, t: seq<real>, m: real)
    requires multiset(s) == multiset(t)
    decreases |s|
    ensures |s| == |t| && Below(s, m) == Below(t, m) && UpTo(s, m) == UpTo(t, m)
  {
    assert |s| == |multiset(s)| == |multiset(t)| == |t|;
    if s != [] {
      var x, last := s[|s| - 1], |s| - 1;
      assert x in multiset(t);
      var k :| 0 <= k < |t| && t[k] == x;
      Removed(s, last);
      Removed(t, k);
      assert multiset(s[..last] + s[last + 1..]) == multiset(s) - multiset{x};
      assert multiset(t[..k] + t[k + 1..]) == multiset(t) - multiset{x};
      CountsOrderFree(s[..last] + s[last + 1..], t[..k] + t[k + 1..], m);
      CountsRemoved(s, last, m);
      CountsRemoved(t, k, m);
    }
  }

  /** In a sorted sequence the values below `m` come first, then those equal to it. */
  lemma {:induction false} SortedCounts(s: seq<real>, m: real)
    requires SortedReals(s)
    ensures Below(s, m) <= UpTo(s, m) <= |s|
    ensures forall i :: 0 <= i < |s| ==> (s[i] < m <==> i < Below(s, m)) && (s[i] <= m <==> i < UpTo(s, m))
  {
    if s != [] {
      var init := s[..|s| - 1];
      SortedCounts(init, m);
      assert forall i :: 0 <= i < |init| ==> s[i] == init[i];
      if Below(init, m) < |init| {
        assert init[|init| - 1] == s[|s| - 2] <= s[|s| - 1];
      }
      if UpTo(init, m) < |init| {
        assert init[|init| - 1] == s[|s| - 2] <= s[|s| - 1];
      }
    }
  }

  lemma {:induction false} SortedCopy(values: seq<real>) returns (s: seq<real>)
    ensures SortedReals(s) && multiset(s) == multiset(values)
  {
    if values == [] {
      s := [];
    } else {
      var x := values[|values| - 1];
      var t := SortedCopy(values[..|values| - 1]);
      assert values == values[..|values| - 1] + [x];
      var i := UpTo(t, x);
      SortedCounts(t, x);
      s := t[..i] + [x] + t[i..];
      BetweenReals(t, x, i);
      assert t == t[..i] + t[i..];
    }
  }

  /** The lower median by counting: fewer than half of the values lie below it, rounding down, and
      more lie at or below it. */
  lemma MedianIff(m: real, values: seq<real>)
    requires values != []
    ensures IsLowerMedian(m, values) <==> Below(values, m) <= (|values| - 1) / 2 < UpTo(values, m)
  {
    if IsLowerMedian(m, values) {
      var s :| SortedReals(s) && multiset(s) == multiset(values) && |s| > 0 && m == s[(|s| - 1) / 2];
      CountsOrderFree(s, values, m);
      SortedCounts(s, m);
    }
    if Below(values, m) <= (|values| - 1) / 2 < UpTo(values, m) {
      var s := SortedCopy(values);
      CountsOrderFree(s, values, m);
      SortedCounts(s, m);
      assert m == s[(|s| - 1) / 2];
    }
  }
}
