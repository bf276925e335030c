/** The sorts the kernels call. */
module Sorting {
  predicate Ascending(s: seq<nat>) { forall i, j :: 0 <= i < j < |s| ==> s[i] < s[j] }

  predicate Distinct(s: seq<nat>) { forall i, j :: 0 <= i < j < |s| ==> s[i] != s[j] }

  /** Inserts a number where it belongs. */
  method Insert(s: seq<nat>, x: nat) returns (r: seq<nat>)
    requires Ascending(s) && x !in s
    ensures Ascending(r) && |r| == |s| + 1 && forall y :: y in r <==> y == x || y in s
  {
    var i := 0;
    while i < |s| && s[i] < x
      invariant 0 <= i <= |s| && forall k :: 0 <= k < i ==> s[k] < x
    {
      i := i + 1;
    }
    r := s[..i] + [x] + s[i..];
    Between(s, x, i);
    assert s == s[..i] + s[i..];
  }

  lemma Between(s: seq<nat>, x: nat, i: nat)
    requires Ascending(s) && x !in s && i <= |s| && (forall k :: 0 <= k < i ==> s[k] < x) && (i < |s| ==> s[i] >= x)
    ensures Ascending(s[..i] + [x] + s[i..])
  {
    var r := s[..i] + [x] + s[i..];
    if i < |s| {
      assert s[i] in s;
    }
    forall a, b | 0 <= a < b < |r| ensures r[a] < r[b] {
      assert r[a] == if a < i then s[a] else if a == i then x else s[a - 1];
      assert r[b] == if b < i then s[b] else if b == i then x else s[b - 1];
    }
  }

  /** Distinct numbers, sorted. */
  method Sort(s0: seq<nat>) returns (r: seq<nat>)
    requires Distinct(s0)
    ensures Ascending(r) && |r| == |s0| && forall y :: y in r <==> y in s0
  {
    r := [];
    for i := 0 to |s0|
      invariant Ascending(r) && |r| == i && forall y :: y in r <==> y in s0[..i]
    {
      assert s0[i] !in s0[..i];
      assert s0[..i + 1] == s0[..i] + [s0[i]];
      r := Insert(r, s0[i]);
    }
    assert s0[..|s0|] == s0;
  }

  ghost predicate SortedReals(s: seq<real>) { forall i, j :: 0 <= i <= j < |s| ==> s[i] <= s[j] }

  method InsertReal(s: seq<real>, x: real) returns (r: seq<real>)
    requires SortedReals(s)
    ensures SortedReals(r) && multiset(r) == multiset(s) + multiset{x}
  {
    var i := 0;
    while i < |s| && s[i] <= x
      invariant 0 <= i <= |s| && forall k :: 0 <= k < i ==> s[k] <= x
    {
      i := i + 1;
    }
    r := s[..i] + [x] + s[i..];
    BetweenReals(s, x, i);
    assert s == s[..i] + s[i..];
  }

  lemma BetweenReals(s: seq<real>, x: real, i: nat)
    requires SortedReals(s) && i <= |s| && (forall k :: 0 <= k < i ==> s[k] <= x) && (i < |s| ==> s[i] > x)
    ensures SortedReals(s[..i] + [x] + s[i..])
  {
    var r := s[..i] + [x] + s[i..];
    forall a, b | 0 <= a <= b < |r| ensures r[a] <= r[b] {
      assert r[a] == if a < i then s[a] else if a == i then x else s[a - 1];
      assert r[b] == if b < i then s[b] else if b == i then x else s[b - 1];
    }
  }

  /** Numbers, sorted: a stable sort under a total order. */
  method SortReals(s0: seq<real>) returns (r: seq<real>)
    ensures SortedReals(r) && multiset(r) == multiset(s0)
  {
    r := [];
    for i := 0 to |s0|
      invariant SortedReals(r) && multiset(r) == multiset(s0[..i])
    {
      assert s0[..i + 1] == s0[..i] + [s0[i]];
      r := InsertReal(r, s0[i]);
    }
    assert s0[..|s0|] == s0;
  }
}
