/** A row-major tensor seen from one of its axes. */
module AxisViews {
  import opened Radix
  import opened Layouts
  import opened Tables

  /** A row-major tensor seen from one axis: what is before it, the axis, what is after it. */
  datatype Axes = Axes(left: nat, size: nat, right: nat) {
    function Count(): nat { left * size * right }
  }

  function AxesOf(dims: seq<nat>, dim: nat): Axes
    requires dim < |dims|
  {
    Axes(Prod(dims[..dim]), dims[dim], Prod(dims[dim + 1..]))
  }

  lemma Snoc(lo: seq<nat>, n: nat, cl: seq<int>, j: int)
    requires |lo| == |cl|
    ensures Prod(lo + [n]) == Prod(lo) * n && Ravel(lo + [n], cl + [j]) == Ravel(lo, cl) * n + j
  {
    assert Init(lo + [n]) == lo && Init(cl + [j]) == cl;
  }

  lemma ProdAround(lo: seq<nat>, n: nat, hi: seq<nat>)
    ensures Prod(lo + [n] + hi) == Prod(lo) * n * Prod(hi)
  {
    Snoc(lo, n, lo, 0);
    ProdConcat(lo + [n], hi);
    MulEq(Prod(lo + [n]), Prod(lo) * n, Prod(hi));
  }

  lemma RavelAround(lo: seq<nat>, n: nat, hi: seq<nat>, cl: seq<int>, j: int, ch: seq<int>)
    requires |lo| == |cl| && |hi| == |ch|
    ensures Ravel(lo + [n] + hi, cl + [j] + ch) == Pos3(Ravel(lo, cl), j, Ravel(hi, ch), n, Prod(hi))
  {
    Snoc(lo, n, cl, j);
    RavelConcat(lo + [n], hi, cl + [j], ch);
    MulEq(Ravel(lo + [n], cl + [j]), Ravel(lo, cl) * n + j, Prod(hi));
  }

  lemma Around<T>(s: seq<T>, i: nat)
    requires i < |s|
    ensures s[..i] + [s[i]] + s[i + 1..] == s
  {}

  lemma AxesCount(dims: seq<nat>, dim: nat)
    requires dim < |dims|
    ensures AxesOf(dims, dim).Count() == Prod(dims)
  {
    var lo, hi := dims[..dim], dims[dim + 1..];
    ProdAround(lo, dims[dim], hi);
    Around(dims, dim);
  }

  /** A position, seen from an axis. */
  lemma AxisPosition(dims: seq<nat>, dim: nat, c: seq<int>)
    requires dim < |dims| && |c| == |dims|
    ensures Ravel(dims, c) == Pos3(Ravel(dims[..dim], c[..dim]), c[dim], Ravel(dims[dim + 1..], c[dim + 1..]),
            dims[dim], Prod(dims[dim + 1..]))
  {
    var lo, hi := dims[..dim], dims[dim + 1..];
    RavelAround(lo, dims[dim], hi, c[..dim], c[dim], c[dim + 1..]);
    Around(dims, dim);
    Around(c, dim);
  }

  lemma Replaced<T>(s: seq<T>, i: nat, v: T)
    requires i < |s|
    ensures s[i := v][..i] == s[..i] && s[i := v][i + 1..] == s[i + 1..]
  {}

  lemma ReplacedPosition(dims: seq<nat>, dim: nat, size: nat, c: seq<int>, j: int)
    requires dim < |dims| == |c|
    ensures Ravel(dims[dim := size], c[dim := j])
            == Pos3(Ravel(dims[..dim], c[..dim]), j, Ravel(dims[dim + 1..], c[dim + 1..]), size, Prod(dims[dim + 1..]))
  {
    Replaced(dims, dim, size);
    Replaced(c, dim, j);
    AxisPosition(dims[dim := size], dim, c[dim := j]);
  }
}
