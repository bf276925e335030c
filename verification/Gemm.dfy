/** Matrix products of row-major slices: the contract every plugged-in gemm must meet. */
module Gemm {
  import opened Sums
  import opened Radix

  /** `c` is the row-major product of `a: [m, k]` and `b: [k, n]`. */
  ghost predicate IsProd(c: seq<int>, a: seq<int>, b: seq<int>, m: nat, n: nat, k: nat) {
    && |c| == m * n
    && forall i, j :: 0 <= i < m && 0 <= j < n
         ==> 0 <= Pos(i, n, j) < |c| && c[Pos(i, n, j)] == DotAt(a, i * k, 1, b, j, n, k)
  }

  /** One cell: the running dot product of a row and a column. */
  method DotCell(a: seq<int>, b: seq<int>, m: nat, n: nat, k: nat, i: nat, j: nat) returns (acc: int)
    requires |a| == m * k && |b| == k * n && i < m && j < n
    ensures acc == DotAt(a, i * k, 1, b, j, n, k)
  {
    acc := 0;
    for t := 0 to k
      invariant acc == DotAt(a, i * k, 1, b, j, n, t)
    {
      Bound(i, m, t, k);
      Bound(t, k, j, n);
      acc := acc + a[i * k + t] * b[t * n + j];
    }
  }

  /** One row of the product, appended to the rows before it. */
  method GemmRow(m: nat, n: nat, k: nat, a: seq<int>, b: seq<int>, i: nat, done: seq<int>) returns (c: seq<int>)
    requires |a| == m * k && |b| == k * n && i < m && |done| == i * n
    ensures |c| == (i + 1) * n && done <= c
    ensures forall j :: 0 <= j < n ==> 0 <= Pos(i, n, j) < |c| && c[Pos(i, n, j)] == DotAt(a, i * k, 1, b, j, n, k)
  {
    c := done;
    for j := 0 to n
      invariant |c| == i * n + j && done <= c
      invariant forall j' :: 0 <= j' < j ==> c[Pos(i, n, j')] == DotAt(a, i * k, 1, b, j', n, k)
    {
      var acc := DotCell(a, b, m, n, k, i, j);
      c := c + [acc];
    }
    Dist(i, 1, n);
  }

  method Product(m: nat, n: nat, k: nat, a: seq<int>, b: seq<int>) returns (c: seq<int>)
    requires |a| == m * k && |b| == k * n
    ensures IsProd(c, a, b, m, n, k)
  {
    c := [];
    for i := 0 to m
      invariant |c| == i * n
      invariant forall i', j :: 0 <= i' < i && 0 <= j < n
                  ==> 0 <= Pos(i', n, j) < |c| && c[Pos(i', n, j)] == DotAt(a, i' * k, 1, b, j, n, k)
    {
      c := GemmRow(m, n, k, a, b, i, c);
    }
  }

  /** A caller-supplied gemm: `c = a @ b` on the block at `off`, nothing else touched.
      Callers rely on this contract alone, so what they prove holds for every such gemm. */
  method RunGemm(m: nat, n: nat, k: nat, a: seq<int>, b: seq<int>, c: array<int>, off: nat)
    requires |a| == m * k && |b| == k * n && off + m * n <= c.Length
    modifies c
    ensures IsProd(c[off..off + m * n], a, b, m, n, k)
    ensures c[..off] == old(c[..off]) && c[off + m * n..] == old(c[off + m * n..])
  {
    var block := Product(m, n, k, a, b);
    forall p | 0 <= p < |block| {
      c[off + p] := block[p];
    }
    assert c[off..off + m * n] == block;
  }
}
