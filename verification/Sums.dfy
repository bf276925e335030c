/** Finite sums and the mixed-radix arithmetic that lets one sum stand for a loop nest.

    Every kernel in this project is specified by sums over named index ranges; a fast
    kernel is a rearrangement of such a sum.  Elements are exact integers: rounding is
    not part of this model. */
module Sums {
  import opened Radix

  /** The element at an index, zero outside the buffer: the value a padded tap reads. */
  function At(s: seq<int>, i: int): int {
    if 0 <= i < |s| then s[i] else 0
  }

  ghost function Sum(n: nat, f: int -> int): int {
    if n == 0 then 0 else Sum(n - 1, f) + f(n - 1)
  }

  ghost function Row(f: (int, int) -> int, i: int): int -> int {
    j => f(i, j)
  }

  ghost function Swap(f: (int, int) -> int): (int, int) -> int {
    (i, j) => f(j, i)
  }

  ghost function Plane(f: (int, int, int) -> int, i: int): (int, int) -> int {
    (j, k) => f(i, j, k)
  }

  /** The sum of a loop nest `for i, for j`. */
  ghost function Sum2(n: nat, m: nat, f: (int, int) -> int): int {
    Sum(n, i => Sum(m, Row(f, i)))
  }

  /** The sum of a loop nest `for i, for j, for k`. */
  ghost function Sum3(a: nat, b: nat, c: nat, f: (int, int, int) -> int): int {
    Sum(a, i => Sum2(b, c, Plane(f, i)))
  }

  /** The dot product of two strided runs: what `vec_dot` and one gemm cell compute. */
  ghost function DotAt(a: seq<int>, ao: int, ast: int, b: seq<int>, bo: int, bst: int, k: nat): int {
    Sum(k, DotTerm(a, ao, ast, b, bo, bst))
  }

  ghost function DotTerm(a: seq<int>, ao: int, ast: int, b: seq<int>, bo: int, bst: int): int -> int {
    t => At(a, ao + t * ast) * At(b, bo + t * bst)
  }

  /** The inner product of two buffers of the same length. */
  ghost function Inner(a: seq<int>, b: seq<int>): int {
    Sum(|a|, i => At(a, i) * At(b, i))
  }

  ghost function Total(a: seq<int>): int {
    Sum(|a|, i => At(a, i))
  }

  // ---------------------------------------------------------------- one sum

  lemma {:induction false} SumExt(n: nat, f: int -> int, g: int -> int)
    requires forall i :: 0 <= i < n ==> f(i) == g(i)
    ensures Sum(n, f) == Sum(n, g)
  {
    if n > 0 { SumExt(n - 1, f, g); }
  }

  lemma {:induction false} SumZero(n: nat, f: int -> int)
    requires forall i :: 0 <= i < n ==> f(i) == 0
    ensures Sum(n, f) == 0
  {
    if n > 0 { SumZero(n - 1, f); }
  }

  lemma {:induction false} SumAdd(n: nat, f: int -> int, g: int -> int, h: int -> int)
    requires forall i :: 0 <= i < n ==> h(i) == f(i) + g(i)
    ensures Sum(n, h) == Sum(n, f) + Sum(n, g)
  {
    if n > 0 { SumAdd(n - 1, f, g, h); }
  }

  lemma {:induction false} SumScale(n: nat, c: int, f: int -> int, g: int -> int)
    requires forall i :: 0 <= i < n ==> g(i) == c * f(i)
    ensures Sum(n, g) == c * Sum(n, f)
  {
    if n > 0 {
      SumScale(n - 1, c, f, g);
      assert c * (Sum(n - 1, f) + f(n - 1)) == c * Sum(n - 1, f) + c * f(n - 1);
    }
  }

  lemma {:induction false} SumLess(n: nat, f: int -> int, g: int -> int)
    requires forall i :: 0 <= i < n ==> f(i) < g(i)
    ensures if n == 0 then Sum(n, f) == Sum(n, g) else Sum(n, f) < Sum(n, g)
  {
    if n > 0 { SumLess(n - 1, f, g); }
  }

  /** A sum over `n + m` indices is the first `n` plus the remaining `m`. */
  lemma {:induction false} SumSplit(n: nat, m: nat, f: int -> int, g: int -> int)
    requires forall j :: 0 <= j < m ==> g(j) == f(n + j)
    ensures Sum(n + m, f) == Sum(n, f) + Sum(m, g)
  {
    if m > 0 { SumSplit(n, m - 1, f, g); }
  }

  /** All terms but one vanish. */
  lemma {:induction false} SumSingle(n: nat, e: int, f: int -> int)
    requires forall i :: 0 <= i < n && i != e ==> f(i) == 0
    ensures Sum(n, f) == if 0 <= e < n then f(e) else 0
  {
    if n > 0 {
      if e == n - 1 { SumZero(n - 1, f); } else { SumSingle(n - 1, e, f); }
    }
  }

  // ---------------------------------------------------------------- nested sums

  /** One more turn of the outer loop adds one inner sum. */
  lemma Sum2Next(n: nat, m: nat, f: (int, int) -> int)
    ensures Sum2(n + 1, m, f) == Sum2(n, m, f) + Sum(m, Row(f, n))
  {}

  lemma Sum3Next(a: nat, b: nat, c: nat, f: (int, int, int) -> int)
    ensures Sum3(a + 1, b, c, f) == Sum3(a, b, c, f) + Sum2(b, c, Plane(f, a))
  {}

  lemma Sum2Ext(n: nat, m: nat, f: (int, int) -> int, g: (int, int) -> int)
    requires forall i, j :: 0 <= i < n && 0 <= j < m ==> f(i, j) == g(i, j)
    ensures Sum2(n, m, f) == Sum2(n, m, g)
  {
    var F, G := i => Sum(m, Row(f, i)), i => Sum(m, Row(g, i));
    forall i | 0 <= i < n ensures F(i) == G(i) {
      SumExt(m, Row(f, i), Row(g, i));
    }
    SumExt(n, F, G);
  }

  lemma Sum3Ext(a: nat, b: nat, c: nat, f: (int, int, int) -> int, g: (int, int, int) -> int)
    requires forall i, j, k :: 0 <= i < a && 0 <= j < b && 0 <= k < c ==> f(i, j, k) == g(i, j, k)
    ensures Sum3(a, b, c, f) == Sum3(a, b, c, g)
  {
    var F, G := i => Sum2(b, c, Plane(f, i)), i => Sum2(b, c, Plane(g, i));
    forall i | 0 <= i < a ensures F(i) == G(i) {
      Sum2Ext(b, c, Plane(f, i), Plane(g, i));
    }
    SumExt(a, F, G);
  }

  /** Two nested loops may be interchanged. */
  lemma {:induction false} SumSwap(n: nat, m: nat, g: (int, int) -> int)
    ensures Sum2(n, m, g) == Sum2(m, n, Swap(g))
  {
    var h := j => Sum(n, Row(Swap(g), j));
    if n == 0 {
      SumZero(m, h);
    } else {
      SumSwap(n - 1, m, g);
      SumAdd(m, j => Sum(n - 1, Row(Swap(g), j)), Row(g, n - 1), h);
    }
  }

  /** One loop over `a * b` indices is a nest of `a` by `b`. */
  lemma {:induction false} SumFlatten(a: nat, b: nat, f: int -> int, g: (int, int) -> int)
    requires forall i, j :: 0 <= i < a && 0 <= j < b ==> g(i, j) == f(i * b + j)
    ensures Sum(a * b, f) == Sum2(a, b, g)
  {
    if a > 0 {
      SumFlatten(a - 1, b, f, g);
      Dist(a - 1, 1, b);
      SumSplit((a - 1) * b, b, f, Row(g, a - 1));
    }
  }

  /** One loop over `a * b * c` indices is a nest of `a` by `b` by `c`. */
  lemma SumFlatten3(a: nat, b: nat, c: nat, f: int -> int, g: (int, int, int) -> int)
    requires forall i, j, k :: 0 <= i < a && 0 <= j < b && 0 <= k < c
                           ==> g(i, j, k) == f((i * b + j) * c + k)
    ensures Sum(a * b * c, f) == Sum3(a, b, c, g)
  {
    var h := (i, t) => f(i * (b * c) + t);
    var F, G := i => Sum(b * c, Row(h, i)), i => Sum2(b, c, Plane(g, i));
    forall i | 0 <= i < a ensures F(i) == G(i) {
      FlattenPlane(b, c, f, Row(h, i), Plane(g, i), i);
    }
    SumExt(a, F, G);
    SumFlatten(a, b * c, f, h);
    Horner3(a, 0, 0, b, c);
  }

  lemma FlattenPlane(b: nat, c: nat, f: int -> int, h: int -> int, g: (int, int) -> int, i: int)
    requires forall t :: h(t) == f(i * (b * c) + t)
    requires forall j, k :: 0 <= j < b && 0 <= k < c ==> g(j, k) == f((i * b + j) * c + k)
    ensures Sum(b * c, h) == Sum2(b, c, g)
  {
    forall j, k | 0 <= j < b && 0 <= k < c ensures g(j, k) == h(j * c + k) {
      Horner3(i, j, k, b, c);
    }
    SumFlatten(b, c, h, g);
  }

  ghost function Rotate(f: (int, int, int) -> int): (int, int, int) -> int {
    (j, k, i) => f(i, j, k)
  }

  /** The outermost loop of three may be moved innermost. */
  lemma SumRotate(a: nat, b: nat, c: nat, f: (int, int, int) -> int)
    ensures Sum3(b, c, a, Rotate(f)) == Sum3(a, b, c, f)
  {
    var rows := (j: int, i: int) => Sum(c, Row(Plane(f, i), j));
    var F, G := j => Sum2(c, a, Plane(Rotate(f), j)), j => Sum(a, Row(rows, j));
    forall j | 0 <= j < b ensures F(j) == G(j) {
      SumSwap(c, a, Plane(Rotate(f), j));
      var P, Q := i => Sum(c, Row(Swap(Plane(Rotate(f), j)), i)), Row(rows, j);
      forall i | 0 <= i < a ensures P(i) == Q(i) {
        SumExt(c, Row(Swap(Plane(Rotate(f), j)), i), Row(Plane(f, i), j));
      }
      SumExt(a, P, Q);
    }
    SumExt(b, F, G);
    SumSwap(b, a, rows);
    var H, K := i => Sum(b, Row(Swap(rows), i)), i => Sum2(b, c, Plane(f, i));
    forall i | 0 <= i < a ensures H(i) == K(i) {
      SumExt(b, Row(Swap(rows), i), j => Sum(c, Row(Plane(f, i), j)));
    }
    SumExt(a, H, K);
  }

  /** Two inner loops of one turn each can be dropped. */
  lemma SumThin(n: nat, f: int -> int, g: (int, int, int) -> int)
    requires forall i :: 0 <= i < n ==> g(i, 0, 0) == f(i)
    ensures Sum(n, f) == Sum3(n, 1, 1, g)
  {
    var P := i => Sum2(1, 1, Plane(g, i));
    forall i | 0 <= i < n ensures f(i) == P(i) {
      SumOne(Plane(g, i));
    }
    SumExt(n, f, P);
  }

  lemma SumOne(h: (int, int) -> int)
    ensures Sum2(1, 1, h) == h(0, 0)
  {
    assert Sum(1, Row(h, 0)) == Sum(0, Row(h, 0)) + h(0, 0);
  }

  lemma Sum3As2(n: nat, m: nat, c: nat, f: (int, int, int) -> int, G: (int, int) -> int)
    requires forall i, j :: G(i, j) == Sum(c, Row(Plane(f, i), j))
    ensures Sum2(n, m, G) == Sum3(n, m, c, f)
  {
    var P, Q := i => Sum(m, Row(G, i)), i => Sum2(m, c, Plane(f, i));
    forall i | 0 <= i < n ensures P(i) == Q(i) {
      SumExt(m, Row(G, i), j => Sum(c, Row(Plane(f, i), j)));
    }
    SumExt(n, P, Q);
  }

  lemma Sum3Swap(a: nat, b: nat, c: nat, f: (int, int, int) -> int, g: (int, int, int) -> int)
    requires forall i, j, k :: g(j, i, k) == f(i, j, k)
    ensures Sum3(a, b, c, f) == Sum3(b, a, c, g)
  {
    var F, G := (i, j) => Sum(c, Row(Plane(f, i), j)), (j, i) => Sum(c, Row(Plane(g, j), i));
    Sum3As2(a, b, c, f, F);
    Sum3As2(b, a, c, g, G);
    SumSwap(a, b, F);
    forall j, i | 0 <= j < b && 0 <= i < a ensures Swap(F)(j, i) == G(j, i) {
      SumExt(c, Row(Plane(f, i), j), Row(Plane(g, j), i));
    }
    Sum2Ext(b, a, Swap(F), G);
  }

  lemma Sum2Zero(n: nat, m: nat, f: (int, int) -> int)
    requires forall i, j :: 0 <= i < n && 0 <= j < m ==> f(i, j) == 0
    ensures Sum2(n, m, f) == 0
  {
    var F := i => Sum(m, Row(f, i));
    forall i | 0 <= i < n ensures F(i) == 0 {
      SumZero(m, Row(f, i));
    }
    SumZero(n, F);
  }
}
