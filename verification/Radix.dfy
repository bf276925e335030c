/** Mixed-radix positions: the index arithmetic `q * d + r` shared by every kernel. */
module Radix {
  function Min(a: int, b: int): int { if a < b then a else b }

  ghost predicate IsMultiple(n: int, d: int, from: int) { exists q :: q >= from && n == Pos(q, d, 0) }

  /** The flat position of `(q, r)` in rows of length `d`. */
  function Pos(q: int, d: int, r: int): int { q * d + r }

  /** The high and low digit of a position in radix `d`, by repeated subtraction: for a
      positive radix these are quotient and remainder, and an empty axis has digit zero. */
  function Hi(p: int, d: int): int
    decreases p
  {
    if d <= 0 || p < d then 0 else 1 + Hi(p - d, d)
  }

  function Lo(p: int, d: int): int
    decreases p
  {
    if d <= 0 then 0 else if p < d then p else Lo(p - d, d)
  }

  lemma {:induction false} HiLo(p: int, d: int)
    requires p >= 0 && d > 0
    ensures 0 <= Hi(p, d) && 0 <= Lo(p, d) < d && p == Hi(p, d) * d + Lo(p, d)
    decreases p
  {
    if p >= d {
      HiLo(p - d, d);
      Dist(Hi(p - d, d), 1, d);
    }
  }

  /** The digits are what `/` and `%` compute. */
  lemma HiLoIsDivMod(p: int, d: int)
    requires p >= 0 && d > 0
    ensures Hi(p, d) == p / d && Lo(p, d) == p % d
  {
    HiLo(p, d);
    Euclid(Hi(p, d), Lo(p, d), d);
  }

  lemma Euclid(q: int, r: int, d: int)
    requires 0 <= r < d
    ensures (q * d + r) / d == q && (q * d + r) % d == r
  {
    var n := q * d + r;
    assert n == (n / d) * d + n % d;
    assert (q - n / d) * d == n % d - r;
    MulMono(1, q - n / d, d);
    MulMono(q - n / d, -1, d);
  }

  /** The place `q * d + r` decodes to its two digits. */
  lemma {:induction false} DivMod(q: int, r: int, d: int)
    requires 0 <= q && 0 <= r < d
    ensures Hi(q * d + r, d) == q && Lo(q * d + r, d) == r
    decreases q
  {
    if q > 0 {
      DivMod(q - 1, r, d);
      Dist(q - 1, 1, d);
      MulMono(0, q - 1, d);
    }
  }

  /** A position below `a * d` has a high digit below `a`. */
  lemma DivBound(p: int, a: int, d: int)
    requires 0 <= p < a * d && 0 < d
    ensures 0 <= Hi(p, d) < a && 0 <= Lo(p, d) < d && p == Hi(p, d) * d + Lo(p, d)
  {
    HiLo(p, d);
    MulMono(a, Hi(p, d), d);
  }

  /** Two digits within their ranges stay within the product. */
  lemma Bound(q: int, a: int, r: int, d: int)
    requires 0 <= q < a && 0 <= r < d
    ensures 0 <= q * d + r < a * d
    ensures q * d + d <= a * d
  {
    assert (q + 1) * d <= a * d;
    assert q * d >= 0;
  }

  lemma Mul3(a: int, b: int, c: int)
    ensures a * (b * c) == a * b * c
  {}

  lemma Dist(a: int, b: int, c: int)
    ensures (a + b) * c == a * c + b * c
  {}

  lemma MulMono(a: int, b: int, c: int)
    requires 0 <= c
    ensures a <= b ==> a * c <= b * c
  {}

  lemma Horner3(i: int, j: int, k: int, b: int, c: int)
    ensures i * (b * c) + (j * c + k) == (i * b + j) * c + k
  {
    calc {
      (i * b + j) * c + k;
      (i * b) * c + j * c + k;
      i * (b * c) + j * c + k;
    }
  }

  /** Two digits are determined by their position. */
  lemma PosInjective(q: int, r: int, q': int, r': int, d: int)
    requires 0 <= r < d && 0 <= r' < d && q * d + r == q' * d + r'
    ensures q == q' && r == r'
  {
    assert (q - q') * d == r' - r;
    MulMono(1, q - q', d);
    MulMono(q - q', -1, d);
  }

  lemma MulEq(a: int, b: int, c: int)
    requires a == b
    ensures a * c == b * c
  {}

  lemma SameHigh(i: int, size: int, q: int, t: int, q': int, t': int)
    requires 0 <= t < size && 0 <= t' < size && i == q * size + t && i == q' * size + t'
    ensures q == q'
  {
    PosInjective(q, t, q', t', size);
  }

  /** Quotient and remainder in one step. */
  method DivRem(n: nat, d: nat) returns (q: nat, r: nat)
    requires d > 0
    ensures n == q * d + r && r < d
  {
    q, r := n / d, n % d;
  }
}
