/** Row-major tables of three and four axes: what a nest of loops leaves behind. */
module Tables {
  import opened Radix

  function Pos4(a: int, b: int, c: int, d: int, d1: int, d2: int, d3: int): int {
    ((a * d1 + b) * d2 + c) * d3 + d
  }

  /** The buffer holds `f` at every coordinate of `[d0, d1, d2, d3]`. */
  ghost predicate IsTable(s: seq<int>, d0: int, d1: int, d2: int, d3: int, f: (int, int, int, int) -> int) {
    && |s| == d0 * d1 * d2 * d3
    && forall a, b, c, d :: 0 <= a < d0 && 0 <= b < d1 && 0 <= c < d2 && 0 <= d < d3
         ==> 0 <= Pos4(a, b, c, d, d1, d2, d3) < |s| && s[Pos4(a, b, c, d, d1, d2, d3)] == f(a, b, c, d)
  }

  lemma Pos4Bound(a: int, b: int, c: int, d: int, d0: int, d1: int, d2: int, d3: int)
    requires 0 <= a < d0 && 0 <= b < d1 && 0 <= c < d2 && 0 <= d < d3
    ensures 0 <= Pos4(a, b, c, d, d1, d2, d3) < d0 * d1 * d2 * d3
  {
    Bound(a, d0, b, d1);
    Bound(a * d1 + b, d0 * d1, c, d2);
    Bound((a * d1 + b) * d2 + c, d0 * d1 * d2, d, d3);
  }

  /** Consecutive turns of the innermost loop fill consecutive cells, and the end of a loop
      is the start of the next turn around it. */
  lemma Next4(a: int, b: int, c: int, d1: int, d2: int, d3: int)
    ensures Pos4(a, b, c + 1, 0, d1, d2, d3) == Pos4(a, b, c, d3, d1, d2, d3)
    ensures Pos4(a, b + 1, 0, 0, d1, d2, d3) == Pos4(a, b, d2, 0, d1, d2, d3)
    ensures Pos4(a + 1, 0, 0, 0, d1, d2, d3) == Pos4(a, d1, 0, 0, d1, d2, d3)
  {
    Dist((a * d1 + b) * d2 + c, 1, d3);
    Dist(a * d1 + b, 1, d2);
    Dist(a, 1, d1);
  }

  ghost function Cell(d1: int, d2: int, d3: int, f: (int, int, int, int) -> int, p: int): int {
    var q := Hi(p, d3);
    var r := Hi(q, d2);
    f(Hi(r, d1), Lo(r, d1), Lo(q, d2), Lo(p, d3))
  }

  ghost function Table(d0: nat, d1: nat, d2: nat, d3: nat, f: (int, int, int, int) -> int): seq<int> {
    seq(d0 * d1 * d2 * d3, p => Cell(d1, d2, d3, f, p))
  }

  lemma CellAt(d1: int, d2: int, d3: int, f: (int, int, int, int) -> int, a: int, b: int, c: int, d: int)
    requires 0 <= a && 0 <= b < d1 && 0 <= c < d2 && 0 <= d < d3
    ensures Cell(d1, d2, d3, f, Pos4(a, b, c, d, d1, d2, d3)) == f(a, b, c, d)
  {
    var r := a * d1 + b;
    var q := r * d2 + c;
    MulMono(0, a, d1);
    MulMono(0, r, d2);
    DivMod(a, b, d1);
    DivMod(r, c, d2);
    DivMod(q, d, d3);
  }

  lemma TableIsTable(d0: nat, d1: nat, d2: nat, d3: nat, f: (int, int, int, int) -> int)
    ensures IsTable(Table(d0, d1, d2, d3, f), d0, d1, d2, d3, f)
  {
    var s := Table(d0, d1, d2, d3, f);
    forall a, b, c, d | 0 <= a < d0 && 0 <= b < d1 && 0 <= c < d2 && 0 <= d < d3
      ensures 0 <= Pos4(a, b, c, d, d1, d2, d3) < |s| && s[Pos4(a, b, c, d, d1, d2, d3)] == f(a, b, c, d)
    {
      Pos4Bound(a, b, c, d, d0, d1, d2, d3);
      CellAt(d1, d2, d3, f, a, b, c, d);
    }
  }

  lemma Pos4Of(p: int, d0: nat, d1: nat, d2: nat, d3: nat) returns (a: int, b: int, c: int, d: int)
    requires 0 <= p < d0 * d1 * d2 * d3
    ensures 0 <= a < d0 && 0 <= b < d1 && 0 <= c < d2 && 0 <= d < d3 && p == Pos4(a, b, c, d, d1, d2, d3)
  {
    Some3(p, d0 * d1, d2, d3);
    Some3(Hi(p, d3), d0, d1, d2) by { DivBound(p, d0 * d1 * d2, d3); }
    b, c, d := Pos3Of(p, d0 * d1, d2, d3);
    DivBound(b, d0, d1);
    a, b := Hi(b, d1), Lo(b, d1);
  }

  /** A buffer holds one table only. */
  lemma TableUnique(s: seq<int>, t: seq<int>, d0: nat, d1: nat, d2: nat, d3: nat, f: (int, int, int, int) -> int,
          g: (int, int, int, int) -> int)
    requires IsTable(s, d0, d1, d2, d3, f) && IsTable(t, d0, d1, d2, d3, g)
    requires forall a, b, c, d :: 0 <= a < d0 && 0 <= b < d1 && 0 <= c < d2 && 0 <= d < d3
               ==> f(a, b, c, d) == g(a, b, c, d)
    ensures s == t
  {
    forall p | 0 <= p < |s| ensures s[p] == t[p] {
      var a, b, c, d := Pos4Of(p, d0, d1, d2, d3);
    }
  }

  // ---------------------------------------------------------------- three axes

  /** Cell `(b, c, l)` of a row-major `[_, channels, len]`. */
  function Pos3(b: int, c: int, l: int, channels: int, len: int): int { (b * channels + c) * len + l }

  lemma Pos3Bound(b: int, c: int, l: int, batch: int, channels: int, len: int)
    requires 0 <= b < batch && 0 <= c < channels && 0 <= l < len
    ensures 0 <= Pos3(b, c, l, channels, len) < batch * channels * len
  {
    Bound(b, batch, c, channels);
    Bound(b * channels + c, batch * channels, l, len);
  }

  lemma Pos3Injective(b: int, c: int, l: int, b': int, c': int, l': int, channels: int, len: int)
    requires 0 <= c < channels && 0 <= c' < channels && 0 <= l < len && 0 <= l' < len
    requires Pos3(b, c, l, channels, len) == Pos3(b', c', l', channels, len)
    ensures b == b' && c == c' && l == l'
  {
    PosInjective(b * channels + c, l, b' * channels + c', l', len);
    PosInjective(b, c, b', c', channels);
  }

  lemma Pos3Of(p: int, batch: int, channels: int, len: int) returns (b: int, c: int, l: int)
    requires 0 <= p < batch * channels * len && 0 < channels && 0 < len
    ensures 0 <= b < batch && 0 <= c < channels && 0 <= l < len && p == Pos3(b, c, l, channels, len)
  {
    DivBound(p, batch * channels, len);
    DivBound(Hi(p, len), batch, channels);
    b, c, l := Hi(Hi(p, len), channels), Lo(Hi(p, len), channels), Lo(p, len);
  }

  lemma Some3(p: int, batch: nat, channels: nat, len: nat)
    requires 0 <= p < batch * channels * len
    ensures 0 < channels && 0 < len
  {
    MulEq(batch * channels, if channels == 0 then 0 else batch * channels, len);
  }
}
