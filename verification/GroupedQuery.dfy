/** `matmul_f32_aocl_bytes`: batched products where several query heads share one key head. */
module GroupedQuery {
  import opened Radix
  import opened Wrappers
  import opened Layouts
  import opened AxisViews
  import opened Gemm

  // ---------------------------------------------------------------- which batches go together

  /** Per axis the sizes are equal, or the left one is a multiple of the right one. */
  predicate AxisOk(la: nat, ra: nat) { la == ra || (ra > 0 && la > ra && la % ra == 0) }

  predicate Compatible(lhsDims: seq<nat>, rhsDims: seq<nat>) {
    |lhsDims| == |rhsDims| && forall i :: 0 <= i < |lhsDims| ==> AxisOk(lhsDims[i], rhsDims[i])
  }

  /** That is: one or more copies of the right one make up the left one. */
  lemma AxisOkIff(la: nat, ra: nat)
    ensures AxisOk(la, ra) <==> IsMultiple(la, ra, 1)
  {
    if AxisOk(la, ra) {
      var q := if la == ra then 1 else la / ra;
      assert la == Pos(q, ra, 0);
      assert q >= 1;
    } else if q :| q >= 1 && la == Pos(q, ra, 0) {
      if ra > 0 {
        Euclid(q, 0, ra);
        MulMono(2, q, ra);
      }
    }
  }

  /** Whether each axis of the left batch is a number of copies of that of the right one. */
  ghost predicate Repeats(lhsDims: seq<nat>, rhsDims: seq<nat>) {
    |lhsDims| == |rhsDims| && forall i :: 0 <= i < |lhsDims| ==> IsMultiple(lhsDims[i], rhsDims[i], 1)
  }

  lemma CompatibleIff(lhsDims: seq<nat>, rhsDims: seq<nat>)
    ensures Compatible(lhsDims, rhsDims) <==> Repeats(lhsDims, rhsDims)
  {
    if |lhsDims| == |rhsDims| {
      forall i | 0 <= i < |lhsDims| ensures AxisOk(lhsDims[i], rhsDims[i]) <==> IsMultiple(lhsDims[i], rhsDims[i], 1) {
        AxisOkIff(lhsDims[i], rhsDims[i]);
      }
    }
  }

  /** Eight query heads on one key head, and on two; not on three. */
  lemma SharedHeads()
    ensures Compatible([8], [1]) && Compatible([8], [2]) && !Compatible([8], [3]) && !Compatible([1], [8])
    ensures Rep(8, 1) == 8 && Rep(8, 2) == 4
  {
    assert AxisOk([8][0], [1][0]) && AxisOk([8][0], [2][0]) && !AxisOk([8][0], [3][0]) && !AxisOk([1][0], [8][0]);
  }

  function Rep(la: nat, ra: nat): nat
    requires AxisOk(la, ra)
  {
    if la == ra then 1 else la / ra
  }

  lemma RepTiles(la: nat, ra: nat, c: int)
    requires AxisOk(la, ra) && 0 <= c < la
    ensures Rep(la, ra) > 0 && ra * Rep(la, ra) == la && 0 <= c / Rep(la, ra) < ra
  {
    var r := Rep(la, ra);
    assert la != ra ==> la == ra * (la / ra);
    if c / r >= ra {
      assert c >= c / r * r;
      MulMono(ra, c / r, r);
    }
  }

  ghost function Reps(lhsDims: seq<nat>, rhsDims: seq<nat>): seq<nat>
    requires Compatible(lhsDims, rhsDims)
  {
    seq(|lhsDims|, i requires 0 <= i < |lhsDims| => Rep(lhsDims[i], rhsDims[i]))
  }

  /** The coordinates of the right operand for those of the left one. */
  ghost function Shared(c: seq<int>, reps: seq<nat>): seq<int>
    requires |c| == |reps| && forall i :: 0 <= i < |reps| ==> reps[i] > 0
  {
    seq(|c|, i requires 0 <= i < |c| => c[i] / reps[i])
  }

  lemma SharedInRange(lhsDims: seq<nat>, rhsDims: seq<nat>, c: seq<int>)
    requires Compatible(lhsDims, rhsDims) && InRange(lhsDims, c)
    ensures (forall i :: 0 <= i < |lhsDims| ==> Reps(lhsDims, rhsDims)[i] > 0)
            && InRange(rhsDims, Shared(c, Reps(lhsDims, rhsDims)))
  {
    forall i | 0 <= i < |lhsDims|
      ensures Reps(lhsDims, rhsDims)[i] > 0 && 0 <= c[i] / Reps(lhsDims, rhsDims)[i] < rhsDims[i]
    {
      RepTiles(lhsDims[i], rhsDims[i], c[i]);
    }
  }

  /** The batch entry of the right operand that entry `b` of the left one meets. */
  ghost function Slot(lhsDims: seq<nat>, rhsDims: seq<nat>, b: int): (s: int)
    requires Compatible(lhsDims, rhsDims) && 0 <= b < Prod(lhsDims)
    ensures 0 <= s < Prod(rhsDims)
  {
    SharedInRange(lhsDims, rhsDims, Unravel(lhsDims, b));
    RavelBound(rhsDims, Shared(Unravel(lhsDims, b), Reps(lhsDims, rhsDims)));
    Ravel(rhsDims, Shared(Unravel(lhsDims, b), Reps(lhsDims, rhsDims)))
  }

  function Block(s: seq<int>, b: int, size: nat): seq<int>
    requires 0 <= b * size <= b * size + size <= |s|
  {
    s[b * size..b * size + size]
  }

  lemma BlockFits(s: seq<int>, count: nat, b: int, size: nat)
    requires |s| == count * size && 0 <= b < count
    ensures 0 <= b * size <= b * size + size <= |s|
  {
    MulMono(0, b, size);
    MulMono(b + 1, count, size);
    Dist(b, 1, size);
  }

  ghost predicate IsBlockProd(out: seq<int>, lhs: seq<int>, rhs: seq<int>, b: int, s: int, m: nat, n: nat, k: nat) {
    && 0 <= b * (m * n) <= b * (m * n) + m * n <= |out|
    && 0 <= b * (m * k) <= b * (m * k) + m * k <= |lhs|
    && 0 <= s * (k * n) <= s * (k * n) + k * n <= |rhs|
    && IsProd(Block(out, b, m * n), Block(lhs, b, m * k), Block(rhs, s, k * n), m, n, k)
  }

  /** Entry `b` of the output is entry `b` of the left operand times the entry it shares. */
  ghost predicate IsGrouped(out: seq<int>, lhs: seq<int>, rhs: seq<int>, lhsDims: seq<nat>, rhsDims: seq<nat>, m: nat,
          n: nat, k: nat)
    requires Compatible(lhsDims, rhsDims)
  {
    && |out| == Prod(lhsDims) * (m * n)
    && forall b :: 0 <= b < Prod(lhsDims) ==> IsBlockProd(out, lhs, rhs, b, Slot(lhsDims, rhsDims, b), m, n, k)
  }

  // ---------------------------------------------------------------- decompose, divide, recompose

  lemma ZeroDim(dims: seq<nat>)
    ensures Prod(dims) == 0 <==> 0 in dims
  {
    Positive(dims);
  }

  /** One more leading digit. */
  lemma LeadingDigit(dims: seq<nat>, c: seq<int>, rem: int, q: int, r: int)
    requires |dims| == |c| > 0 && rem == q * dims[0] + r && c[0] == r
    ensures rem * Prod(dims[1..]) + Ravel(dims[1..], c[1..]) == q * Prod(dims) + Ravel(dims, c)
  {
    var hd, tl, h: seq<int>, t := dims[..1], dims[1..], c[..1], c[1..];
    assert hd == [dims[0]] && h == [r];
    assert hd + tl == dims && h + t == c;
    RavelConcat(hd, tl, h, t);
    ProdConcat(hd, tl);
    Rank1(hd, h, [0]);
    Dist(q * dims[0], r, Prod(tl));
    Mul3(q, dims[0], Prod(tl));
  }

  /** The divmod loop over the axes, last first. */
  method Decompose(b: nat, dims: seq<nat>) returns (multi: seq<int>)
    requires 0 !in dims && b < Prod(dims)
    ensures InRange(dims, multi) && multi == Unravel(dims, b)
  {
    var rem := b;
    multi := [];
    ghost var d := |dims|;
    assert dims[d..] == [];
    for i := 0 to |dims|
      invariant d == |dims| - i && |multi| == i && 0 <= rem
      invariant InRange(dims[d..], multi) && b == rem * Prod(dims[d..]) + Ravel(dims[d..], multi)
    {
      var s := dims[|dims| - 1 - i];
      assert s in dims;
      var q, r := DivRem(rem, s);
      d := d - 1;
      assert dims[d..][1..] == dims[d + 1..] && ([r] + multi)[1..] == multi;
      LeadingDigit(dims[d..], [r] + multi, rem, q, r);
      multi := [r] + multi;
      rem := q;
    }
    assert dims[0..] == dims;
    RavelBound(dims, multi);
    NoRemainder(b, rem, Prod(dims), Ravel(dims, multi));
    UnravelIs(dims, multi);
  }

  lemma NoRemainder(b: int, rem: int, size: int, r: int)
    requires 0 <= rem && 0 <= b < size && 0 <= r && b == rem * size + r
    ensures rem == 0
  {
    MulMono(1, rem, size);
  }

  /** Divides each coordinate by the repetition of its axis. */
  method Divide(multi: seq<int>, nRep: seq<nat>) returns (rhsMulti: seq<int>)
    requires |multi| == |nRep| && forall i :: 0 <= i < |nRep| ==> nRep[i] > 0
    ensures rhsMulti == Shared(multi, nRep)
  {
    rhsMulti := [];
    for d := 0 to |multi|
      invariant |rhsMulti| == d && forall e :: 0 <= e < d ==> rhsMulti[e] == multi[e] / nRep[e]
    {
      rhsMulti := rhsMulti + [multi[d] / nRep[d]];
    }
  }

  method Recompose(dims: seq<nat>, multi: seq<int>) returns (b: int)
    requires |dims| == |multi|
    ensures b == Ravel(dims, multi)
  {
    b := 0;
    assert dims[..0] == [] && multi[..0] == [];
    for d := 0 to |dims|
      invariant b == Ravel(dims[..d], multi[..d])
    {
      assert dims[..d + 1] == dims[..d] + [dims[d]] && multi[..d + 1] == multi[..d] + [multi[d]];
      Snoc(dims[..d], dims[d], multi[..d], multi[d]);
      b := b * dims[d] + multi[d];
    }
    assert dims[..|dims|] == dims && multi[..|multi|] == multi;
  }

  // ---------------------------------------------------------------- the kernel

  /** `n_rep`, or none where the sizes of an axis do not fit. */
  method RepsOf(lhsDims: seq<nat>, rhsDims: seq<nat>) returns (r: Option<seq<nat>>)
    requires |lhsDims| == |rhsDims|
    ensures r.Some? <==> Compatible(lhsDims, rhsDims)
    ensures r.Some? ==> r.value == Reps(lhsDims, rhsDims)
  {
    var nRep: seq<nat> := [];
    for i := 0 to |lhsDims|
      invariant |nRep| == i
      invariant forall e :: 0 <= e < i ==> AxisOk(lhsDims[e], rhsDims[e]) && nRep[e] == Rep(lhsDims[e], rhsDims[e])
    {
      var la, ra := lhsDims[i], rhsDims[i];
      if la == ra {
        nRep := nRep + [1];
      } else if ra > 0 && la > ra && la % ra == 0 {
        nRep := nRep + [la / ra];
      } else {
        assert !AxisOk(lhsDims[i], rhsDims[i]);
        return None;
      }
    }
    r := Some(nRep);
  }

  /** `dims.iter().product::<usize>().max(1)`. */
  function BatchCount(dims: seq<nat>): nat { if Prod(dims) == 0 then 1 else Prod(dims) }

  /** The entry of the right operand, by the three loops. */
  method SlotOf(b: nat, lhsDims: seq<nat>, rhsDims: seq<nat>, nRep: seq<nat>) returns (s: int)
    requires Compatible(lhsDims, rhsDims) && nRep == Reps(lhsDims, rhsDims) && 0 !in lhsDims && b < Prod(lhsDims)
    ensures s == Slot(lhsDims, rhsDims, b)
  {
    var lhsMulti := Decompose(b, lhsDims);
    SharedInRange(lhsDims, rhsDims, lhsMulti);
    var rhsMulti := Divide(lhsMulti, nRep);
    s := Recompose(rhsDims, rhsMulti);
  }

  /** Entries before `b` are done. */
  ghost predicate GroupedSoFar(out: seq<int>, lhs: seq<int>, rhs: seq<int>, lhsDims: seq<nat>, rhsDims: seq<nat>,
          m: nat, n: nat, k: nat, b: int)
    requires Compatible(lhsDims, rhsDims)
  {
    forall e :: 0 <= e < b && e < Prod(lhsDims) ==> IsBlockProd(out, lhs, rhs, e, Slot(lhsDims, rhsDims, e), m, n, k)
  }

  /** Storing entry `b` leaves the entries before it as they are. */
  lemma EarlierBlocksStay(out: seq<int>, out': seq<int>, lhs: seq<int>, rhs: seq<int>, e: int, s: int, b: int, m: nat,
          n: nat, k: nat)
    requires IsBlockProd(out, lhs, rhs, e, s, m, n, k) && e < b && |out'| == |out| && 0 <= b * (m * n) <= |out|
    requires out'[..b * (m * n)] == out[..b * (m * n)]
    ensures IsBlockProd(out', lhs, rhs, e, s, m, n, k)
  {
    MulMono(e + 1, b, m * n);
    Dist(e, 1, m * n);
    var lo, hi, p := e * (m * n), e * (m * n) + m * n, b * (m * n);
    assert out'[..p][lo..hi] == out'[lo..hi] && out[..p][lo..hi] == out[lo..hi];
  }

  /** One batch entry. */
  method GroupedEntry(lhs: seq<int>, rhs: seq<int>, out: array<int>, lhsDims: seq<nat>, rhsDims: seq<nat>,
          nRep: seq<nat>, m: nat, n: nat, k: nat, b: nat)
    requires Compatible(lhsDims, rhsDims) && nRep == Reps(lhsDims, rhsDims) && 0 !in lhsDims && b < Prod(lhsDims)
    requires |lhs| == Prod(lhsDims) * (m * k) && |rhs| == Prod(rhsDims) * (k * n)
    requires out.Length == Prod(lhsDims) * (m * n)
    requires GroupedSoFar(out[..], lhs, rhs, lhsDims, rhsDims, m, n, k, b)
    modifies out
    ensures GroupedSoFar(out[..], lhs, rhs, lhsDims, rhsDims, m, n, k, b + 1)
  {
    ghost var before := out[..];
    var s := SlotOf(b, lhsDims, rhsDims, nRep);
    BlockFits(lhs, Prod(lhsDims), b, m * k);
    BlockFits(rhs, Prod(rhsDims), s, k * n);
    BlockFits(out[..], Prod(lhsDims), b, m * n);
    RunGemm(m, n, k, Block(lhs, b, m * k), Block(rhs, s, k * n), out, b * (m * n));
    assert out[..][b * (m * n)..b * (m * n) + m * n] == out[b * (m * n)..b * (m * n) + m * n];
    assert out[..][..b * (m * n)] == out[..b * (m * n)] == before[..b * (m * n)];
    forall e | 0 <= e < b ensures IsBlockProd(out[..], lhs, rhs, e, Slot(lhsDims, rhsDims, e), m, n, k) {
      EarlierBlocksStay(before, out[..], lhs, rhs, e, Slot(lhsDims, rhsDims, e), b, m, n, k);
    }
  }

  /** `matmul_f32_aocl_bytes`, on element counts. A batch with an axis of size zero counts as one
      entry, so that operands of that length (or with empty matrices) pass the checks; the entry
      has no coordinates, and the kernel divides by zero. */
  method MatMulGrouped(lhs: seq<int>, rhs: seq<int>, out: array<int>, lhsDims: seq<nat>, rhsDims: seq<nat>, m: nat,
          n: nat, k: nat) returns (r: Result<()>)
    modifies out
    ensures r == Err(ShapeMismatch) <==>
              !(Repeats(lhsDims, rhsDims) && |lhs| == BatchCount(lhsDims) * (m * k)
                && |rhs| == BatchCount(rhsDims) * (k * n) && out.Length == BatchCount(lhsDims) * (m * n))
    ensures r == Err(DivideByZero) <==> r != Err(ShapeMismatch) && 0 in lhsDims
    ensures r.Err? ==> r.error in {ShapeMismatch, DivideByZero} && out[..] == old(out[..])
    ensures r.Ok? ==> Compatible(lhsDims, rhsDims) && IsGrouped(out[..], lhs, rhs, lhsDims, rhsDims, m, n, k)
  {
    CompatibleIff(lhsDims, rhsDims);
    if |lhsDims| != |rhsDims| {
      return Err(ShapeMismatch);
    }
    var reps := RepsOf(lhsDims, rhsDims);
    if reps.None? {
      return Err(ShapeMismatch);
    }
    if |lhs| != BatchCount(lhsDims) * (m * k) || |rhs| != BatchCount(rhsDims) * (k * n)
        || out.Length != BatchCount(lhsDims) * (m * n) {
      return Err(ShapeMismatch);
    }
    if 0 in lhsDims {
      return Err(DivideByZero);
    }
    NoZeros(lhsDims, rhsDims);
    for b := 0 to BatchCount(lhsDims)
      invariant GroupedSoFar(out[..], lhs, rhs, lhsDims, rhsDims, m, n, k, b)
    {
      GroupedEntry(lhs, rhs, out, lhsDims, rhsDims, reps.value, m, n, k, b);
    }
    r := Ok(());
  }

  lemma NoZeros(lhsDims: seq<nat>, rhsDims: seq<nat>)
    requires Compatible(lhsDims, rhsDims) && 0 !in lhsDims
    ensures Prod(lhsDims) > 0 && Prod(rhsDims) > 0
  {
    forall i | 0 <= i < |rhsDims| ensures rhsDims[i] != 0 {
      assert lhsDims[i] in lhsDims && AxisOk(lhsDims[i], rhsDims[i]);
    }
    ZeroDim(lhsDims);
    ZeroDim(rhsDims);
  }

  /** A batch of shape `[0]`, with operands as long as one entry of it. */
  method ZeroAxisFails() returns (r: Result<()>)
    ensures r == Err(DivideByZero)
  {
    var out := new int[1];
    var dims: seq<nat> := [0];
    Rank1(dims, [0], [0]);
    CompatibleIff(dims, dims);
    r := MatMulGrouped([7], [7], out, dims, dims, 1, 1, 1);
  }
}
