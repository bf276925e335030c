/** Batched matrix product over strided operands (`MatMul` in the CPU backend): the batch
    strides, the two ways a batch is folded into one gemm, and when folding is exact. */
module MatMul {
  import opened Sums
  import opened Radix
  import opened Wrappers
  import opened Layouts
  import opened Schedule

  // ---------------------------------------------------------------- batch strides

  /** The single stride that walks the batch axes of an operand, as `ab_skip` picks it. */
  function Skip(l: Layout, whole: nat): Result<int>
    requires |l.dims| == |l.strides| >= 2
  {
    var s := l.strides[..|l.strides| - 2];
    if |s| == 2 && s[0] == s[1] * l.dims[1] then Ok(s[1])
    else if |s| == 2 && l.dims[0] == 1 then Ok(s[1])
    else if |s| == 2 && l.dims[1] == 1 then Ok(s[0])
    else if |s| == 1 then Ok(s[0])
    else if |s| == 0 then Ok(whole)
    else Err(UnexpectedStriding)
  }

  function BatchDims(l: Layout): seq<nat> requires |l.dims| >= 2 { l.dims[..|l.dims| - 2] }
  function BatchStrides(l: Layout): seq<int> requires |l.strides| >= 2 { l.strides[..|l.strides| - 2] }

  /** One stride walks the whole batch: entry `step` starts `step * skip` places in. */
  ghost predicate Walks(l: Layout, skip: int)
    requires |l.dims| == |l.strides| >= 2
  {
    forall step :: 0 <= step < Prod(BatchDims(l))
      ==> Dot(Unravel(BatchDims(l), step), BatchStrides(l)) == step * skip
  }

  lemma Unravel2(d: seq<nat>, i: int, j: int)
    requires |d| == 2 && 0 <= i < d[0] && 0 <= j < d[1]
    ensures Prod(d) == d[0] * d[1] && 0 <= i * d[1] + j < Prod(d) && Unravel(d, i * d[1] + j) == [i, j]
  {
    Bound(i, d[0], j, d[1]);
    Rank2(d, [i, j], [0, 0]);
    UnravelIs(d, [i, j]);
  }

  /** What `ab_skip` accepts is the true stride of the batch. */
  lemma SkipWalks(l: Layout, whole: nat)
    requires |l.dims| == |l.strides| >= 2 && Skip(l, whole).Ok?
    ensures Walks(l, Skip(l, whole).value)
  {
    var bd, bs, skip := BatchDims(l), BatchStrides(l), Skip(l, whole).value;
    forall step | 0 <= step < Prod(bd) ensures Dot(Unravel(bd, step), bs) == step * skip {
      var c := Unravel(bd, step);
      if |bs| == 1 {
        Rank1(bd, c, bs);
      } else if |bs| == 2 {
        Rank2(bd, c, bs);
        SkipArithmetic(bd[0], bd[1], bs[0], bs[1], c[0], c[1], skip);
      }
    }
  }

  lemma SkipArithmetic(d0: int, d1: int, s0: int, s1: int, i: int, j: int, skip: int)
    requires 0 <= i < d0 && 0 <= j < d1
    requires (s0 == s1 * d1 && skip == s1) || (d0 == 1 && skip == s1) || (d1 == 1 && skip == s0)
    ensures i * s0 + j * s1 == (i * d1 + j) * skip
  {
    if s0 == s1 * d1 && skip == s1 {
      calc {
        (i * d1 + j) * s1;
        { Dist(i * d1, j, s1); }
        i * d1 * s1 + j * s1;
        { Mul3(i, d1, s1); assert d1 * s1 == s1 * d1; }
        i * (s1 * d1) + j * s1;
      }
    }
  }

  /** Conversely, with at most two batch axes and at least one entry, a batch that any single
      stride could walk is never refused. */
  lemma RefusedNeverWalks(l: Layout, whole: nat, skip: int)
    requires |l.dims| == |l.strides| && 2 <= |l.dims| <= 4 && Prod(BatchDims(l)) > 0
    requires Walks(l, skip)
    ensures Skip(l, whole).Ok?
  {
    var bd, bs := BatchDims(l), BatchStrides(l);
    if |bs| == 2 {
      Rank2(bd, [0, 0], bs);
      if bd[0] > 1 && bd[1] > 1 {
        Unravel2(bd, 0, 1);
        Rank2(bd, [0, 1], bs);
        assert Dot(Unravel(bd, 1), bs) == 1 * skip;
        Unravel2(bd, 1, 0);
        Rank2(bd, [1, 0], bs);
        assert Dot(Unravel(bd, 1 * bd[1] + 0), bs) == bd[1] * skip;
      }
    }
  }

  // ---------------------------------------------------------------- one strided product

  /** The operands of a gemm call: base, row stride and column stride on both sides. */
  datatype Operands = Operands(lhs: seq<int>, lo: int, lrs: int, lcs: int, rhs: seq<int>, ro: int, rrs: int,
      rcs: int, k: nat) {
    ghost function Cell(i: int, j: int): int {
      DotAt(lhs, lo + i * lrs, lcs, rhs, ro + j * rcs, rrs, k)
    }

    /** The operands of batch entry `step`. */
    function At(step: int, aSkip: int, bSkip: int): Operands {
      this.(lo := lo + step * aSkip, ro := ro + step * bSkip)
    }
  }

  /** Every element the product of batch entries `0..b` reads lies in its buffer. */
  ghost predicate ReadsInside(o: Operands, b: nat, m: nat, n: nat, aSkip: int, bSkip: int) {
    && (n > 0 ==> forall s, i, t :: 0 <= s < b && 0 <= i < m && 0 <= t < o.k
                    ==> 0 <= LhsIndex(o, s, i, t, aSkip) < |o.lhs|)
    && (m > 0 ==> forall s, j, t :: 0 <= s < b && 0 <= j < n && 0 <= t < o.k
                    ==> 0 <= RhsIndex(o, s, j, t, bSkip) < |o.rhs|)
  }

  function LhsIndex(o: Operands, s: int, i: int, t: int, aSkip: int): int { o.lo + s * aSkip + i * o.lrs + t * o.lcs }
  function RhsIndex(o: Operands, s: int, j: int, t: int, bSkip: int): int { o.ro + s * bSkip + j * o.rcs + t * o.rrs }

  /** A buffer counting its own positions, and a buffer of ones: data that tells two reads apart. */
  ghost function Counting(n: nat): seq<int> { seq(n, i => i) }
  ghost function Zeroed(n: nat): seq<int> { seq(n, _ => 0) }
  ghost function Ones(n: nat): seq<int> { seq(n, _ => 1) }

  /** Reading a counting buffer further along gives a strictly larger dot product with ones. */
  lemma CountingGrows(n: nat, a: int, a': int, st: nat, n': nat, bo: nat, bst: nat, k: nat)
    requires 0 <= a < a' && a' + k * st < n && bo + k * bst < n' && k > 0
    ensures DotAt(Counting(n), a, st, Ones(n'), bo, bst, k) < DotAt(Counting(n), a', st, Ones(n'), bo, bst, k)
    ensures DotAt(Ones(n'), bo, bst, Counting(n), a, st, k) < DotAt(Ones(n'), bo, bst, Counting(n), a', st, k)
  {
    var f, g := DotTerm(Counting(n), a, st, Ones(n'), bo, bst), DotTerm(Counting(n), a', st, Ones(n'), bo, bst);
    var f', g' := DotTerm(Ones(n'), bo, bst, Counting(n), a, st), DotTerm(Ones(n'), bo, bst, Counting(n), a', st);
    forall t | 0 <= t < k ensures f(t) < g(t) && f'(t) < g'(t) {
      MulMono(0, t, st); MulMono(t, k, st); MulMono(0, t, bst); MulMono(t, k, bst);
      assert At(Ones(n'), bo + t * bst) == 1;
      assert At(Counting(n), a + t * st) == a + t * st && At(Counting(n), a' + t * st) == a' + t * st;
    }
    SumLess(k, f, g);
    SumLess(k, f', g');
  }

  // ---------------------------------------------------------------- when the row fold is exact

  /** Cell `(i, j)` of every batch entry, read through the folded product of `b * m` rows. */
  ghost predicate RowFoldCells(o: Operands, b: nat, m: nat, n: nat) {
    forall s, i, j :: 0 <= s < b && 0 <= i < m && 0 <= j < n
      ==> o.At(s, m * o.k, 0).Cell(i, j) == o.Cell(Pos(s, m, i), j)
  }

  predicate RowFoldExact(b: nat, m: nat, n: nat, k: nat, lrs: int) {
    b <= 1 || m == 0 || n == 0 || k == 0 || lrs == k
  }

  lemma RowFoldSound(o: Operands, b: nat, m: nat, n: nat)
    requires RowFoldExact(b, m, n, o.k, o.lrs)
    ensures RowFoldCells(o, b, m, n)
  {
    forall s, i, j | 0 <= s < b && 0 <= i < m && 0 <= j < n
      ensures o.At(s, m * o.k, 0).Cell(i, j) == o.Cell(Pos(s, m, i), j)
    {
      if o.lrs == o.k {
        calc {
          (s * m + i) * o.k;
          { Dist(s * m, i, o.k); Mul3(s, m, o.k); }
          s * (m * o.k) + i * o.k;
        }
      } else if o.k == 0 {
        assert o.Cell(Pos(s, m, i), j) == 0;
      } else {
        assert s == 0;
      }
    }
  }

  /** Operands with given starts and strides. */
  ghost predicate HasStrides(o: Operands, k: nat, lo: nat, lrs: nat, lcs: nat, ro: nat, rrs: nat, rcs: nat) {
    o.k == k && o.lo == lo && o.lrs == lrs && o.lcs == lcs && o.ro == ro && o.rrs == rrs && o.rcs == rcs
  }

  /** Whenever the guard alone would accept a fold that is not exact, there is data within
      bounds on which a cell of the folded product differs. */
  lemma RowFoldFails(b: nat, m: nat, n: nat, k: nat, lo: nat, lrs: nat, lcs: nat, ro: nat, rrs: nat, rcs: nat)
          returns (o: Operands)
    requires !RowFoldExact(b, m, n, k, lrs)
    ensures HasStrides(o, k, lo, lrs, lcs, ro, rrs, rcs)
    ensures ReadsInside(o, b, m, n, m * k, 0) && ReadsInside(o, 1, b * m, n, 0, 0)
    ensures o.At(1, m * k, 0).Cell(0, 0) != o.Cell(Pos(1, m, 0), 0)
  {
    var mk, bm := m * k, b * m;
    MulMono(0, bm, lrs); MulMono(0, n, rcs); MulMono(0, b, mk);
    var nl := lo + b * mk + m * lrs + bm * lrs + k * lcs + mk + 1;
    var nr := ro + n * rcs + k * rrs + 1;
    o := Operands(Counting(nl), lo, lrs, lcs, Ones(nr), ro, rrs, rcs, k);
    FitsLhs(o, b, m, n, mk, bm);
    FitsRhs(o, b, m, n);
    RowWitness(o, b, m, k, nl, nr);
  }

  /** The first cell of the second batch entry gives the mismatch away. */
  lemma RowWitness(o: Operands, b: nat, m: nat, k: nat, nl: nat, nr: nat)
    requires b >= 2 && m >= 1 && k >= 1 && o.lrs != k && o.lrs >= 0 && o.lcs >= 0 && o.rrs >= 0 && o.lo >= 0
             && o.ro >= 0
    requires o == Operands(Counting(nl), o.lo, o.lrs, o.lcs, Ones(nr), o.ro, o.rrs, o.rcs, k)
    requires nl > o.lo + m * k + k * o.lcs && nl > o.lo + m * o.lrs + k * o.lcs && nr > o.ro + k * o.rrs
    ensures o.At(1, m * k, 0).Cell(0, 0) != o.Cell(Pos(1, m, 0), 0)
  {
    var x, y := o.lo + m * k, o.lo + m * o.lrs;
    assert o.At(1, m * k, 0).Cell(0, 0) == DotAt(Counting(nl), x, o.lcs, Ones(nr), o.ro, o.rrs, k);
    assert o.Cell(Pos(1, m, 0), 0) == DotAt(Counting(nl), y, o.lcs, Ones(nr), o.ro, o.rrs, k);
    if k < o.lrs {
      MulStrict(m, k, o.lrs);
      CountingGrows(nl, x, y, o.lcs, nr, o.ro, o.rrs, k);
    } else {
      MulStrict(m, o.lrs, k);
      CountingGrows(nl, y, x, o.lcs, nr, o.ro, o.rrs, k);
    }
  }

  lemma MulStrict(m: int, a: int, c: int)
    requires 0 < m && a < c
    ensures m * a < m * c
  {}

  lemma FitsLhs(o: Operands, b: nat, m: nat, n: nat, mk: nat, bm: nat)
    requires o.lo >= 0 && o.lrs >= 0 && o.lcs >= 0 && mk == m * o.k && bm == b * m
    requires |o.lhs| > o.lo + b * mk + m * o.lrs + bm * o.lrs + o.k * o.lcs
    ensures forall s, i, t :: 0 <= s < b && 0 <= i < m && 0 <= t < o.k ==> 0 <= LhsIndex(o, s, i, t, mk) < |o.lhs|
    ensures forall s, i, t :: 0 <= s < 1 && 0 <= i < bm && 0 <= t < o.k ==> 0 <= LhsIndex(o, s, i, t, 0) < |o.lhs|
  {
    MulMono(0, m, o.lrs); MulMono(0, bm, o.lrs); MulMono(0, b, mk);
    forall s, i, t | 0 <= s < b && 0 <= i < m && 0 <= t < o.k ensures 0 <= LhsIndex(o, s, i, t, mk) < |o.lhs| {
      MulMono(0, s, mk); MulMono(s, b, mk); MulMono(0, i, o.lrs); MulMono(i, m, o.lrs);
      MulMono(0, t, o.lcs); MulMono(t, o.k, o.lcs);
    }
    forall s, i, t | 0 <= s < 1 && 0 <= i < bm && 0 <= t < o.k ensures 0 <= LhsIndex(o, s, i, t, 0) < |o.lhs| {
      MulMono(0, i, o.lrs); MulMono(i, bm, o.lrs); MulMono(0, t, o.lcs); MulMono(t, o.k, o.lcs);
    }
  }

  lemma FitsRhs(o: Operands, b: nat, m: nat, n: nat)
    requires o.ro >= 0 && o.rrs >= 0 && o.rcs >= 0 && |o.rhs| > o.ro + n * o.rcs + o.k * o.rrs
    ensures forall s, j, t :: 0 <= j < n && 0 <= t < o.k ==> 0 <= RhsIndex(o, s, j, t, 0) < |o.rhs|
  {
    forall s, j, t | 0 <= j < n && 0 <= t < o.k ensures 0 <= RhsIndex(o, s, j, t, 0) < |o.rhs| {
      MulMono(0, j, o.rcs); MulMono(j, n, o.rcs); MulMono(0, t, o.rrs); MulMono(t, o.k, o.rrs);
    }
  }

  // ---------------------------------------------------------------- what a gemm call writes

  /** Cell `p` is one the call stores to; rows are `drs` apart and may overlap. */
  ghost predicate Hit(p: int, m: int, w: int, drs: int) {
    exists i, j :: 0 <= i < m && 0 <= j < w && p == Pos(i, drs, j)
  }

  /** The contract of a strided gemm on a block: a cell that is hit holds one of the product
      cells stored there, every other cell keeps its value. */
  ghost predicate GemmWrote(before: seq<int>, after: seq<int>, m: int, w: int, drs: int, o: Operands) {
    && |after| == |before|
    && (forall p :: 0 <= p < |after| && !Hit(p, m, w, drs) ==> after[p] == before[p])
    && (forall p :: 0 <= p < |after| && Hit(p, m, w, drs)
         ==> exists i, j :: 0 <= i < m && 0 <= j < w && p == Pos(i, drs, j) && after[p] == o.Cell(i, j))
  }

  /** Rows that do not overlap leave no choice. */
  lemma WroteCell(before: seq<int>, after: seq<int>, m: int, w: int, o: Operands, i: int, j: int)
    requires GemmWrote(before, after, m, w, w, o) && 0 <= i < m && 0 <= j < w && m * w <= |after|
    ensures 0 <= Pos(i, w, j) < |after| && after[Pos(i, w, j)] == o.Cell(i, j)
  {
    Bound(i, m, j, w);
    var p := Pos(i, w, j);
    assert Hit(p, m, w, w);
    var i', j' :| 0 <= i' < m && 0 <= j' < w && p == Pos(i', w, j') && after[p] == o.Cell(i', j');
    PosInjective(i, j, i', j', w);
  }

  /** The batched product, entry by entry: `[b, m, n]` row-major. */
  ghost predicate IsBatchProd(out: seq<int>, o: Operands, b: nat, m: nat, n: nat, aSkip: int, bSkip: int) {
    && |out| == b * m * n
    && forall s, i, j :: 0 <= s < b && 0 <= i < m && 0 <= j < n
         ==> 0 <= Pos(Pos(s, m, i), n, j) < |out| && out[Pos(Pos(s, m, i), n, j)] == o.At(s, aSkip, bSkip).Cell(i, j)
  }

  /** Folding the batch into the rows of one call. */
  lemma RowFoldResult(o: Operands, b: nat, m: nat, n: nat, before: seq<int>, after: seq<int>)
    requires RowFoldExact(b, m, n, o.k, o.lrs) && |after| == b * m * n
    requires GemmWrote(before, after, b * m, n, n, o)
    ensures IsBatchProd(after, o, b, m, n, m * o.k, 0)
  {
    RowFoldSound(o, b, m, n);
    forall s, i, j | 0 <= s < b && 0 <= i < m && 0 <= j < n
      ensures 0 <= Pos(Pos(s, m, i), n, j) < |after|
              && after[Pos(Pos(s, m, i), n, j)] == o.At(s, m * o.k, 0).Cell(i, j)
    {
      Bound(s, b, i, m);
      WroteCell(before, after, b * m, n, o, Pos(s, m, i), j);
    }
  }

  // ---------------------------------------------------------------- when the column fold is exact

  /** The column fold stores rows of length `b * n` only `n` cells apart. */
  predicate ColFoldExact(b: nat, m: nat, n: nat, k: nat, rcs: int) {
    b <= 1 || m == 0 || n == 0 || k == 0 || (m == 1 && rcs == k)
  }

  lemma ColFoldResult(o: Operands, b: nat, m: nat, n: nat, before: seq<int>, after: seq<int>)
    requires ColFoldExact(b, m, n, o.k, o.rcs) && |after| == b * m * n
    requires (forall p :: 0 <= p < |before| ==> before[p] == 0) && GemmWrote(before, after, m, b * n, n, o)
    ensures IsBatchProd(after, o, b, m, n, 0, n * o.k)
  {
    forall s, i, j | 0 <= s < b && 0 <= i < m && 0 <= j < n
      ensures 0 <= Pos(Pos(s, m, i), n, j) < |after|
              && after[Pos(Pos(s, m, i), n, j)] == o.At(s, 0, n * o.k).Cell(i, j)
    {
      Bound(s, b, i, m);
      Bound(Pos(s, m, i), b * m, j, n);
      ColFoldCell(o, b, m, n, before, after, s, i, j);
    }
  }

  lemma ColFoldCell(o: Operands, b: nat, m: nat, n: nat, before: seq<int>, after: seq<int>, s: int, i: int, j: int)
    requires ColFoldExact(b, m, n, o.k, o.rcs)
    requires (forall p :: 0 <= p < |before| ==> before[p] == 0) && GemmWrote(before, after, m, b * n, n, o)
    requires 0 <= s < b && 0 <= i < m && 0 <= j < n && 0 <= Pos(Pos(s, m, i), n, j) < |after|
    ensures after[Pos(Pos(s, m, i), n, j)] == o.At(s, 0, n * o.k).Cell(i, j)
  {
    var p := Pos(Pos(s, m, i), n, j);
    if o.k == 0 {
      assert o.At(s, 0, n * o.k).Cell(i, j) == 0;
    } else if b == 1 {
      assert p == Pos(i, n, j);
      assert Hit(p, m, b * n, n);
      var i', j' :| 0 <= i' < m && 0 <= j' < b * n && p == Pos(i', n, j') && after[p] == o.Cell(i', j');
      PosInjective(i, j, i', j', n);
    } else {
      assert i == 0 && p == Pos(0, n, Pos(s, n, j));
      Bound(s, b, j, n);
      OneRowCell(o, before, after, b * n, n, Pos(s, n, j));
      FoldedColumn(o, s, n, j);
    }
  }

  /** A single row is stored cell by cell. */
  lemma OneRowCell(o: Operands, before: seq<int>, after: seq<int>, w: int, n: int, p: int)
    requires GemmWrote(before, after, 1, w, n, o) && 0 <= p < w && p < |after|
    ensures after[p] == o.Cell(0, p)
  {
    assert p == Pos(0, n, p);
    assert Hit(p, 1, w, n);
    var i, j :| 0 <= i < 1 && 0 <= j < w && p == Pos(i, n, j) && after[p] == o.Cell(i, j);
  }

  lemma FoldedColumn(o: Operands, s: int, n: int, j: int)
    requires o.rcs == o.k
    ensures o.Cell(0, Pos(s, n, j)) == o.At(s, 0, n * o.k).Cell(0, j)
  {
    Dist(s * n, j, o.k);
    Mul3(s, n, o.k);
  }

  /** When the guard accepts a column fold that is not exact, data within bounds exists on
      which no gemm meeting its contract leaves the batched product. */
  lemma ColFoldFails(b: nat, m: nat, n: nat, k: nat, lo: nat, lrs: nat, lcs: nat, ro: nat, rrs: nat, rcs: nat)
          returns (o: Operands)
    requires !ColFoldExact(b, m, n, k, rcs)
    ensures HasStrides(o, k, lo, lrs, lcs, ro, rrs, rcs)
    ensures ReadsInside(o, b, m, n, 0, n * k) && ReadsInside(o, 1, m, b * n, 0, 0)
    ensures forall after :: GemmWrote(Zeroed(b * m * n), after, m, b * n, n, o)
                       ==> !IsBatchProd(after, o, b, m, n, 0, n * k)
  {
    var nk, bn := n * k, b * n;
    MulMono(0, bn, rcs); MulMono(0, m, lrs); MulMono(0, b, nk);
    var nl := lo + m * lrs + k * lcs + 1;
    var nr := ro + b * nk + n * rcs + bn * rcs + k * rrs + nk + 1;
    o := Operands(Ones(nl), lo, lrs, lcs, if m == 1 then Counting(nr) else Ones(nr), ro, rrs, rcs, k);
    ColFits(o, b, m, n, nk, bn);
    forall after | GemmWrote(Zeroed(b * m * n), after, m, b * n, n, o)
      ensures !IsBatchProd(after, o, b, m, n, 0, n * k)
    {
      if m == 1 {
        ColWitness(o, b, n, nl, nr, after);
      } else {
        OnesNeverProduct(o, b, m, n, nl, nr, after);
      }
    }
  }

  lemma ColFits(o: Operands, b: nat, m: nat, n: nat, nk: nat, bn: nat)
    requires o.lo >= 0 && o.ro >= 0 && o.lrs >= 0 && o.lcs >= 0 && o.rrs >= 0 && o.rcs >= 0
    requires nk == n * o.k && bn == b * n && |o.lhs| > o.lo + m * o.lrs + o.k * o.lcs
    requires |o.rhs| > o.ro + b * nk + n * o.rcs + bn * o.rcs + o.k * o.rrs
    ensures ReadsInside(o, b, m, n, 0, nk) && ReadsInside(o, 1, m, bn, 0, 0)
  {
    MulMono(0, n, o.rcs); MulMono(0, bn, o.rcs); MulMono(0, b, nk);
    forall s, i, t | 0 <= i < m && 0 <= t < o.k ensures 0 <= LhsIndex(o, s, i, t, 0) < |o.lhs| {
      MulMono(0, i, o.lrs); MulMono(i, m, o.lrs); MulMono(0, t, o.lcs); MulMono(t, o.k, o.lcs);
    }
    forall s, j, t | 0 <= s < b && 0 <= j < n && 0 <= t < o.k ensures 0 <= RhsIndex(o, s, j, t, nk) < |o.rhs| {
      MulMono(0, s, nk); MulMono(s, b, nk); MulMono(0, j, o.rcs); MulMono(j, n, o.rcs);
      MulMono(0, t, o.rrs); MulMono(t, o.k, o.rrs);
    }
    forall s, j, t | 0 <= s < 1 && 0 <= j < bn && 0 <= t < o.k ensures 0 <= RhsIndex(o, s, j, t, 0) < |o.rhs| {
      MulMono(0, j, o.rcs); MulMono(j, bn, o.rcs); MulMono(0, t, o.rrs); MulMono(t, o.k, o.rrs);
    }
  }

  /** One row, wrong column stride: the second batch entry starts at the wrong column. */
  lemma ColWitness(o: Operands, b: nat, n: nat, nl: nat, nr: nat, after: seq<int>)
    requires b >= 2 && n >= 1 && o.k >= 1 && o.rcs != o.k && o.rcs >= 0 && o.rrs >= 0 && o.lcs >= 0 && o.lo >= 0
             && o.ro >= 0
    requires o == Operands(Ones(nl), o.lo, o.lrs, o.lcs, Counting(nr), o.ro, o.rrs, o.rcs, o.k)
    requires nl > o.lo + o.k * o.lcs && nr > o.ro + n * o.k + o.k * o.rrs && nr > o.ro + n * o.rcs + o.k * o.rrs
    requires GemmWrote(Zeroed(b * 1 * n), after, 1, b * n, n, o)
    ensures !IsBatchProd(after, o, b, 1, n, 0, n * o.k)
  {
    var x, y := o.ro + n * o.k, o.ro + n * o.rcs;
    Bound(1, b, 0, n);
    var p := Pos(0, n, n);
    assert Hit(p, 1, b * n, n);
    assert p == Pos(Pos(1, 1, 0), n, 0);
    assert after[p] == o.Cell(0, n);
    assert o.Cell(0, n) == DotAt(Ones(nl), o.lo, o.lcs, Counting(nr), y, o.rrs, o.k);
    assert o.At(1, 0, n * o.k).Cell(0, 0) == DotAt(Ones(nl), o.lo, o.lcs, Counting(nr), x, o.rrs, o.k);
    if o.k < o.rcs {
      MulStrict(n, o.k, o.rcs);
      CountingGrows(nr, x, y, o.rrs, nl, o.lo, o.lcs, o.k);
    } else {
      MulStrict(n, o.rcs, o.k);
      CountingGrows(nr, y, x, o.rrs, nl, o.lo, o.lcs, o.k);
    }
  }

  /** Two rows or more: no store of the column fold reaches the last cell of the output. */
  lemma LastCellUntouched(b: nat, m: nat, n: nat)
    requires b >= 2 && m >= 2 && n >= 1
    ensures !Hit(b * m * n - 1, m, b * n, n)
  {
    LastCell(b, m, n);
    forall i, j | 0 <= i < m && 0 <= j < b * n ensures Pos(i, n, j) != b * m * n - 1 {
      RowsTooShort(b, m, n, i, j);
    }
  }

  lemma LastCell(b: int, m: int, n: int)
    ensures Pos(Pos(b - 1, m, m - 1), n, n - 1) == b * m * n - 1
  {
    Dist(b, -1, m);
    Dist(b * m, -1, n);
  }

  lemma OnesNeverProduct(o: Operands, b: nat, m: nat, n: nat, nl: nat, nr: nat, after: seq<int>)
    requires b >= 2 && m >= 2 && n >= 1 && o.k >= 1
    requires o.lhs == Ones(nl) && o.rhs == Ones(nr) && ReadsInside(o, b, m, n, 0, n * o.k)
    requires GemmWrote(Zeroed(b * m * n), after, m, b * n, n, o)
    ensures !IsBatchProd(after, o, b, m, n, 0, n * o.k)
  {
    var s, i, j := b - 1, m - 1, n - 1;
    Bound(s, b, i, m);
    Bound(Pos(s, m, i), b * m, j, n);
    LastCell(b, m, n);
    LastCellUntouched(b, m, n);
    assert after[Pos(Pos(s, m, i), n, j)] == 0;
    OnesDot(o.At(s, 0, n * o.k), i, j, o, s, m, n, b);
  }

  lemma RowsTooShort(b: int, m: int, n: int, i: int, j: int)
    requires b >= 2 && m >= 2 && n >= 1 && 0 <= i < m && 0 <= j < b * n
    ensures i * n + j < ((b - 1) * m + (m - 1)) * n + (n - 1)
  {
    MulMono(i, m - 1, n);
    assert b <= (b - 1) * m by { MulMono(2, m, b - 1); assert (b - 1) * m == m * (b - 1); }
    MulMono(b, (b - 1) * m, n);
    Dist((b - 1) * m, m - 1, n);
  }

  lemma OnesDot(q: Operands, i: int, j: int, o: Operands, s: int, m: nat, n: nat, b: nat)
    requires q == o.At(s, 0, n * o.k) && o.k >= 1 && ReadsInside(o, b, m, n, 0, n * o.k)
    requires 0 <= s < b && 0 <= i < m && 0 <= j < n
    requires (forall p :: 0 <= p < |o.lhs| ==> o.lhs[p] == 1) && (forall p :: 0 <= p < |o.rhs| ==> o.rhs[p] == 1)
    ensures q.Cell(i, j) > 0
  {
    var f := DotTerm(q.lhs, q.lo + i * q.lrs, q.lcs, q.rhs, q.ro + j * q.rcs, q.rrs);
    var zero := (t: int) => 0;
    forall t | 0 <= t < o.k ensures zero(t) < f(t) {
      assert LhsIndex(o, s, i, t, 0) == q.lo + i * q.lrs + t * q.lcs;
      assert RhsIndex(o, s, j, t, n * o.k) == q.ro + j * q.rcs + t * q.rrs;
    }
    SumLess(o.k, zero, f);
    SumZero(o.k, zero);
  }

  ghost function HitValue(p: int, m: int, w: int, drs: int, o: Operands): (v: int)
    requires Hit(p, m, w, drs)
    ensures exists i, j :: 0 <= i < m && 0 <= j < w && p == Pos(i, drs, j) && v == o.Cell(i, j)
  {
    var i, j :| 0 <= i < m && 0 <= j < w && p == Pos(i, drs, j);
    o.Cell(i, j)
  }

  /** The gemm contract can always be met. */
  lemma GemmCanWrite(before: seq<int>, m: int, w: int, drs: int, o: Operands)
    ensures exists after :: GemmWrote(before, after, m, w, drs, o)
  {
    var after := seq(|before|, p requires 0 <= p < |before| =>
                     if Hit(p, m, w, drs) then HitValue(p, m, w, drs, o) else before[p]);
    assert GemmWrote(before, after, m, w, drs, o);
  }

  /** Every result the gemm contract allows for the fold into rows is the batched product. */
  ghost predicate RowFoldAgrees(o: Operands, b: nat, m: nat, n: nat) {
    forall after :: GemmWrote(Zeroed(b * m * n), after, b * m, n, n, o)
      ==> IsBatchProd(after, o, b, m, n, m * o.k, 0)
  }

  lemma RowFoldMisses(o: Operands, b: nat, m: nat, n: nat, after: seq<int>)
    requires b >= 2 && m >= 1 && n >= 1 && o.At(1, m * o.k, 0).Cell(0, 0) != o.Cell(Pos(1, m, 0), 0)
    requires GemmWrote(Zeroed(b * m * n), after, b * m, n, n, o)
    ensures !IsBatchProd(after, o, b, m, n, m * o.k, 0)
  {
    Bound(1, b, 0, m);
    WroteCell(Zeroed(b * m * n), after, b * m, n, o, Pos(1, m, 0), 0);
  }

  /** Under the guard `b_skip == 0 && a_skip == m * k`, the fold into rows computes the batched
      product for all data exactly when `RowFoldExact` holds. */
  lemma RowFoldIff(b: nat, m: nat, n: nat, k: nat, lo: nat, lrs: nat, lcs: nat, ro: nat, rrs: nat, rcs: nat)
    ensures RowFoldExact(b, m, n, k, lrs)
            <==> forall o :: HasStrides(o, k, lo, lrs, lcs, ro, rrs, rcs) && RowFoldable(o, b, m, n)
                   ==> RowFoldAgrees(o, b, m, n)
  {
    if RowFoldExact(b, m, n, k, lrs) {
      forall o, after | HasStrides(o, k, lo, lrs, lcs, ro, rrs, rcs)
          && GemmWrote(Zeroed(b * m * n), after, b * m, n, n, o)
        ensures IsBatchProd(after, o, b, m, n, m * o.k, 0)
      {
        RowFoldResult(o, b, m, n, Zeroed(b * m * n), after);
      }
      assert forall o :: HasStrides(o, k, lo, lrs, lcs, ro, rrs, rcs) ==> RowFoldAgrees(o, b, m, n);
    } else {
      var o := RowFoldFails(b, m, n, k, lo, lrs, lcs, ro, rrs, rcs);
      GemmCanWrite(Zeroed(b * m * n), b * m, n, n, o);
      var after :| GemmWrote(Zeroed(b * m * n), after, b * m, n, n, o);
      RowFoldMisses(o, b, m, n, after);
      assert HasStrides(o, k, lo, lrs, lcs, ro, rrs, rcs) && RowFoldable(o, b, m, n) && !RowFoldAgrees(o, b, m, n);
    }
  }

  /** Every read, folded or not, stays inside. */
  ghost predicate RowFoldable(o: Operands, b: nat, m: nat, n: nat) {
    ReadsInside(o, b, m, n, m * o.k, 0) && ReadsInside(o, 1, b * m, n, 0, 0)
  }

  ghost predicate ColFoldable(o: Operands, b: nat, m: nat, n: nat) {
    ReadsInside(o, b, m, n, 0, n * o.k) && ReadsInside(o, 1, m, b * n, 0, 0)
  }

  /** Every result the gemm contract allows for the fold into columns is the batched product. */
  ghost predicate ColFoldAgrees(o: Operands, b: nat, m: nat, n: nat) {
    forall after :: GemmWrote(Zeroed(b * m * n), after, m, b * n, n, o)
      ==> IsBatchProd(after, o, b, m, n, 0, n * o.k)
  }

  /** Under the guard `a_skip == 0 && b_skip == n * k`, the fold into columns computes the
      batched product for all data exactly when `ColFoldExact` holds. */
  lemma ColFoldIff(b: nat, m: nat, n: nat, k: nat, lo: nat, lrs: nat, lcs: nat, ro: nat, rrs: nat, rcs: nat)
    ensures ColFoldExact(b, m, n, k, rcs)
            <==> forall o :: HasStrides(o, k, lo, lrs, lcs, ro, rrs, rcs) && ColFoldable(o, b, m, n)
                   ==> ColFoldAgrees(o, b, m, n)
  {
    if ColFoldExact(b, m, n, k, rcs) {
      forall o, after | HasStrides(o, k, lo, lrs, lcs, ro, rrs, rcs)
          && GemmWrote(Zeroed(b * m * n), after, m, b * n, n, o)
        ensures IsBatchProd(after, o, b, m, n, 0, n * o.k)
      {
        ColFoldResult(o, b, m, n, Zeroed(b * m * n), after);
      }
      assert forall o :: HasStrides(o, k, lo, lrs, lcs, ro, rrs, rcs) ==> ColFoldAgrees(o, b, m, n);
    } else {
      var o := ColFoldFails(b, m, n, k, lo, lrs, lcs, ro, rrs, rcs);
      GemmCanWrite(Zeroed(b * m * n), m, b * n, n, o);
      var after :| GemmWrote(Zeroed(b * m * n), after, m, b * n, n, o);
      assert HasStrides(o, k, lo, lrs, lcs, ro, rrs, rcs) && ColFoldable(o, b, m, n) && !ColFoldAgrees(o, b, m, n);
    }
  }

  // ---------------------------------------------------------------- the kernel

  method StridedDot(o: Operands, i: nat, j: nat, ghost m: nat, ghost n: nat) returns (acc: int)
    requires ReadsInside(o, 1, m, n, 0, 0) && i < m && j < n
    ensures acc == o.Cell(i, j)
  {
    acc := 0;
    for t := 0 to o.k
      invariant acc == DotAt(o.lhs, o.lo + i * o.lrs, o.lcs, o.rhs, o.ro + j * o.rcs, o.rrs, t)
    {
      assert LhsIndex(o, 0, i, t, 0) == o.lo + i * o.lrs + t * o.lcs;
      assert RhsIndex(o, 0, j, t, 0) == o.ro + j * o.rcs + t * o.rrs;
      acc := acc + o.lhs[o.lo + i * o.lrs + t * o.lcs] * o.rhs[o.ro + j * o.rcs + t * o.rrs];
    }
  }

  /** Stores made so far: rows before `i`, and the first `j` cells of row `i`. */
  ghost predicate Stored(i': int, j': int, i: int, j: int, w: int) {
    0 <= i' && 0 <= j' < w && (i' < i || (i' == i && j' < j))
  }

  ghost predicate WroteSoFar(before: seq<int>, after: seq<int>, w: int, drs: int, o: Operands, i: int, j: int) {
    && |after| == |before|
    && forall p :: 0 <= p < |after| ==>
         || (after[p] == before[p] && forall i', j' :: Stored(i', j', i, j, w) ==> p != Pos(i', drs, j'))
         || (exists i', j' :: Stored(i', j', i, j, w) && p == Pos(i', drs, j') && after[p] == o.Cell(i', j'))
  }

  /** A strided gemm on the slice it is given. */
  method GemmStrided(m: nat, w: nat, o: Operands, block: seq<int>, drs: nat) returns (after: seq<int>)
    requires ReadsInside(o, 1, m, w, 0, 0)
    requires forall i, j :: 0 <= i < m && 0 <= j < w ==> 0 <= Pos(i, drs, j) < |block|
    ensures GemmWrote(block, after, m, w, drs, o)
  {
    after := block;
    for i := 0 to m
      invariant WroteSoFar(block, after, w, drs, o, i, 0)
    {
      for j := 0 to w
        invariant WroteSoFar(block, after, w, drs, o, i, j)
      {
        var acc := StridedDot(o, i, j, m, w);
        assert 0 <= Pos(i, drs, j) < |block|;
        StoreOne(block, after, w, drs, o, i, j);
        after := after[Pos(i, drs, j) := acc];
      }
      NextRow(block, after, w, drs, o, i);
    }
    WroteAll(block, after, w, drs, o, m);
  }

  lemma WroteAll(before: seq<int>, after: seq<int>, w: nat, drs: nat, o: Operands, m: nat)
    requires WroteSoFar(before, after, w, drs, o, m, 0)
    ensures GemmWrote(before, after, m, w, drs, o)
  {
    forall p | 0 <= p < |after|
      ensures !Hit(p, m, w, drs) ==> after[p] == before[p]
      ensures Hit(p, m, w, drs)
              ==> exists i, j :: 0 <= i < m && 0 <= j < w && p == Pos(i, drs, j) && after[p] == o.Cell(i, j)
    {
      if exists i', j' :: Stored(i', j', m, 0, w) && p == Pos(i', drs, j') && after[p] == o.Cell(i', j') {
      } else {
        forall i, j | 0 <= i < m && 0 <= j < w ensures p != Pos(i, drs, j) {
          assert Stored(i, j, m, 0, w);
        }
      }
    }
  }

  lemma StoreOne(before: seq<int>, now: seq<int>, w: int, drs: int, o: Operands, i: int, j: int)
    requires WroteSoFar(before, now, w, drs, o, i, j) && 0 <= i && 0 <= j < w
    requires 0 <= Pos(i, drs, j) < |now|
    ensures WroteSoFar(before, now[Pos(i, drs, j) := o.Cell(i, j)], w, drs, o, i, j + 1)
  {
    var q := Pos(i, drs, j);
    var after := now[q := o.Cell(i, j)];
    forall p | 0 <= p < |after|
      ensures || (after[p] == before[p] && forall i', j' :: Stored(i', j', i, j + 1, w) ==> p != Pos(i', drs, j'))
              || (exists i', j' :: Stored(i', j', i, j + 1, w) && p == Pos(i', drs, j') && after[p] == o.Cell(i', j'))
    {
      if p == q {
        assert Stored(i, j, i, j + 1, w);
      } else if exists i', j' :: Stored(i', j', i, j, w) && p == Pos(i', drs, j') && now[p] == o.Cell(i', j') {
        var i', j' :| Stored(i', j', i, j, w) && p == Pos(i', drs, j') && now[p] == o.Cell(i', j');
        assert Stored(i', j', i, j + 1, w);
      } else {
        forall i', j' | Stored(i', j', i, j + 1, w) ensures p != Pos(i', drs, j') {
          if !(i' == i && j' == j) { assert Stored(i', j', i, j, w); }
        }
      }
    }
  }

  lemma NextRow(before: seq<int>, now: seq<int>, w: int, drs: int, o: Operands, i: int)
    requires WroteSoFar(before, now, w, drs, o, i, w)
    ensures WroteSoFar(before, now, w, drs, o, i + 1, 0)
  {
    forall p | 0 <= p < |now|
      ensures || (now[p] == before[p] && forall i', j' :: Stored(i', j', i + 1, 0, w) ==> p != Pos(i', drs, j'))
              || (exists i', j' :: Stored(i', j', i + 1, 0, w) && p == Pos(i', drs, j') && now[p] == o.Cell(i', j'))
    {
      if exists i', j' :: Stored(i', j', i, w, w) && p == Pos(i', drs, j') && now[p] == o.Cell(i', j') {
        var i', j' :| Stored(i', j', i, w, w) && p == Pos(i', drs, j') && now[p] == o.Cell(i', j');
        assert Stored(i', j', i + 1, 0, w);
      } else {
        forall i', j' | Stored(i', j', i + 1, 0, w) ensures p != Pos(i', drs, j') {
          assert Stored(i', j', i, w, w);
        }
      }
    }
  }

  // ---------------------------------------------------------------- MatMul::f

  /** The operands of `MatMul::f` are `[.., m, k]` and `[.., k, n]` with a common batch size. */
  ghost predicate Shaped(b: nat, m: nat, n: nat, k: nat, lhsL: Layout, rhsL: Layout) {
    var r := |lhsL.dims|;
    && r >= 2 && lhsL.Valid() && rhsL.Valid() && |rhsL.dims| == r
    && lhsL.dims[r - 2] == m && lhsL.dims[r - 1] == k && rhsL.dims[r - 2] == k && rhsL.dims[r - 1] == n
    && Prod(BatchDims(lhsL)) == b == Prod(BatchDims(rhsL))
    && (forall i :: 0 <= i < r ==> lhsL.strides[i] >= 0 && rhsL.strides[i] >= 0)
  }

  function OperandsOf(k: nat, lhs: seq<int>, lhsL: Layout, rhs: seq<int>, rhsL: Layout): Operands
    requires |lhsL.strides| >= 2 && |rhsL.strides| >= 2
  {
    var r, q := |lhsL.strides|, |rhsL.strides|;
    Operands(lhs, lhsL.start, lhsL.strides[r - 2], lhsL.strides[r - 1],
             rhs, rhsL.start, rhsL.strides[q - 2], rhsL.strides[q - 1], k)
  }

  /** Where entry `s` of the batch starts. */
  ghost function BatchOffset(l: Layout, s: int): int
    requires |l.dims| == |l.strides| >= 2 && 0 <= s < Prod(BatchDims(l))
  {
    Dot(Unravel(BatchDims(l), s), BatchStrides(l))
  }

  /** Entry `s` of both operands, found through the strides of the batch axes. */
  ghost function Entry(o: Operands, lhsL: Layout, rhsL: Layout, s: int): Operands
    requires |lhsL.dims| == |lhsL.strides| >= 2 && 0 <= s < Prod(BatchDims(lhsL))
    requires |rhsL.dims| == |rhsL.strides| >= 2 && 0 <= s < Prod(BatchDims(rhsL))
  {
    o.(lo := o.lo + BatchOffset(lhsL, s), ro := o.ro + BatchOffset(rhsL, s))
  }

  /** The batched product of two strided tensors. */
  ghost predicate IsMatMul(out: seq<int>, b: nat, m: nat, n: nat, o: Operands, lhsL: Layout, rhsL: Layout)
    requires Shaped(b, m, n, o.k, lhsL, rhsL)
  {
    && |out| == b * m * n
    && forall s, i, j :: 0 <= s < b && 0 <= i < m && 0 <= j < n
         ==> 0 <= Pos(Pos(s, m, i), n, j) < |out| && out[Pos(Pos(s, m, i), n, j)] == Entry(o, lhsL, rhsL, s).Cell(i, j)
  }

  /** Every element of both operands lies in its buffer. */
  ghost predicate ElementsInside(b: nat, m: nat, n: nat, o: Operands, lhsL: Layout, rhsL: Layout)
    requires Shaped(b, m, n, o.k, lhsL, rhsL)
  {
    && (forall s, i, t :: 0 <= s < b && 0 <= i < m && 0 <= t < o.k
         ==> 0 <= LhsIndex(Entry(o, lhsL, rhsL, s), 0, i, t, 0) < |o.lhs|)
    && (forall s, j, t :: 0 <= s < b && 0 <= j < n && 0 <= t < o.k
         ==> 0 <= RhsIndex(Entry(o, lhsL, rhsL, s), 0, j, t, 0) < |o.rhs|)
  }

  /** The condition a caller can check: no fold is taken, or the fold taken is exact. */
  predicate FoldExact(b: nat, m: nat, n: nat, k: nat, aSkip: int, bSkip: int, lrs: int, rcs: int) {
    if FoldsRows(m, k, aSkip, bSkip) then RowFoldExact(b, m, n, k, lrs)
    else if FoldsColumns(n, k, aSkip, bSkip) then ColFoldExact(b, m, n, k, rcs)
    else true
  }

  lemma SkipsInside(b: nat, m: nat, n: nat, o: Operands, lhsL: Layout, rhsL: Layout, aSkip: int, bSkip: int)
    requires Shaped(b, m, n, o.k, lhsL, rhsL) && ElementsInside(b, m, n, o, lhsL, rhsL)
    requires Walks(lhsL, aSkip) && Walks(rhsL, bSkip)
    ensures ReadsInside(o, b, m, n, aSkip, bSkip)
  {
    forall s, i, t | 0 <= s < b && 0 <= i < m && 0 <= t < o.k ensures 0 <= LhsIndex(o, s, i, t, aSkip) < |o.lhs| {
      assert LhsIndex(o, s, i, t, aSkip) == LhsIndex(Entry(o, lhsL, rhsL, s), 0, i, t, 0);
    }
    forall s, j, t | 0 <= s < b && 0 <= j < n && 0 <= t < o.k ensures 0 <= RhsIndex(o, s, j, t, bSkip) < |o.rhs| {
      assert RhsIndex(o, s, j, t, bSkip) == RhsIndex(Entry(o, lhsL, rhsL, s), 0, j, t, 0);
    }
  }

  lemma InsideSkips(b: nat, m: nat, n: nat, o: Operands, lhsL: Layout, rhsL: Layout, aSkip: int, bSkip: int)
    requires Shaped(b, m, n, o.k, lhsL, rhsL) && Walks(lhsL, aSkip) && Walks(rhsL, bSkip)
    requires m > 0 && n > 0 && ReadsInside(o, b, m, n, aSkip, bSkip)
    ensures ElementsInside(b, m, n, o, lhsL, rhsL)
  {
    forall s, i, t | 0 <= s < b && 0 <= i < m && 0 <= t < o.k
      ensures 0 <= LhsIndex(Entry(o, lhsL, rhsL, s), 0, i, t, 0) < |o.lhs|
    {
      assert LhsIndex(o, s, i, t, aSkip) == LhsIndex(Entry(o, lhsL, rhsL, s), 0, i, t, 0);
    }
    forall s, j, t | 0 <= s < b && 0 <= j < n && 0 <= t < o.k
      ensures 0 <= RhsIndex(Entry(o, lhsL, rhsL, s), 0, j, t, 0) < |o.rhs|
    {
      assert RhsIndex(o, s, j, t, bSkip) == RhsIndex(Entry(o, lhsL, rhsL, s), 0, j, t, 0);
    }
  }

  lemma BatchIsMatMul(out: seq<int>, b: nat, m: nat, n: nat, o: Operands, lhsL: Layout, rhsL: Layout, aSkip: int,
          bSkip: int)
    requires Shaped(b, m, n, o.k, lhsL, rhsL) && Walks(lhsL, aSkip) && Walks(rhsL, bSkip)
    ensures IsBatchProd(out, o, b, m, n, aSkip, bSkip) <==> IsMatMul(out, b, m, n, o, lhsL, rhsL)
  {
    forall s | 0 <= s < b ensures o.At(s, aSkip, bSkip) == Entry(o, lhsL, rhsL, s) {}
  }

  /** The block holds one product, row-major. */
  ghost predicate IsBlock(block: seq<int>, o: Operands, m: nat, n: nat) {
    && |block| == m * n
    && forall i, j :: 0 <= i < m && 0 <= j < n ==> 0 <= Pos(i, n, j) < |block| && block[Pos(i, n, j)] == o.Cell(i, j)
  }

  /** Chunk `s` of the output holds its product. */
  ghost predicate ChunkDone(dst: seq<int>, o: Operands, m: nat, n: nat, c: nat, s: int, aSkip: int, bSkip: int) {
    0 <= s * c && s * c + c <= |dst| && IsBlock(dst[s * c..s * c + c], o.At(s, aSkip, bSkip), m, n)
  }

  lemma OneEntry(o: Operands, b: nat, m: nat, n: nat, aSkip: int, bSkip: int, s: int)
    requires ReadsInside(o, b, m, n, aSkip, bSkip) && 0 <= s < b
    ensures ReadsInside(o.At(s, aSkip, bSkip), 1, m, n, 0, 0)
  {
    var q := o.At(s, aSkip, bSkip);
    if n > 0 {
      forall z, i, t | 0 <= z < 1 && 0 <= i < m && 0 <= t < o.k ensures 0 <= LhsIndex(q, z, i, t, 0) < |o.lhs| {
        assert LhsIndex(q, z, i, t, 0) == LhsIndex(o, s, i, t, aSkip);
      }
    }
    if m > 0 {
      forall z, j, t | 0 <= z < 1 && 0 <= j < n && 0 <= t < o.k ensures 0 <= RhsIndex(q, z, j, t, 0) < |o.rhs| {
        assert RhsIndex(q, z, j, t, 0) == RhsIndex(o, s, j, t, bSkip);
      }
    }
  }

  /** One product into a slice of exactly its size. */
  method GemmBlock(m: nat, n: nat, o: Operands, block: seq<int>) returns (after: seq<int>)
    requires ReadsInside(o, 1, m, n, 0, 0) && |block| == m * n
    ensures IsBlock(after, o, m, n)
  {
    forall i, j | 0 <= i < m && 0 <= j < n ensures 0 <= Pos(i, n, j) < |block| {
      Bound(i, m, j, n);
    }
    after := GemmStrided(m, n, o, block, n);
    forall i, j | 0 <= i < m && 0 <= j < n
      ensures 0 <= Pos(i, n, j) < |after| && after[Pos(i, n, j)] == o.Cell(i, j)
    {
      WroteCell(block, after, m, n, o, i, j);
    }
  }

  /** One turn of the batch loop: entry `step` into its own chunk, other chunks untouched. */
  method GemmChunk(m: nat, n: nat, o: Operands, dst: array<int>, c: nat, b: nat, step: nat, aSkip: int, bSkip: int)
    requires ReadsInside(o, b, m, n, aSkip, bSkip) && step < b && c == m * n && dst.Length == b * c
    modifies dst
    ensures ChunkDone(dst[..], o, m, n, c, step, aSkip, bSkip)
    ensures forall s :: 0 <= s < b && s != step && ChunkDone(old(dst[..]), o, m, n, c, s, aSkip, bSkip)
              ==> ChunkDone(dst[..], o, m, n, c, s, aSkip, bSkip)
  {
    var lo := step * c;
    MulMono(0, step, c); MulMono(step + 1, b, c); Dist(step, 1, c);
    OneEntry(o, b, m, n, aSkip, bSkip, step);
    var block := GemmBlock(m, n, o.At(step, aSkip, bSkip), dst[lo..lo + c]);
    forall p | 0 <= p < c {
      dst[lo + p] := block[p];
    }
    assert dst[lo..lo + c] == block;
    forall s | 0 <= s < b && s != step && ChunkDone(old(dst[..]), o, m, n, c, s, aSkip, bSkip)
      ensures ChunkDone(dst[..], o, m, n, c, s, aSkip, bSkip)
    {
      MulMono(s + 1, step, c); MulMono(step + 1, s, c); Dist(s, 1, c); Dist(step, 1, c);
      assert dst[..][s * c..s * c + c] == old(dst[..])[s * c..s * c + c];
    }
  }

  lemma ChunksAreBatch(dst: seq<int>, o: Operands, b: nat, m: nat, n: nat, c: nat, aSkip: int, bSkip: int)
    requires c == m * n && |dst| == b * c
    requires forall s :: 0 <= s < b ==> ChunkDone(dst, o, m, n, c, s, aSkip, bSkip)
    ensures IsBatchProd(dst, o, b, m, n, aSkip, bSkip)
  {
    Mul3(b, m, n);
    forall s, i, j | 0 <= s < b && 0 <= i < m && 0 <= j < n
      ensures 0 <= Pos(Pos(s, m, i), n, j) < |dst| && dst[Pos(Pos(s, m, i), n, j)] == o.At(s, aSkip, bSkip).Cell(i, j)
    {
      assert ChunkDone(dst, o, m, n, c, s, aSkip, bSkip);
      Bound(i, m, j, n);
      Horner3(s, i, j, m, n);
      assert dst[s * c..s * c + c][Pos(i, n, j)] == dst[s * c + Pos(i, n, j)];
    }
  }

  /** The per-entry loop, one after another or spread over threads in any order. */
  method BatchLoop(b: nat, m: nat, n: nat, o: Operands, aSkip: int, bSkip: int, parallel: bool) returns (out: seq<int>)
    requires ReadsInside(o, b, m, n, aSkip, bSkip)
    ensures IsBatchProd(out, o, b, m, n, aSkip, bSkip)
  {
    var c := m * n;
    var dst := new int[b * c](_ => 0);
    if parallel {
      var todo := Range(b);
      while todo != {}
        invariant todo <= Range(b)
        invariant forall s :: 0 <= s < b && s !in todo ==> ChunkDone(dst[..], o, m, n, c, s, aSkip, bSkip)
        decreases todo
      {
        var step :| step in todo;
        GemmChunk(m, n, o, dst, c, b, step, aSkip, bSkip);
        todo := todo - {step};
      }
    } else {
      for step := 0 to b
        invariant forall s :: 0 <= s < step ==> ChunkDone(dst[..], o, m, n, c, s, aSkip, bSkip)
      {
        GemmChunk(m, n, o, dst, c, b, step, aSkip, bSkip);
      }
    }
    out := dst[..];
    ChunksAreBatch(out, o, b, m, n, c, aSkip, bSkip);
  }

  /** Whether the reads of one product of `m` rows and `n` columns stay inside both buffers. */
  predicate Stays(o: Operands, m: nat, n: nat) {
    m == 0 || n == 0 || o.k == 0
    || (&& 0 <= o.lo && o.lo + (m - 1) * o.lrs + (o.k - 1) * o.lcs < |o.lhs|
        && 0 <= o.ro && o.ro + (n - 1) * o.rcs + (o.k - 1) * o.rrs < |o.rhs|)
  }

  lemma StaysInside(o: Operands, m: nat, n: nat)
    requires o.lrs >= 0 && o.lcs >= 0 && o.rrs >= 0 && o.rcs >= 0
    ensures Stays(o, m, n) <==> ReadsInside(o, 1, m, n, 0, 0)
  {
    if Stays(o, m, n) {
      if n > 0 {
        forall z, i, t | 0 <= z < 1 && 0 <= i < m && 0 <= t < o.k ensures 0 <= LhsIndex(o, z, i, t, 0) < |o.lhs| {
          MulMono(0, i, o.lrs); MulMono(i, m - 1, o.lrs); MulMono(0, t, o.lcs); MulMono(t, o.k - 1, o.lcs);
        }
      }
      if m > 0 {
        forall z, j, t | 0 <= z < 1 && 0 <= j < n && 0 <= t < o.k ensures 0 <= RhsIndex(o, z, j, t, 0) < |o.rhs| {
          MulMono(0, j, o.rcs); MulMono(j, n - 1, o.rcs); MulMono(0, t, o.rrs); MulMono(t, o.k - 1, o.rrs);
        }
      }
    }
    if m > 0 && n > 0 && o.k > 0 && ReadsInside(o, 1, m, n, 0, 0) {
      assert 0 <= LhsIndex(o, 0, 0, 0, 0) && LhsIndex(o, 0, m - 1, o.k - 1, 0) < |o.lhs|;
      assert 0 <= RhsIndex(o, 0, 0, 0, 0) && RhsIndex(o, 0, n - 1, o.k - 1, 0) < |o.rhs|;
    }
  }

  lemma RowFoldInside(o: Operands, b: nat, m: nat, n: nat)
    requires RowFoldExact(b, m, n, o.k, o.lrs) && ReadsInside(o, b, m, n, m * o.k, 0)
    ensures ReadsInside(o, 1, b * m, n, 0, 0)
  {
    if n > 0 {
      forall z, I, t | 0 <= z < 1 && 0 <= I < b * m && 0 <= t < o.k ensures 0 <= LhsIndex(o, z, I, t, 0) < |o.lhs| {
        assert m > 0;
        DivBound(I, b, m);
        var s, i := Hi(I, m), Lo(I, m);
        if o.lrs == o.k { Dist(s * m, i, o.k); Mul3(s, m, o.k); }
        assert LhsIndex(o, z, I, t, 0) == LhsIndex(o, s, i, t, m * o.k);
      }
    }
    if b * m > 0 {
      forall z, j, t | 0 <= z < 1 && 0 <= j < n && 0 <= t < o.k ensures 0 <= RhsIndex(o, z, j, t, 0) < |o.rhs| {
        assert b > 0 && m > 0;
        assert RhsIndex(o, z, j, t, 0) == RhsIndex(o, 0, j, t, 0);
      }
    }
  }

  lemma ColFoldInside(o: Operands, b: nat, m: nat, n: nat)
    requires ColFoldExact(b, m, n, o.k, o.rcs) && ReadsInside(o, b, m, n, 0, n * o.k)
    ensures ReadsInside(o, 1, m, b * n, 0, 0)
  {
    if b * n > 0 {
      forall z, i, t | 0 <= z < 1 && 0 <= i < m && 0 <= t < o.k ensures 0 <= LhsIndex(o, z, i, t, 0) < |o.lhs| {
        assert b > 0 && n > 0;
        assert LhsIndex(o, z, i, t, 0) == LhsIndex(o, 0, i, t, 0);
      }
    }
    if m > 0 {
      forall z, J, t | 0 <= z < 1 && 0 <= J < b * n && 0 <= t < o.k ensures 0 <= RhsIndex(o, z, J, t, 0) < |o.rhs| {
        assert n > 0;
        DivBound(J, b, n);
        var s, j := Hi(J, n), Lo(J, n);
        if o.rcs == o.k { Dist(s * n, j, o.k); Mul3(s, n, o.k); }
        assert RhsIndex(o, z, J, t, 0) == RhsIndex(o, s, j, t, n * o.k);
      }
    }
  }

  /** The product of the folded shape, stored with the row stride of the unfolded one. */
  method FoldedGemm(rows: nat, cols: nat, o: Operands, len: nat, drs: nat) returns (out: seq<int>)
    requires ReadsInside(o, 1, rows, cols, 0, 0)
    requires forall i, j :: 0 <= i < rows && 0 <= j < cols ==> 0 <= Pos(i, drs, j) < len
    ensures GemmWrote(Zeroed(len), out, rows, cols, drs, o)
  {
    var dst := seq(len, _ => 0);
    assert dst == Zeroed(len);
    out := GemmStrided(rows, cols, o, dst, drs);
  }

  lemma RowFoldFits(b: nat, m: nat, n: nat)
    ensures forall i, j :: 0 <= i < b * m && 0 <= j < n ==> 0 <= Pos(i, n, j) < b * m * n
  {
    forall i, j | 0 <= i < b * m && 0 <= j < n ensures 0 <= Pos(i, n, j) < b * m * n {
      Bound(i, b * m, j, n);
    }
  }

  lemma ColFoldFits(b: nat, m: nat, n: nat)
    ensures forall i, j :: 0 <= i < m && 0 <= j < b * n ==> 0 <= Pos(i, n, j) < b * m * n
  {
    forall i, j | 0 <= i < m && 0 <= j < b * n ensures 0 <= Pos(i, n, j) < b * m * n {
      ColFoldBound(b, m, n, i, j);
    }
  }

  lemma ColFoldBound(b: nat, m: nat, n: nat, i: int, j: int)
    requires 0 <= i < m && 0 <= j < b * n
    ensures 0 <= i * n + j < b * m * n
  {
    MulMono(0, i, n);
    MulMono(i, m - 1, n);
    SumBelowProduct(b, m) by { assert b > 0; }
    MulMono(m - 1 + b, b * m, n);
    Dist(m - 1, b, n);
  }

  lemma SumBelowProduct(b: int, m: int)
    requires b >= 1 && m >= 1
    ensures m - 1 + b <= b * m
  {
    MulMono(1, m, b - 1);
    Dist(b, -1, m);
  }

  predicate FoldsRows(m: nat, k: nat, aSkip: int, bSkip: int) { bSkip == 0 && aSkip == m * k }

  predicate FoldsColumns(n: nat, k: nat, aSkip: int, bSkip: int) { aSkip == 0 && bSkip == n * k }

  /** Both operands can be sliced where they start. */
  predicate StartsInside(o: Operands) { o.lo <= |o.lhs| && o.ro <= |o.rhs| }

  /** And where each batch entry starts. */
  ghost predicate StepsInside(o: Operands, b: nat, aSkip: int, bSkip: int) {
    forall s :: 0 <= s < b ==> StartsInside(o.At(s, aSkip, bSkip))
  }

  /** The slices of the batch loop, or the reads of the fold that is taken instead, stay inside. */
  ghost predicate FoldInside(o: Operands, b: nat, m: nat, n: nat, aSkip: int, bSkip: int) {
    if FoldsRows(m, o.k, aSkip, bSkip) then ReadsInside(o, 1, b * m, n, 0, 0)
    else if FoldsColumns(n, o.k, aSkip, bSkip) then ReadsInside(o, 1, m, b * n, 0, 0)
    else StepsInside(o, b, aSkip, bSkip)
  }

  /** Every slice the kernel takes is there. Only an operand without elements can lack one. */
  ghost predicate SlicesInside(o: Operands, b: nat, m: nat, n: nat, aSkip: int, bSkip: int) {
    && StartsInside(o)
    && (FoldsRows(m, o.k, aSkip, bSkip) || FoldsColumns(n, o.k, aSkip, bSkip) || StepsInside(o, b, aSkip, bSkip))
  }

  lemma ElementsHoldSlices(o: Operands, b: nat, m: nat, n: nat, aSkip: int, bSkip: int)
    requires b > 0 && m > 0 && n > 0 && o.k > 0 && ReadsInside(o, b, m, n, aSkip, bSkip)
    ensures SlicesInside(o, b, m, n, aSkip, bSkip) && StepsInside(o, b, aSkip, bSkip)
  {
    forall s | 0 <= s < b ensures StartsInside(o.At(s, aSkip, bSkip)) {
      assert LhsIndex(o, s, 0, 0, aSkip) == o.At(s, aSkip, bSkip).lo < |o.lhs|;
      assert RhsIndex(o, s, 0, 0, bSkip) == o.At(s, aSkip, bSkip).ro < |o.rhs|;
    }
    assert StartsInside(o.At(0, aSkip, bSkip));
  }

  /** The starts grow, so the last one decides. */
  lemma LastStep(o: Operands, b: nat, aSkip: nat, bSkip: nat)
    ensures StepsInside(o, b, aSkip, bSkip) <==> b == 0 || StartsInside(o.At(b - 1, aSkip, bSkip))
  {
    forall s | 0 <= s < b && StartsInside(o.At(b - 1, aSkip, bSkip)) ensures StartsInside(o.At(s, aSkip, bSkip)) {
      MulMono(s, b - 1, aSkip);
      MulMono(s, b - 1, bSkip);
    }
  }

  /** What the kernel may leave: a gemm of the folded shape, or the batched product. */
  ghost predicate MayLeave(out: seq<int>, o: Operands, b: nat, m: nat, n: nat, aSkip: int, bSkip: int) {
    if FoldsRows(m, o.k, aSkip, bSkip) then GemmWrote(Zeroed(b * m * n), out, b * m, n, n, o)
    else if FoldsColumns(n, o.k, aSkip, bSkip) then GemmWrote(Zeroed(b * m * n), out, m, b * n, n, o)
    else IsBatchProd(out, o, b, m, n, aSkip, bSkip)
  }

  /** The choice between the two folds and the batch loop. */
  method Dispatch(b: nat, m: nat, n: nat, o: Operands, aSkip: int, bSkip: int, numThreads: nat)
          returns (r: Result<seq<int>>)
    requires ReadsInside(o, b, m, n, aSkip, bSkip)
    requires o.lrs >= 0 && o.lcs >= 0 && o.rrs >= 0 && o.rcs >= 0 && aSkip >= 0 && bSkip >= 0
    ensures if FoldInside(o, b, m, n, aSkip, bSkip) then r.Ok? && MayLeave(r.value, o, b, m, n, aSkip, bSkip)
            else r == Err(OutOfBounds)
  {
    if bSkip == 0 && aSkip == m * o.k {
      StaysInside(o, b * m, n);
      if !Stays(o, b * m, n) {
        return Err(OutOfBounds);
      }
      RowFoldFits(b, m, n);
      var out := FoldedGemm(b * m, n, o, b * m * n, n);
      return Ok(out);
    }
    if aSkip == 0 && bSkip == n * o.k {
      StaysInside(o, m, b * n);
      if !Stays(o, m, b * n) {
        return Err(OutOfBounds);
      }
      ColFoldFits(b, m, n);
      var out := FoldedGemm(m, b * n, o, b * m * n, n);
      return Ok(out);
    }
    LastStep(o, b, aSkip, bSkip);
    if b > 0 && !StartsInside(o.At(b - 1, aSkip, bSkip)) {
      return Err(OutOfBounds);
    }
    var out := BatchLoop(b, m, n, o, aSkip, bSkip, b > 1 && numThreads > 1 && m * n * o.k < 100_000 && m * n > 0);
    return Ok(out);
  }

  /** Both batches have a stride that walks them. */
  predicate Walked(m: nat, n: nat, k: nat, lhsL: Layout, rhsL: Layout)
    requires |lhsL.dims| == |lhsL.strides| >= 2 && |rhsL.dims| == |rhsL.strides| >= 2
  {
    Skip(lhsL, m * k).Ok? && Skip(rhsL, n * k).Ok?
  }

  /** Batched matrix product.  A batch that no single stride walks is refused; otherwise the
      kernel leaves the batched product or a gemm of the folded shape, unless a slice or the fold
      is outside; and an exact fold neither is that nor changes the result. */
  method MatMulF(b: nat, m: nat, n: nat, k: nat, lhs: seq<int>, lhsL: Layout, rhs: seq<int>, rhsL: Layout,
          numThreads: nat)
    returns (r: Result<seq<int>>)
    requires Shaped(b, m, n, k, lhsL, rhsL) && ElementsInside(b, m, n, OperandsOf(k, lhs, lhsL, rhs, rhsL), lhsL, rhsL)
    ensures r == Err(UnexpectedStriding) <==>
              StartsInside(OperandsOf(k, lhs, lhsL, rhs, rhsL)) && !Walked(m, n, k, lhsL, rhsL)
    ensures !StartsInside(OperandsOf(k, lhs, lhsL, rhs, rhsL)) ==> r == Err(OutOfBounds)
    ensures Walked(m, n, k, lhsL, rhsL) ==>
              var o, aSkip, bSkip := OperandsOf(k, lhs, lhsL, rhs, rhsL), Skip(lhsL, m * k).value,
                  Skip(rhsL, n * k).value;
              && (if StartsInside(o) && FoldInside(o, b, m, n, aSkip, bSkip)
                  then r.Ok? && MayLeave(r.value, o, b, m, n, aSkip, bSkip) else r == Err(OutOfBounds))
              && (FoldExact(b, m, n, k, aSkip, bSkip, o.lrs, o.rcs)
                  && (SlicesInside(o, b, m, n, aSkip, bSkip) || (b > 0 && m > 0 && n > 0 && k > 0))
                  ==> r.Ok? && IsMatMul(r.value, b, m, n, o, lhsL, rhsL))
  {
    var o := OperandsOf(k, lhs, lhsL, rhs, rhsL);
    var skipL, skipR := Skip(lhsL, m * k), Skip(rhsL, n * k);
    if !StartsInside(o) {
      if Walked(m, n, k, lhsL, rhsL) {
        StartsLost(b, m, n, k, lhs, lhsL, rhs, rhsL);
      }
      return Err(OutOfBounds);
    }
    if skipL.Err? || skipR.Err? {
      return Err(UnexpectedStriding);
    }
    var aSkip, bSkip := skipL.value, skipR.value;
    SkipWalks(lhsL, m * k);
    SkipWalks(rhsL, n * k);
    SkipsInside(b, m, n, o, lhsL, rhsL, aSkip, bSkip);
    r := Dispatch(b, m, n, o, aSkip, bSkip, numThreads);
    if b > 0 && m > 0 && n > 0 && k > 0 {
      ElementsHoldSlices(o, b, m, n, aSkip, bSkip);
    }
    if FoldExact(b, m, n, k, aSkip, bSkip, o.lrs, o.rcs) && SlicesInside(o, b, m, n, aSkip, bSkip) {
      ExactInside(b, m, n, o, aSkip, bSkip);
      ExactLeaves(r.value, b, m, n, o, aSkip, bSkip);
      BatchIsMatMul(r.value, b, m, n, o, lhsL, rhsL, aSkip, bSkip);
    }
  }

  /** An operand that starts outside its buffer has no elements. */
  lemma StartsLost(b: nat, m: nat, n: nat, k: nat, lhs: seq<int>, lhsL: Layout, rhs: seq<int>, rhsL: Layout)
    requires Shaped(b, m, n, k, lhsL, rhsL) && ElementsInside(b, m, n, OperandsOf(k, lhs, lhsL, rhs, rhsL), lhsL, rhsL)
    requires Walked(m, n, k, lhsL, rhsL) && !StartsInside(OperandsOf(k, lhs, lhsL, rhs, rhsL))
    ensures b == 0 || m == 0 || n == 0 || k == 0
  {
    var o, aSkip, bSkip := OperandsOf(k, lhs, lhsL, rhs, rhsL), Skip(lhsL, m * k).value, Skip(rhsL, n * k).value;
    SkipWalks(lhsL, m * k);
    SkipWalks(rhsL, n * k);
    SkipsInside(b, m, n, o, lhsL, rhsL, aSkip, bSkip);
    if b > 0 && m > 0 && n > 0 && k > 0 {
      ElementsHoldSlices(o, b, m, n, aSkip, bSkip);
    }
  }

  lemma ExactInside(b: nat, m: nat, n: nat, o: Operands, aSkip: int, bSkip: int)
    requires ReadsInside(o, b, m, n, aSkip, bSkip) && FoldExact(b, m, n, o.k, aSkip, bSkip, o.lrs, o.rcs)
    requires SlicesInside(o, b, m, n, aSkip, bSkip)
    ensures FoldInside(o, b, m, n, aSkip, bSkip)
  {
    if FoldsRows(m, o.k, aSkip, bSkip) {
      RowFoldInside(o, b, m, n);
    } else if FoldsColumns(n, o.k, aSkip, bSkip) {
      ColFoldInside(o, b, m, n);
    }
  }

  lemma ExactLeaves(out: seq<int>, b: nat, m: nat, n: nat, o: Operands, aSkip: int, bSkip: int)
    requires FoldExact(b, m, n, o.k, aSkip, bSkip, o.lrs, o.rcs) && MayLeave(out, o, b, m, n, aSkip, bSkip)
    ensures IsBatchProd(out, o, b, m, n, aSkip, bSkip)
  {
    if FoldsRows(m, o.k, aSkip, bSkip) {
      RowFoldResult(o, b, m, n, Zeroed(b * m * n), out);
    } else if FoldsColumns(n, o.k, aSkip, bSkip) {
      ColFoldResult(o, b, m, n, Zeroed(b * m * n), out);
    }
  }

  // ---------------------------------------------------------------- when the kernel is right

  /** On this data the kernel can only leave the batched product. */
  ghost predicate AlwaysRight(b: nat, m: nat, n: nat, k: nat, lhs: seq<int>, lhsL: Layout, rhs: seq<int>, rhsL: Layout)
    requires Shaped(b, m, n, k, lhsL, rhsL) && Walked(m, n, k, lhsL, rhsL)
  {
    var o, aSkip, bSkip := OperandsOf(k, lhs, lhsL, rhs, rhsL), Skip(lhsL, m * k).value, Skip(rhsL, n * k).value;
    ElementsInside(b, m, n, o, lhsL, rhsL) && StartsInside(o) && FoldInside(o, b, m, n, aSkip, bSkip) ==>
      forall out :: MayLeave(out, o, b, m, n, aSkip, bSkip) ==> IsMatMul(out, b, m, n, o, lhsL, rhsL)
  }

  /** Over given layouts the kernel leaves the batched product for all data within bounds
      exactly when the fold it takes, if any, is exact. */
  lemma MatMulIff(b: nat, m: nat, n: nat, k: nat, lhsL: Layout, rhsL: Layout)
    requires Shaped(b, m, n, k, lhsL, rhsL) && Walked(m, n, k, lhsL, rhsL)
    ensures FoldExact(b, m, n, k, Skip(lhsL, m * k).value, Skip(rhsL, n * k).value,
                      lhsL.strides[|lhsL.strides| - 2], rhsL.strides[|rhsL.strides| - 1])
            <==> forall lhs, rhs :: AlwaysRight(b, m, n, k, lhs, lhsL, rhs, rhsL)
  {
    var aSkip, bSkip := Skip(lhsL, m * k).value, Skip(rhsL, n * k).value;
    SkipWalks(lhsL, m * k);
    SkipWalks(rhsL, n * k);
    if FoldExact(b, m, n, k, aSkip, bSkip, lhsL.strides[|lhsL.strides| - 2], rhsL.strides[|rhsL.strides| - 1]) {
      forall lhs, rhs ensures AlwaysRight(b, m, n, k, lhs, lhsL, rhs, rhsL) {
        var o := OperandsOf(k, lhs, lhsL, rhs, rhsL);
        forall out | MayLeave(out, o, b, m, n, aSkip, bSkip) ensures IsMatMul(out, b, m, n, o, lhsL, rhsL) {
          ExactLeaves(out, b, m, n, o, aSkip, bSkip);
          BatchIsMatMul(out, b, m, n, o, lhsL, rhsL, aSkip, bSkip);
        }
      }
    } else {
      var lhs, rhs := InexactFold(b, m, n, k, lhsL, rhsL);
      var out := SomethingLeft(b, m, n, OperandsOf(k, lhs, lhsL, rhs, rhsL), aSkip, bSkip);
      assert !AlwaysRight(b, m, n, k, lhs, lhsL, rhs, rhsL);
    }
  }

  lemma SomethingLeft(b: nat, m: nat, n: nat, o: Operands, aSkip: int, bSkip: int) returns (out: seq<int>)
    requires FoldsRows(m, o.k, aSkip, bSkip) || FoldsColumns(n, o.k, aSkip, bSkip)
    ensures MayLeave(out, o, b, m, n, aSkip, bSkip)
  {
    if FoldsRows(m, o.k, aSkip, bSkip) {
      GemmCanWrite(Zeroed(b * m * n), b * m, n, n, o);
      out :| GemmWrote(Zeroed(b * m * n), out, b * m, n, n, o);
    } else {
      GemmCanWrite(Zeroed(b * m * n), m, b * n, n, o);
      out :| GemmWrote(Zeroed(b * m * n), out, m, b * n, n, o);
    }
  }

  /** When the fold is not exact, data within bounds exists on which the kernel returns, and
      nothing it may leave is the batched product. */
  lemma InexactFold(b: nat, m: nat, n: nat, k: nat, lhsL: Layout, rhsL: Layout) returns (lhs: seq<int>, rhs: seq<int>)
    requires Shaped(b, m, n, k, lhsL, rhsL) && Walked(m, n, k, lhsL, rhsL)
    requires !FoldExact(b, m, n, k, Skip(lhsL, m * k).value, Skip(rhsL, n * k).value,
                        lhsL.strides[|lhsL.strides| - 2], rhsL.strides[|rhsL.strides| - 1])
    ensures var o, aSkip, bSkip := OperandsOf(k, lhs, lhsL, rhs, rhsL), Skip(lhsL, m * k).value,
            Skip(rhsL, n * k).value;
            && ElementsInside(b, m, n, o, lhsL, rhsL) && StartsInside(o) && FoldInside(o, b, m, n, aSkip, bSkip)
            && forall out :: MayLeave(out, o, b, m, n, aSkip, bSkip) ==> !IsMatMul(out, b, m, n, o, lhsL, rhsL)
  {
    var aSkip, bSkip := Skip(lhsL, m * k).value, Skip(rhsL, n * k).value;
    var q, o := OperandsOf(k, [], lhsL, [], rhsL), OperandsOf(k, [], lhsL, [], rhsL);
    if FoldsRows(m, k, aSkip, bSkip) {
      o := RowFoldFails(b, m, n, k, q.lo, q.lrs, q.lcs, q.ro, q.rrs, q.rcs);
      forall out | MayLeave(out, o, b, m, n, aSkip, bSkip) ensures !IsBatchProd(out, o, b, m, n, aSkip, bSkip) {
        RowFoldMisses(o, b, m, n, out);
      }
    } else {
      o := ColFoldFails(b, m, n, k, q.lo, q.lrs, q.lcs, q.ro, q.rrs, q.rcs);
    }
    lhs, rhs := o.lhs, o.rhs;
    ElementsHoldSlices(o, b, m, n, aSkip, bSkip);
    SkipWalks(lhsL, m * k);
    SkipWalks(rhsL, n * k);
    InsideSkips(b, m, n, o, lhsL, rhsL, aSkip, bSkip);
    forall out | MayLeave(out, o, b, m, n, aSkip, bSkip) ensures !IsMatMul(out, b, m, n, o, lhsL, rhsL) {
      BatchIsMatMul(out, b, m, n, o, lhsL, rhsL, aSkip, bSkip);
    }
  }

  // ---------------------------------------------------------------- what the product means

  /** Element `(i, j)` of the matrix at entry `s` of a strided batch. */
  ghost function MatrixElement(data: seq<int>, l: Layout, s: int, i: int, j: int): int
    requires l.Valid() && |l.dims| >= 2 && 0 <= s < Prod(BatchDims(l))
  {
    Sums.At(data, l.start + Dot(Unravel(BatchDims(l), s) + [i, j], l.strides))
  }

  lemma MatrixDot(c: seq<int>, bs: seq<int>, i: int, j: int, rs: int, cs: int)
    requires |c| == |bs|
    ensures Dot(c + [i, j], bs + [rs, cs]) == Dot(c, bs) + i * rs + j * cs
  {
    DotConcat(c, [i, j], bs, [rs, cs]);
    Rank2([0, 0], [i, j], [rs, cs]);
  }

  lemma ElementIs(data: seq<int>, l: Layout, s: int, i: int, j: int)
    requires l.Valid() && |l.dims| >= 2 && 0 <= s < Prod(BatchDims(l))
    ensures var r := |l.dims|;
            MatrixElement(data, l, s, i, j)
            == Sums.At(data, l.start + BatchOffset(l, s) + i * l.strides[r - 2] + j * l.strides[r - 1])
  {
    var r := |l.dims|;
    assert l.strides == BatchStrides(l) + [l.strides[r - 2], l.strides[r - 1]];
    MatrixDot(Unravel(BatchDims(l), s), BatchStrides(l), i, j, l.strides[r - 2], l.strides[r - 1]);
  }

  ghost function TermOf(lhs: seq<int>, lhsL: Layout, rhs: seq<int>, rhsL: Layout, s: int, i: int, j: int): int -> int
    requires lhsL.Valid() && |lhsL.dims| >= 2 && 0 <= s < Prod(BatchDims(lhsL))
    requires rhsL.Valid() && |rhsL.dims| >= 2 && 0 <= s < Prod(BatchDims(rhsL))
  {
    t => MatrixElement(lhs, lhsL, s, i, t) * MatrixElement(rhs, rhsL, s, t, j)
  }

  /** What a batched product holds: at `(s, i, j)` row `i` of entry `s` of the one operand times
      column `j` of entry `s` of the other, each found by its coordinates. */
  lemma MatMulMeans(out: seq<int>, b: nat, m: nat, n: nat, k: nat, lhs: seq<int>, lhsL: Layout, rhs: seq<int>,
          rhsL: Layout, s: int, i: int, j: int)
    requires Shaped(b, m, n, k, lhsL, rhsL) && IsMatMul(out, b, m, n, OperandsOf(k, lhs, lhsL, rhs, rhsL), lhsL, rhsL)
    requires 0 <= s < b && 0 <= i < m && 0 <= j < n
    ensures |out| == b * m * n && 0 <= Pos(Pos(s, m, i), n, j) < |out|
    ensures out[Pos(Pos(s, m, i), n, j)] == Sum(k, TermOf(lhs, lhsL, rhs, rhsL, s, i, j))
  {
    CellMeans(b, m, n, k, lhs, lhsL, rhs, rhsL, s, i, j);
  }

  lemma CellMeans(b: nat, m: nat, n: nat, k: nat, lhs: seq<int>, lhsL: Layout, rhs: seq<int>, rhsL: Layout, s: int,
          i: int, j: int)
    requires Shaped(b, m, n, k, lhsL, rhsL) && 0 <= s < b
    ensures Entry(OperandsOf(k, lhs, lhsL, rhs, rhsL), lhsL, rhsL, s).Cell(i, j)
            == Sum(k, TermOf(lhs, lhsL, rhs, rhsL, s, i, j))
  {
    var e := Entry(OperandsOf(k, lhs, lhsL, rhs, rhsL), lhsL, rhsL, s);
    var f := DotTerm(e.lhs, e.lo + i * e.lrs, e.lcs, e.rhs, e.ro + j * e.rcs, e.rrs);
    var g := TermOf(lhs, lhsL, rhs, rhsL, s, i, j);
    forall t | 0 <= t < k ensures f(t) == g(t) {
      var x, y := Sums.At(lhs, e.lo + i * e.lrs + t * e.lcs), Sums.At(rhs, e.ro + j * e.rcs + t * e.rrs);
      assert f(t) == x * y;
      assert MatrixElement(lhs, lhsL, s, i, t) == x by { ElementIs(lhs, lhsL, s, i, t); }
      assert MatrixElement(rhs, rhsL, s, t, j) == y by { ElementIs(rhs, rhsL, s, t, j); }
    }
    SumExt(k, f, g);
  }

  lemma Offsets1(b: nat, stride: int, s: int)
    requires 0 <= s < b
    ensures Prod([b]) == b && Dot(Unravel([b], s), [stride]) == s * stride
  {
    Rank1([b], [s], [stride]);
    UnravelIs([b], [s]);
  }

  /** Two batch entries of one element each, `step` apart, in rows and columns `gap` apart. */
  function TwoOnes(step: nat, rowGap: nat, colGap: nat): Layout { Layout([2, 1, 1], [step, rowGap, colGap], 0) }

  lemma TwoOnesEntry(l: Layout, step: nat, rowGap: nat, colGap: nat, s: int)
    requires l == TwoOnes(step, rowGap, colGap) && 0 <= s < 2
    ensures BatchDims(l) == [2] && Prod(BatchDims(l)) == 2 && BatchOffset(l, s) == s * step
  {
    assert BatchDims(l) == [2] && BatchStrides(l) == [step];
    Offsets1(2, step, s);
  }

  lemma TwoOnesShaped(lhsL: Layout, rhsL: Layout, a: nat, rg: nat, b: nat, cg: nat)
    requires lhsL == TwoOnes(a, rg, 1) && rhsL == TwoOnes(b, 1, cg)
    ensures Shaped(2, 1, 1, 1, lhsL, rhsL) && Skip(lhsL, 1) == Ok(a) && Skip(rhsL, 1) == Ok(b)
  {
    TwoOnesEntry(lhsL, a, rg, 1, 0);
    TwoOnesEntry(rhsL, b, 1, cg, 0);
    assert lhsL.strides[..1] == [a] && rhsL.strides[..1] == [b];
  }

  lemma TwoOnesInside(lhs: seq<int>, lhsL: Layout, rhs: seq<int>, rhsL: Layout, a: nat, rg: nat, b: nat, cg: nat)
    requires lhsL == TwoOnes(a, rg, 1) && rhsL == TwoOnes(b, 1, cg) && a < |lhs| && b < |rhs|
    requires Shaped(2, 1, 1, 1, lhsL, rhsL)
    ensures ElementsInside(2, 1, 1, OperandsOf(1, lhs, lhsL, rhs, rhsL), lhsL, rhsL)
  {
    var o := OperandsOf(1, lhs, lhsL, rhs, rhsL);
    forall s | 0 <= s < 2
      ensures 0 <= LhsIndex(Entry(o, lhsL, rhsL, s), 0, 0, 0, 0) < |lhs|
      ensures 0 <= RhsIndex(Entry(o, lhsL, rhsL, s), 0, 0, 0, 0) < |rhs|
    {
      TwoOnesEntry(lhsL, a, rg, 1, s);
      TwoOnesEntry(rhsL, b, 1, cg, s);
      if s == 1 {} else {}
    }
  }

  lemma OneTerm(o: Operands, i: int, j: int, x: int, y: int)
    requires o.k == o.lcs == o.rrs == 1
    requires x == Sums.At(o.lhs, o.lo + i * o.lrs) && y == Sums.At(o.rhs, o.ro + j * o.rcs)
    ensures o.Cell(i, j) == x * y
  {
    assert Sum(0, DotTerm(o.lhs, o.lo + i * o.lrs, 1, o.rhs, o.ro + j * o.rcs, 1)) == 0;
  }

  lemma RowCells(o: Operands, out: seq<int>)
    requires o == Operands([1, 2, 0, 0, 0, 7], 0, 5, 1, [1], 0, 1, 1, 1) && |out| == 2
    requires GemmWrote(Zeroed(2), out, 2, 1, 1, o)
    ensures out == [1, 7]
  {
    assert out[0] == o.Cell(0, 0) by { WroteCell(Zeroed(2), out, 2, 1, o, 0, 0); }
    assert out[1] == o.Cell(1, 0) by { WroteCell(Zeroed(2), out, 2, 1, o, 1, 0); }
    OneTerm(o, 0, 0, 1, 1);
    OneTerm(o, 1, 0, 7, 1);
  }

  lemma ColCells(o: Operands, out: seq<int>)
    requires o == Operands([1], 0, 1, 1, [1, 2, 0, 0, 0, 7], 0, 1, 5, 1) && |out| == 2
    requires GemmWrote(Zeroed(2), out, 1, 2, 1, o)
    ensures out == [1, 7]
  {
    OneRowCell(o, Zeroed(2), out, 2, 1, 0);
    OneRowCell(o, Zeroed(2), out, 2, 1, 1);
    OneTerm(o, 0, 0, 1, 1);
    OneTerm(o, 0, 1, 1, 7);
  }

  /** Rows five apart, in a batch one apart. The entries are 1 and 2; the fold into rows reads 1 and 7. */
  method RowFoldReadsElsewhere() returns (r: Result<seq<int>>)
    ensures r == Ok([1, 7])
  {
    var lhs, rhs, lhsL, rhsL := [1, 2, 0, 0, 0, 7], [1], TwoOnes(1, 5, 1), TwoOnes(0, 1, 1);
    TwoOnesShaped(lhsL, rhsL, 1, 5, 0, 1);
    TwoOnesInside(lhs, lhsL, rhs, rhsL, 1, 5, 0, 1);
    r := MatMulF(2, 1, 1, 1, lhs, lhsL, rhs, rhsL, 1);
    StaysInside(OperandsOf(1, lhs, lhsL, rhs, rhsL), 2, 1);
    RowCells(OperandsOf(1, lhs, lhsL, rhs, rhsL), r.value);
  }

  /** Columns five apart, in a batch one apart: the fold into columns does the same. */
  method ColFoldReadsElsewhere() returns (r: Result<seq<int>>)
    ensures r == Ok([1, 7])
  {
    var lhs, rhs, lhsL, rhsL := [1], [1, 2, 0, 0, 0, 7], TwoOnes(0, 1, 1), TwoOnes(1, 1, 5);
    TwoOnesShaped(lhsL, rhsL, 0, 1, 1, 5);
    TwoOnesInside(lhs, lhsL, rhs, rhsL, 0, 1, 1, 5);
    r := MatMulF(2, 1, 1, 1, lhs, lhsL, rhs, rhsL, 1);
    StaysInside(OperandsOf(1, lhs, lhsL, rhs, rhsL), 1, 2);
    ColCells(OperandsOf(1, lhs, lhsL, rhs, rhsL), r.value);
  }
}
