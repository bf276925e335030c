/** Grouped heads against heads that are laid down several times: what sharing saves. */
module RepeatedHeads {
  import opened Radix
  import opened Layouts
  import opened AxisViews
  import opened GroupedQuery

  // ---------------------------------------------------------------- laying chunks down

  ghost function Times(s: seq<int>, r: nat): seq<int> { if r == 0 then [] else Times(s, r - 1) + s }

  /** Each of `count` chunks of `s`, `r` times in a row. */
  ghost function EachTimes(s: seq<int>, count: nat, chunk: nat, r: nat): seq<int>
    decreases count
  {
    if count == 0 || |s| < chunk then []
    else EachTimes(s[..|s| - chunk], count - 1, chunk, r) + Times(s[|s| - chunk..], r)
  }

  lemma {:induction false} TimesAt(s: seq<int>, r: nat, t: int)
    requires 0 <= t < r
    ensures |Times(s, r)| == r * |s|
    ensures 0 <= t * |s| <= t * |s| + |s| <= |Times(s, r)| && Times(s, r)[t * |s|..t * |s| + |s|] == s
  {
    TimesLength(s, r - 1);
    Dist(r - 1, 1, |s|);
    if t < r - 1 {
      TimesAt(s, r - 1, t);
    }
  }

  lemma {:induction false} TimesLength(s: seq<int>, r: nat)
    ensures |Times(s, r)| == r * |s|
  {
    if r > 0 {
      TimesLength(s, r - 1);
      Dist(r - 1, 1, |s|);
    }
  }

  lemma {:induction false} EachTimesLength(s: seq<int>, count: nat, chunk: nat, r: nat)
    requires |s| == count * chunk
    ensures |EachTimes(s, count, chunk, r)| == count * r * chunk
  {
    if count > 0 {
      Dist(count - 1, 1, chunk);
      EachTimesLength(s[..|s| - chunk], count - 1, chunk, r);
      TimesLength(s[|s| - chunk..], r);
      Dist(count - 1, 1, r);
      Dist((count - 1) * r, r, chunk);
    }
  }

  /** `n` elements of `s` from `p` on are at `p'` in `s'`. */
  ghost predicate Copied(s': seq<int>, p': int, s: seq<int>, p: int, n: nat) {
    && 0 <= p <= p + n <= |s| && 0 <= p' <= p' + n <= |s'|
    && forall j :: p <= j < p + n ==> s'[j - p + p'] == s[j]
  }

  lemma CopiedPrefix(a: seq<int>, b: seq<int>, p': int, s: seq<int>, m: nat, p: int, n: nat)
    requires m <= |s| && Copied(a, p', s[..m], p, n)
    ensures Copied(a + b, p', s, p, n)
  {
    forall j | p <= j < p + n ensures (a + b)[j - p + p'] == s[j] {
      assert a[j - p + p'] == s[..m][j];
    }
  }

  lemma CopiedLast(a: seq<int>, s: seq<int>, m: nat, r: nat, t: int)
    requires m <= |s| && 0 <= t < r
    ensures Copied(a + Times(s[m..], r), |a| + t * (|s| - m), s, m, |s| - m)
  {
    var last, n := s[m..], |s| - m;
    TimesAt(last, r, t);
    forall j | m <= j < m + n ensures (a + Times(last, r))[j - m + (|a| + t * n)] == s[j] {
      assert Times(last, r)[t * n..t * n + n][j - m] == last[j - m];
    }
  }

  lemma LastChunk(count: nat, chunk: nat)
    requires count > 0
    ensures count * chunk - chunk == (count - 1) * chunk >= 0
  {
    Dist(count - 1, 1, chunk);
    MulMono(0, count - 1, chunk);
  }

  /** Copy `t` of chunk `q`. */
  lemma {:induction false} ChunkAt(s: seq<int>, count: nat, chunk: nat, r: nat, q: int, t: int)
    requires |s| == count * chunk && 0 <= q < count && 0 <= t < r
    ensures Copied(EachTimes(s, count, chunk, r), (q * r + t) * chunk, s, q * chunk, chunk)
  {
    LastChunk(count, chunk);
    var m := |s| - chunk;
    var a := EachTimes(s[..m], count - 1, chunk, r);
    if q < count - 1 {
      ChunkAt(s[..m], count - 1, chunk, r, q, t);
      CopiedPrefix(a, Times(s[m..], r), (q * r + t) * chunk, s, m, q * chunk, chunk);
    } else {
      EachTimesLength(s[..m], count - 1, chunk, r);
      Dist(q * r, t, chunk);
      CopiedLast(a, s, m, r, t);
    }
  }

  // ---------------------------------------------------------------- one axis

  /** A batch of blocks, shaped `dims`, with each entry of axis `d` laid down `r` times in a row. */
  ghost function RepeatAxis(s: seq<int>, dims: seq<nat>, d: nat, r: nat, size: nat): seq<int>
    requires d < |dims|
  {
    EachTimes(s, Prod(dims[..d]) * dims[d], Prod(dims[d + 1..]) * size, r)
  }

  lemma RepeatAxisLength(s: seq<int>, dims: seq<nat>, d: nat, r: nat, size: nat)
    requires d < |dims| && |s| == Prod(dims) * size
    ensures |RepeatAxis(s, dims, d, r, size)| == Prod(dims[d := dims[d] * r]) * size
  {
    var a := AxesOf(dims, d);
    AxesCount(dims, d);
    Mul3(a.left * a.size, a.right, size);
    EachTimesLength(s, a.left * a.size, a.right * size, r);
    Replaced(dims, d, dims[d] * r);
    AxesCount(dims[d := dims[d] * r], d);
    LongerAxis(a, r, size);
  }

  lemma LongerAxis(a: Axes, r: int, size: int)
    ensures a.left * a.size * r * (a.right * size) == a.left * (a.size * r) * a.right * size
  {
    Mul3(a.left, a.size, r);
    Mul3(a.left * a.size * r, a.right, size);
  }

  /** Entry `b'` of one batch is entry `b` of another. */
  ghost predicate SameBlock(s': seq<int>, b': int, s: seq<int>, b: int, size: nat) {
    Copied(s', b' * size, s, b * size, size)
  }

  /** A piece of what was copied. */
  lemma CopiedPart(s': seq<int>, p': int, s: seq<int>, p: int, n: nat, at: nat, k: nat)
    requires Copied(s', p', s, p, n) && at + k <= n
    ensures Copied(s', p' + at, s, p + at, k)
  {
    forall j | p + at <= j < p + at + k ensures s'[j - (p + at) + (p' + at)] == s[j] {
      assert s'[j - p + p'] == s[j];
    }
  }

  /** Where a block of a chunk is. */
  lemma BlockInChunk(q: int, inner: int, u: int, size: int)
    ensures (q * inner + u) * size == q * (inner * size) + u * size
  {
    Mul3(q, inner, size);
    Dist(q * inner, u, size);
  }

  lemma LastBlock(u: nat, inner: nat, size: nat)
    requires u < inner
    ensures 0 <= u * size <= u * size + size <= inner * size
  {
    MulMono(0, u, size);
    MulMono(u + 1, inner, size);
    Dist(u, 1, size);
  }

  lemma BlockCopied(s: seq<int>, a: Axes, r: nat, size: nat, q: int, t: int, u: int)
    requires |s| == a.Count() * size && 0 <= q < a.left * a.size && 0 <= t < r && 0 <= u < a.right
    ensures SameBlock(EachTimes(s, a.left * a.size, a.right * size, r), (q * r + t) * a.right + u, s,
            q * a.right + u, size)
  {
    var s', chunk := EachTimes(s, a.left * a.size, a.right * size, r), a.right * size;
    Mul3(a.left * a.size, a.right, size);
    ChunkAt(s, a.left * a.size, chunk, r, q, t);
    BlockInChunk(q, a.right, u, size);
    BlockInChunk(q * r + t, a.right, u, size);
    LastBlock(u, a.right, size);
    CopiedPart(s', (q * r + t) * chunk, s, q * chunk, chunk, u * size, size);
  }

  /** Copy `t` of entry `c` is at `c[d] * r + t` on the axis. */
  lemma RepeatAxisAt(s: seq<int>, dims: seq<nat>, d: nat, r: nat, size: nat, c: seq<int>, t: int)
    requires d < |dims| && |s| == Prod(dims) * size && InRange(dims, c) && 0 <= t < r
    ensures SameBlock(RepeatAxis(s, dims, d, r, size), Ravel(dims[d := dims[d] * r], c[d := c[d] * r + t]), s,
                      Ravel(dims, c), size)
  {
    var a := AxesOf(dims, d);
    var lo, hi := Ravel(dims[..d], c[..d]), Ravel(dims[d + 1..], c[d + 1..]);
    RavelBound(dims[..d], c[..d]);
    RavelBound(dims[d + 1..], c[d + 1..]);
    AxisPosition(dims, d, c);
    AxesCount(dims, d);
    ReplacedPosition(dims, d, dims[d] * r, c, c[d] * r + t);
    Bound(lo, a.left, c[d], a.size);
    Horner3(lo, c[d], t, a.size, r);
    BlockCopied(s, a, r, size, lo * a.size + c[d], t, hi);
  }

  // ---------------------------------------------------------------- all axes

  predicate Positives(reps: seq<nat>) { forall i :: 0 <= i < |reps| ==> reps[i] > 0 }

  /** Axis after axis, from axis `d` on. */
  ghost function RepeatAxes(s: seq<int>, dims: seq<nat>, reps: seq<nat>, size: nat, d: nat): seq<int>
    requires d <= |dims| == |reps|
    decreases |dims| - d
  {
    if d == |dims| then s
    else RepeatAxes(RepeatAxis(s, dims, d, reps[d], size), dims[d := dims[d] * reps[d]], reps, size, d + 1)
  }

  ghost function DimsFrom(dims: seq<nat>, reps: seq<nat>, d: nat): seq<nat>
    requires |dims| == |reps|
  {
    seq(|dims|, i requires 0 <= i < |dims| => if i < d then dims[i] else dims[i] * reps[i])
  }

  /** The coordinates before the repetition of the axes from `d` on. */
  ghost function SharedFrom(c: seq<int>, reps: seq<nat>, d: nat): seq<int>
    requires |c| == |reps| && Positives(reps)
  {
    seq(|c|, i requires 0 <= i < |c| => if i < d then c[i] else c[i] / reps[i])
  }

  lemma FromNext(dims: seq<nat>, reps: seq<nat>, d: nat)
    requires d < |dims| == |reps|
    ensures DimsFrom(dims[d := dims[d] * reps[d]], reps, d + 1) == DimsFrom(dims, reps, d)
  {}

  lemma QuotientBound(c: int, n: int, r: int)
    requires 0 <= c < n * r && 0 < r
    ensures 0 <= c / r < n
  {
    assert c >= c / r * r;
    MulMono(n, c / r, r);
  }

  lemma SharedFromInRange(dims: seq<nat>, reps: seq<nat>, d: nat, c: seq<int>)
    requires |dims| == |reps| && Positives(reps) && InRange(DimsFrom(dims, reps, d), c)
    ensures InRange(dims, SharedFrom(c, reps, d))
  {
    forall i | 0 <= i < |c| ensures 0 <= SharedFrom(c, reps, d)[i] < dims[i] {
      assert c[i] < DimsFrom(dims, reps, d)[i];
      if i >= d {
        QuotientBound(c[i], dims[i], reps[i]);
      }
    }
  }

  lemma SameBlocks(s'': seq<int>, b'': int, s': seq<int>, b': int, s: seq<int>, b: int, size: nat)
    requires SameBlock(s'', b'', s', b', size) && SameBlock(s', b', s, b, size)
    ensures SameBlock(s'', b'', s, b, size)
  {
    forall j | b * size <= j < b * size + size ensures s''[j - b * size + b'' * size] == s[j] {
      assert s'[j - b * size + b' * size] == s[j];
    }
  }

  lemma BlocksEqual(s': seq<int>, b': int, s: seq<int>, b: int, size: nat)
    requires SameBlock(s', b', s, b, size)
    ensures 0 <= b * size <= b * size + size <= |s| && 0 <= b' * size <= b' * size + size <= |s'|
    ensures Block(s', b', size) == Block(s, b, size)
  {
    forall i | 0 <= i < size ensures Block(s', b', size)[i] == Block(s, b, size)[i] {
      assert s'[(b * size + i) - b * size + b' * size] == s[b * size + i];
    }
  }

  lemma {:induction false} RepeatAxesAt(s: seq<int>, dims: seq<nat>, reps: seq<nat>, size: nat, d: nat, c: seq<int>)
    requires d <= |dims| == |reps| && Positives(reps) && |s| == Prod(dims) * size && InRange(DimsFrom(dims, reps, d), c)
    ensures SameBlock(RepeatAxes(s, dims, reps, size, d), Ravel(DimsFrom(dims, reps, d), c), s,
                      Ravel(dims, SharedFrom(c, reps, d)), size)
    decreases |dims| - d
  {
    if d == |dims| {
      assert SharedFrom(c, reps, d) == c && DimsFrom(dims, reps, d) == dims;
      RavelBound(dims, c);
      BlockFits(s, Prod(dims), Ravel(dims, c), size);
    } else {
      var r, s', dims' := reps[d], RepeatAxis(s, dims, d, reps[d], size), dims[d := dims[d] * reps[d]];
      FromNext(dims, reps, d);
      RepeatAxisLength(s, dims, d, r, size);
      RepeatAxesAt(s', dims', reps, size, d + 1, c);
      RepeatAxisShared(s, dims, reps, size, d, c);
      SameBlocks(RepeatAxes(s', dims', reps, size, d + 1), Ravel(DimsFrom(dims, reps, d), c), s',
                 Ravel(dims', SharedFrom(c, reps, d + 1)), s, Ravel(dims, SharedFrom(c, reps, d)), size);
    }
  }

  /** One axis further. */
  lemma RepeatAxisShared(s: seq<int>, dims: seq<nat>, reps: seq<nat>, size: nat, d: nat, c: seq<int>)
    requires d < |dims| == |reps| && Positives(reps) && |s| == Prod(dims) * size && InRange(DimsFrom(dims, reps, d), c)
    ensures SameBlock(RepeatAxis(s, dims, d, reps[d], size),
            Ravel(dims[d := dims[d] * reps[d]], SharedFrom(c, reps, d + 1)),
                      s, Ravel(dims, SharedFrom(c, reps, d)), size)
  {
    SharedFromInRange(dims, reps, d, c);
    var t := SharedStep(c, reps, d);
    RepeatAxisAt(s, dims, d, reps[d], size, SharedFrom(c, reps, d), t);
  }

  lemma SharedStep(c: seq<int>, reps: seq<nat>, d: nat) returns (t: int)
    requires d < |reps| == |c| && Positives(reps)
    ensures var before := SharedFrom(c, reps, d);
            0 <= t < reps[d] && before[d := before[d] * reps[d] + t] == SharedFrom(c, reps, d + 1)
  {
    t := c[d] % reps[d];
    assert c[d] / reps[d] * reps[d] + t == c[d];
  }

  // ---------------------------------------------------------------- the grouped product

  lemma RepsScale(lhsDims: seq<nat>, rhsDims: seq<nat>)
    requires Compatible(lhsDims, rhsDims) && 0 !in lhsDims
    ensures Positives(Reps(lhsDims, rhsDims)) && DimsFrom(rhsDims, Reps(lhsDims, rhsDims), 0) == lhsDims
  {
    var reps := Reps(lhsDims, rhsDims);
    forall i | 0 <= i < |lhsDims| ensures reps[i] > 0 && rhsDims[i] * reps[i] == lhsDims[i] {
      assert lhsDims[i] in lhsDims;
      RepTiles(lhsDims[i], rhsDims[i], 0);
    }
  }

  lemma SlotSelf(dims: seq<nat>, b: int)
    requires 0 <= b < Prod(dims)
    ensures Compatible(dims, dims) && Slot(dims, dims, b) == b
  {
    var c := Unravel(dims, b);
    SharedInRange(dims, dims, c);
    assert Shared(c, Reps(dims, dims)) == c;
  }

  /** Entry `b` of the repeated operand is the entry that `b` shares. */
  lemma RepeatedSlot(rhs: seq<int>, lhsDims: seq<nat>, rhsDims: seq<nat>, size: nat, b: int)
    requires Compatible(lhsDims, rhsDims) && |rhs| == Prod(rhsDims) * size && 0 <= b < Prod(lhsDims)
    ensures var s, repeated := Slot(lhsDims, rhsDims, b), RepeatAxes(rhs, rhsDims, Reps(lhsDims, rhsDims), size, 0);
            SameBlock(repeated, b, rhs, s, size)
  {
    var reps, c := Reps(lhsDims, rhsDims), Unravel(lhsDims, b);
    ZeroDim(lhsDims);
    RepsScale(lhsDims, rhsDims);
    assert SharedFrom(c, reps, 0) == Shared(c, reps);
    RepeatAxesAt(rhs, rhsDims, reps, size, 0, c);
  }

  /** The grouped product is the plain batched product against the right operand with its
      heads laid down in full. */
  lemma GroupedIsRepeated(out: seq<int>, lhs: seq<int>, rhs: seq<int>, lhsDims: seq<nat>, rhsDims: seq<nat>, m: nat,
          n: nat, k: nat)
    requires Compatible(lhsDims, rhsDims) && |rhs| == Prod(rhsDims) * (k * n)
    ensures Compatible(lhsDims, lhsDims)
    ensures var repeated := RepeatAxes(rhs, rhsDims, Reps(lhsDims, rhsDims), k * n, 0);
            IsGrouped(out, lhs, rhs, lhsDims, rhsDims, m, n, k)
            <==> IsGrouped(out, lhs, repeated, lhsDims, lhsDims, m, n, k)
  {
    var repeated := RepeatAxes(rhs, rhsDims, Reps(lhsDims, rhsDims), k * n, 0);
    forall b | 0 <= b < Prod(lhsDims)
      ensures IsBlockProd(out, lhs, rhs, b, Slot(lhsDims, rhsDims, b), m, n, k)
              <==> IsBlockProd(out, lhs, repeated, b, Slot(lhsDims, lhsDims, b), m, n, k)
    {
      SlotSelf(lhsDims, b);
      RepeatedSlot(rhs, lhsDims, rhsDims, k * n, b);
      BlocksEqual(repeated, b, rhs, Slot(lhsDims, rhsDims, b), k * n);
    }
  }
}
