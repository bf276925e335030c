/** Copying a strided tensor into a flat buffer: every path of `copy_strided_src_`. */
module StridedCopy {
  import opened Radix
  import opened Layouts
  import opened StridedIndices
  import opened Schedule

  /** Element count from which the strided copy runs in parallel. */
  const PAR_STRIDED_COPY_THRESHOLD: nat := 100_000

  /** Decomposes a row-major index by repeated division and applies the strides. */
  method ComputeStridedOffset(linearIdx: nat, dims: seq<nat>, strides: seq<int>, start: int) returns (offset: int)
    requires |dims| == |strides| && linearIdx < Prod(dims)
    ensures offset == start + Dot(Unravel(dims, linearIdx), strides)
  {
    offset := start;
    var remaining: int := linearIdx;
    ghost var c := Unravel(dims, linearIdx);
    var k := |dims|;
    assert dims[..k] == dims && c[..k] == c;
    assert c[k..] == [] && strides[k..] == [];
    while k > 0
      invariant 0 <= k <= |dims|
      invariant remaining == Ravel(dims[..k], c[..k])
      invariant offset == start + Dot(c[k..], strides[k..])
    {
      k := k - 1;
      var d, s := dims[k], strides[k];
      DigitStep(dims, c, k);
      Euclid(Ravel(dims[..k], c[..k]), c[k], d);
      assert c[k..] == [c[k]] + c[k + 1..] && strides[k..] == [s] + strides[k + 1..];
      DotConcat([c[k]], c[k + 1..], [s], strides[k + 1..]);
      DotOne(c[k], s);
      offset := offset + (remaining % d) * s;
      remaining := remaining / d;
    }
    assert c[0..] == c && strides[0..] == strides;
  }

  lemma DigitStep(dims: seq<nat>, c: seq<int>, k: nat)
    requires InRange(dims, c) && k < |dims|
    ensures Ravel(dims[..k + 1], c[..k + 1]) == Ravel(dims[..k], c[..k]) * dims[k] + c[k]
  {
    assert Init(dims[..k + 1]) == dims[..k] && Init(c[..k + 1]) == c[..k];
  }

  lemma DotOne(x: int, s: int)
    ensures Dot([x], [s]) == x * s
  {
    assert Init([x]) == [] && Init([s]) == [];
  }

  // ---------------------------------------------------------------- contiguous blocks

  /** Axes `k..` are packed: each stride is the size of everything to its right. */
  ghost predicate Packed(l: Layout, k: int)
    requires l.Valid()
  {
    0 <= k <= |l.dims| && RowMajorFrom(l.dims[k..], l.strides[k..], 1)
  }

  /** `Layout::strided_blocks`: the longest packed run of trailing axes. */
  method StridedBlocks(l: Layout) returns (indexDims: nat, blockLen: nat)
    requires l.Valid()
    ensures indexDims <= |l.dims| && blockLen == Prod(l.dims[indexDims..]) && Packed(l, indexDims)
    ensures indexDims > 0 ==> l.strides[indexDims - 1] != blockLen
    ensures indexDims == 0 <==> Exact(l.dims, l.strides, 1)
  {
    indexDims, blockLen := |l.dims|, 1;
    assert l.dims[indexDims..] == [] && l.strides[indexDims..] == [];
    while indexDims > 0 && l.strides[indexDims - 1] == blockLen
      invariant indexDims <= |l.dims| && blockLen == Prod(l.dims[indexDims..]) && Packed(l, indexDims)
      invariant forall j :: indexDims <= j < |l.dims| ==> l.strides[j] == 1 * Prod(l.dims[j + 1..])
    {
      PackedExtends(l, indexDims);
      blockLen := blockLen * l.dims[indexDims - 1];
      indexDims := indexDims - 1;
    }
  }

  lemma PackedExtends(l: Layout, k: nat)
    requires l.Valid() && 0 < k && Packed(l, k) && l.strides[k - 1] == Prod(l.dims[k..])
    ensures Packed(l, k - 1) && Prod(l.dims[k - 1..]) == Prod(l.dims[k..]) * l.dims[k - 1]
  {
    var d, s := l.dims[k - 1], l.strides[k - 1];
    assert l.dims[k - 1..] == [d] + l.dims[k..] && l.strides[k - 1..] == [s] + l.strides[k..];
    ProdConcat([d], l.dims[k..]);
    assert Prod([d]) == d;
    RowMajorCons(d, s, l.dims[k..], l.strides[k..], 1);
  }

  lemma {:induction false} RowMajorCons(d: nat, s: int, dims: seq<nat>, strides: seq<int>, acc: int)
    requires |dims| == |strides| && RowMajorFrom(dims, strides, acc) && s == acc * Prod(dims)
    ensures RowMajorFrom([d] + dims, [s] + strides, acc)
  {
    if |dims| == 0 {
      assert Init([d] + dims) == [] && Init([s] + strides) == [];
    } else {
      Mul3(acc, Last(dims), Prod(Init(dims)));
      RowMajorCons(d, s, Init(dims), Init(strides), acc * Last(dims));
      assert Init([d] + dims) == [d] + Init(dims) && Init([s] + strides) == [s] + Init(strides);
    }
  }

  /** Element `r` of block `q` sits `r` places after the start of the block. */
  lemma BlockOffset(l: Layout, k: nat, q: int, r: int)
    requires l.Valid() && Packed(l, k)
    requires 0 <= q < Prod(l.dims[..k]) && 0 <= r < Prod(l.dims[k..])
    ensures 0 <= q * Prod(l.dims[k..]) + r < l.Count()
    ensures l.Offset(q * Prod(l.dims[k..]) + r) == l.start + Dot(Unravel(l.dims[..k], q), l.strides[..k]) + r
  {
    assert l.dims == l.dims[..k] + l.dims[k..] && l.strides == l.strides[..k] + l.strides[k..];
    UnravelSplit(l.dims[..k], l.dims[k..], q, r);
    DotConcat(Unravel(l.dims[..k], q), Unravel(l.dims[k..], r), l.strides[..k], l.strides[k..]);
    RowMajorDot(l.dims[k..], l.strides[k..], 1, Unravel(l.dims[k..], r));
  }

  /** The offsets of a layout in the order they are visited. */
  ghost function Offsets(l: Layout): seq<int>
    requires l.Valid()
  {
    seq(l.Count(), i requires 0 <= i < l.Count() => l.Offset(i))
  }

  /** Block `q` of the enumeration is a run of consecutive places. */
  lemma BlockRun(l: Layout, k: nat, q: nat)
    requires l.Valid() && Packed(l, k) && q < Prod(l.dims[..k])
    ensures var base := q * Prod(l.dims[k..]);
            && 0 <= base && base + Prod(l.dims[k..]) <= l.Count()
            && IsRun(Offsets(l), base, base + Prod(l.dims[k..]), l.start + Dot(Unravel(l.dims[..k], q), l.strides[..k]))
  {
    var bl, base := Prod(l.dims[k..]), q * Prod(l.dims[k..]);
    MulMono(0, q, bl); MulMono(q + 1, Prod(l.dims[..k]), bl); Dist(q, 1, bl);
    assert l.dims == l.dims[..k] + l.dims[k..];
    ProdConcat(l.dims[..k], l.dims[k..]);
    forall j | base <= j < base + bl
      ensures Offsets(l)[j] == l.start + Dot(Unravel(l.dims[..k], q), l.strides[..k]) + (j - base)
    {
      BlockOffset(l, k, q, j - base);
    }
  }

  ghost predicate IsRun(offs: seq<int>, lo: int, hi: int, first: int) {
    0 <= lo && hi <= |offs| && forall j :: lo <= j < hi ==> offs[j] == first + (j - lo)
  }

  // ---------------------------------------------------------------- the copy

  ghost predicate Readable<T>(src: seq<T>, offs: seq<int>, n: int) {
    n <= |offs| && forall i :: 0 <= i < n ==> 0 <= offs[i] < |src|
  }

  /** Elements `0..n` have been copied and no other cell has changed. */
  ghost predicate Progress<T>(src: seq<T>, before: seq<T>, after: seq<T>, off: int, offs: seq<int>, n: int)
    requires Readable(src, offs, n) && 0 <= off && off + n <= |before|
  {
    && |after| == |before|
    && forall p :: 0 <= p < |after| ==> after[p] == if off <= p < off + n then src[offs[p - off]] else before[p]
  }

  /** The result of the whole copy: the elements that fit, and nothing else. */
  ghost predicate IsStridedCopy<T>(src: seq<T>, before: seq<T>, after: seq<T>, off: int, offs: seq<int>)
    requires 0 <= off <= |before| && Readable(src, offs, Min(|offs|, |before| - off))
  {
    Progress(src, before, after, off, offs, Min(|offs|, |before| - off))
  }

  /** `dst[off + lo..off + hi].copy_from_slice(..)`, where the elements are stored in one run. */
  method CopyRun<T>(src: seq<T>, dst: array<T>, off: nat, ghost offs: seq<int>, lo: nat, hi: nat, first: int)
    requires lo <= hi && off + hi <= dst.Length && Readable(src, offs, hi) && IsRun(offs, lo, hi, first)
    modifies dst
    ensures forall p :: 0 <= p < dst.Length
              ==> dst[p] == if off + lo <= p < off + hi then src[offs[p - off]] else old(dst[p])
  {
    if lo < hi {
      assert offs[lo] == first && offs[hi - 1] == first + (hi - 1 - lo);
    }
    forall p | off + lo <= p < off + hi {
      dst[p] := src[first + (p - off - lo)];
    }
  }

  /** The enumeration is a sequence of runs of length `bl`. */
  ghost predicate InBlocks(offs: seq<int>, starts: seq<int>, bl: nat) {
    && |offs| == |starts| * bl
    && forall q :: 0 <= q < |starts| ==> IsRun(offs, q * bl, q * bl + bl, starts[q])
  }

  /** Blocks one after another, the last one cut at the end of the destination. */
  method CopyBlocks<T>(src: seq<T>, dst: array<T>, off: nat, ghost offs: seq<int>, starts: seq<int>, blockLen: nat)
    requires InBlocks(offs, starts, blockLen) && off <= dst.Length
    requires Readable(src, offs, Min(|offs|, dst.Length - off))
    modifies dst
    ensures IsStridedCopy(src, old(dst[..]), dst[..], off, offs)
  {
    var dstIndex: int := off;
    for q := 0 to |starts|
      invariant dstIndex == off + q * blockLen <= off + |offs|
      invariant Progress(src, old(dst[..]), dst[..], off, offs, Min(dstIndex - off, dst.Length - off))
    {
      var nextDstIndex := dstIndex + blockLen;
      Dist(q, 1, blockLen);
      assert IsRun(offs, q * blockLen, q * blockLen + blockLen, starts[q]);
      if dstIndex >= dst.Length {
        return;
      }
      var toCopy := Min(blockLen, dst.Length - dstIndex);
      CopyRun(src, dst, off, offs, dstIndex - off, dstIndex - off + toCopy, starts[q]);
      dstIndex := nextDstIndex;
    }
  }

  /** `dst_chunk.copy_from_slice(..)` for the first `n` elements of block `q`. */
  method CopyChunk<T>(src: seq<T>, dst: array<T>, off: nat, l: Layout, k: nat, blockLen: nat, q: nat, lo: nat, n: nat)
    requires l.Valid() && Packed(l, k) && blockLen == Prod(l.dims[k..]) && n <= blockLen && q < Prod(l.dims[..k])
    requires lo == q * blockLen && off + lo + n <= dst.Length && Readable(src, Offsets(l), lo + n)
    modifies dst
    ensures forall p :: 0 <= p < dst.Length
              ==> dst[p] == if off + lo <= p < off + lo + n then src[Offsets(l)[p - off]] else old(dst[p])
  {
    var srcStart := ComputeStridedOffset(q, l.dims[..k], l.strides[..k], l.start);
    BlockRun(l, k, q);
    CopyRun(src, dst, off, Offsets(l), lo, lo + n, srcStart);
  }

  /** Cell `off + i` belongs to chunk `owner[i]`.  Cells of finished chunks hold their
      element; a cell that has changed holds its element. */
  ghost predicate Chunked<T>(src: seq<T>, before: seq<T>, after: seq<T>, off: int, offs: seq<int>, owner: seq<int>,
          todo: set<int>)
    requires Readable(src, offs, |owner|) && 0 <= off && off + |owner| <= |before|
  {
    && |after| == |before|
    && forall p :: 0 <= p < |after| ==>
         if off <= p < off + |owner|
         then after[p] == src[offs[p - off]] || (owner[p - off] in todo && after[p] == before[p])
         else after[p] == before[p]
  }

  /** The chunk each of the first `n` elements belongs to. */
  ghost function Owners(n: nat, bl: nat): seq<int> { seq(n, i => Hi(i, bl)) }

  lemma ChunkCells(n: nat, bl: nat, q: int, lo: int)
    requires bl > 0 && lo == q * bl
    ensures forall i :: 0 <= i < n && Owners(n, bl)[i] == q ==> lo <= i < lo + bl
  {
    forall i | 0 <= i < n && Owners(n, bl)[i] == q ensures lo <= i < lo + bl {
      HiLo(i, bl);
    }
  }

  lemma OwnersBound(n: nat, bl: nat, full: int, rem: int)
    requires bl > 0 && n == full * bl + rem && 0 <= rem < bl
    ensures forall i :: 0 <= i < n ==> 0 <= Owners(n, bl)[i] <= full
  {
    forall i | 0 <= i < n ensures 0 <= Owners(n, bl)[i] <= full {
      HiLo(i, bl);
      MulMono(full + 1, Hi(i, bl), bl);
      Dist(full, 1, bl);
    }
  }

  /** A prefix of whole blocks and a part of one more stays within the blocks there are. */
  lemma BlocksFit(l: Layout, k: nat, bl: nat, n: nat, full: int, rem: int)
    requires l.Valid() && k <= |l.dims| && bl == Prod(l.dims[k..]) > 0 && n <= l.Count()
    requires n == full * bl + rem && 0 <= rem < bl
    ensures full <= Prod(l.dims[..k]) && (rem > 0 ==> full < Prod(l.dims[..k]))
  {
    assert l.dims == l.dims[..k] + l.dims[k..];
    ProdConcat(l.dims[..k], l.dims[k..]);
    MulMono(Prod(l.dims[..k]) + 1, full, bl);
    MulMono(Prod(l.dims[..k]), full, bl);
    Dist(Prod(l.dims[..k]), 1, bl);
  }

  /** Whole blocks, in whatever order a parallel loop hands them out. */
  method CopyFullBlocks<T>(src: seq<T>, dst: array<T>, off: nat, l: Layout, k: nat, blockLen: nat, full: nat,
          ghost n: nat)
    requires l.Valid() && Packed(l, k) && blockLen == Prod(l.dims[k..]) > 0 && full <= Prod(l.dims[..k])
    requires full * blockLen <= n <= l.Count() && off + n <= dst.Length && Readable(src, Offsets(l), n)
    requires forall i :: 0 <= i < n ==> 0 <= Owners(n, blockLen)[i] <= full
    modifies dst
    ensures Chunked(src, old(dst[..]), dst[..], off, Offsets(l), Owners(n, blockLen), {full})
  {
    var todo := Range(full);
    while todo != {}
      invariant todo <= Range(full)
      invariant Chunked(src, old(dst[..]), dst[..], off, Offsets(l), Owners(n, blockLen), todo + {full})
      decreases todo
    {
      var blockIdx :| blockIdx in todo;
      var lo := blockIdx * blockLen;
      MulMono(blockIdx + 1, full, blockLen); Dist(blockIdx, 1, blockLen); MulMono(0, blockIdx, blockLen);
      ChunkCells(n, blockLen, blockIdx, lo);
      CopyChunk(src, dst, off, l, k, blockLen, blockIdx, lo, blockLen);
      todo := todo - {blockIdx};
    }
  }

  /** The parallel copy of blocks, with its partial trailing block. */
  method CopyBlocksParallel<T>(src: seq<T>, dst: array<T>, off: nat, l: Layout, k: nat, blockLen: nat, total: nat)
    requires l.Valid() && Packed(l, k) && blockLen == Prod(l.dims[k..]) > 0
    requires off <= dst.Length && total == Min(l.Count(), dst.Length - off) && Readable(src, Offsets(l), total)
    modifies dst
    ensures IsStridedCopy(src, old(dst[..]), dst[..], off, Offsets(l))
  {
    var full, remaining := DivRem(total, blockLen);
    BlocksFit(l, k, blockLen, total, full, remaining);
    OwnersBound(total, blockLen, full, remaining);
    CopyFullBlocks(src, dst, off, l, k, blockLen, full, total);
    ChunkCells(total, blockLen, full, full * blockLen);
    if remaining > 0 {
      CopyChunk(src, dst, off, l, k, blockLen, full, full * blockLen, remaining);
    }
  }

  /** One element at a time, in whatever order a parallel loop hands them out. */
  method CopyElementsParallel<T>(src: seq<T>, dst: array<T>, off: nat, l: Layout, n: nat)
    requires l.Valid() && off + n <= dst.Length && n <= l.Count() && Readable(src, Offsets(l), n)
    modifies dst
    ensures Progress(src, old(dst[..]), dst[..], off, Offsets(l), n)
  {
    ghost var ids := seq(n, i => i);
    var todo := Range(n);
    while todo != {}
      invariant todo <= Range(n)
      invariant Chunked(src, old(dst[..]), dst[..], off, Offsets(l), ids, todo)
      decreases todo
    {
      var i :| i in todo;
      var srcOffset := ComputeStridedOffset(i, l.dims, l.strides, l.start);
      assert Offsets(l)[i] == srcOffset;
      dst[off + i] := src[srcOffset];
      todo := todo - {i};
    }
  }

  lemma StartsInBlocks(l: Layout, k: nat, starts: seq<int>)
    requires l.Valid() && Packed(l, k) && |starts| == Prod(l.dims[..k])
    requires forall q :: 0 <= q < |starts| ==> starts[q] == Layout(l.dims[..k], l.strides[..k], l.start).Offset(q)
    ensures InBlocks(Offsets(l), starts, Prod(l.dims[k..]))
  {
    var bl := Prod(l.dims[k..]);
    assert l.dims == l.dims[..k] + l.dims[k..];
    ProdConcat(l.dims[..k], l.dims[k..]);
    forall q | 0 <= q < |starts| ensures IsRun(Offsets(l), q * bl, q * bl + bl, starts[q]) {
      BlockRun(l, k, q);
    }
  }

  /** One block is copied as a slice, and that of a layout that starts outside its buffer, which
      then has no element to copy, cannot be taken. */
  ghost predicate Unsliced(len: nat, l: Layout)
    requires l.Valid()
  {
    Exact(l.dims, l.strides, 1) && l.start > len
  }

  lemma NotOneBlock(l: Layout, len: nat)
    requires l.Valid() && !RowMajorFrom(l.dims, l.strides, 1)
    ensures !Unsliced(len, l)
  {
    if Exact(l.dims, l.strides, 1) {
      ExactIsRowMajor(l.dims, l.strides, 1);
    }
  }

  /** Copies a strided source into `dst` from `dst_offset` on, as many elements as fit: the
      `i`-th element in row-major order lands at `dst_offset + i`, whichever path is taken. */
  method CopyStridedSrc<T>(src: seq<T>, dst: array<T>, off: nat, l: Layout) returns (ok: bool)
    requires l.Valid()
    requires off <= dst.Length && Readable(src, Offsets(l), Min(l.Count(), dst.Length - off))
    modifies dst
    ensures ok <==> !Unsliced(|src|, l)
    ensures if ok then IsStridedCopy(src, old(dst[..]), dst[..], off, Offsets(l)) else dst[..] == old(dst[..])
  {
    ok := true;
    var indexDims, blockLen := StridedBlocks(l);
    if indexDims == 0 {
      if l.start > |src| {
        return false;
      }
      var toCopy := Min(dst.Length - off, blockLen);
      assert l.dims[0..] == l.dims && l.dims[..0] == [] && l.strides[..0] == [];
      BlockRun(l, 0, 0);
      CopyRun(src, dst, off, Offsets(l), 0, toCopy, l.start);
      return;
    }
    var elemCount := Min(l.Count(), dst.Length - off);
    if blockLen == 1 && elemCount >= PAR_STRIDED_COPY_THRESHOLD {
      CopyElementsParallel(src, dst, off, l, elemCount);
    } else if blockLen != 1 && elemCount >= PAR_STRIDED_COPY_THRESHOLD {
      assert l.dims == l.dims[..indexDims] + l.dims[indexDims..];
      ProdConcat(l.dims[..indexDims], l.dims[indexDims..]);
      CopyBlocksParallel(src, dst, off, l, indexDims, blockLen, elemCount);
    } else {
      var starts := CollectOffsets(Layout(l.dims[..indexDims], l.strides[..indexDims], l.start));
      StartsInBlocks(l, indexDims, starts);
      CopyBlocks(src, dst, off, Offsets(l), starts, blockLen);
    }
  }
}
