/** The matrix step of the im2col convolutions: a batch of patch matrices times one kernel,
    which is transposed and broadcast over the batch by its layout alone. */
module KernelProduct {
  import opened Sums
  import opened Radix
  import opened Wrappers
  import opened Layouts
  import opened MatMul

  /** `contiguous((b, m, k))`. */
  function ColLayout(b: nat, m: nat, k: nat): Layout { Layout([b, m, k], [m * k, k, 1], 0) }

  /** `contiguous_with_offset((1, n, k), start).transpose(1, 2).broadcast_as((b, k, n))`. */
  function KernelLayout(b: nat, n: nat, k: nat, start: nat): Layout {
    Layout([b, k, n], [if b == 1 then n * k else 0, 1, k], start)
  }

  /** Row `i` of batch entry `s` against kernel row `j`. */
  ghost predicate IsKernelProduct(res: seq<int>, b: nat, m: nat, n: nat, k: nat, col: seq<int>, kernel: seq<int>,
          start: int) {
    && |res| == b * m * n
    && forall s, i, j :: 0 <= s < b && 0 <= i < m && 0 <= j < n
         ==> 0 <= Pos(Pos(s, m, i), n, j) < |res|
             && res[Pos(Pos(s, m, i), n, j)] == DotAt(col, Pos(s, m, i) * k, 1, kernel, start + j * k, 1, k)
  }

  /** Entry `s`: a block of rows on the left, the same kernel on the right. */
  lemma KernelEntry(b: nat, m: nat, n: nat, k: nat, col: seq<int>, kernel: seq<int>, start: nat, s: int)
    requires 0 <= s < b
    ensures Shaped(b, m, n, k, ColLayout(b, m, k), KernelLayout(b, n, k, start))
    ensures var cl, kl := ColLayout(b, m, k), KernelLayout(b, n, k, start);
            Entry(OperandsOf(k, col, cl, kernel, kl), cl, kl, s)
            == Operands(col, s * (m * k), k, 1, kernel, start, 1, k, k)
  {
    var cl, kl := ColLayout(b, m, k), KernelLayout(b, n, k, start);
    assert BatchDims(cl) == [b] && BatchDims(kl) == [b];
    assert BatchStrides(cl) == [m * k] && BatchStrides(kl) == [kl.strides[0]];
    Offsets1(b, m * k, s);
    Offsets1(b, kl.strides[0], s);
  }

  lemma KernelShaped(b: nat, m: nat, n: nat, k: nat, start: nat)
    ensures Shaped(b, m, n, k, ColLayout(b, m, k), KernelLayout(b, n, k, start))
  {
    assert BatchDims(ColLayout(b, m, k)) == [b] && BatchDims(KernelLayout(b, n, k, start)) == [b];
    Rank1([b], [0], [0]);
  }

  lemma KernelInside(b: nat, m: nat, n: nat, k: nat, col: seq<int>, kernel: seq<int>, start: nat)
    requires |col| == b * m * k && (b > 0 && n > 0 && k > 0 ==> start + n * k <= |kernel|)
    ensures var cl, kl := ColLayout(b, m, k), KernelLayout(b, n, k, start);
            && Shaped(b, m, n, k, cl, kl)
            && ElementsInside(b, m, n, OperandsOf(k, col, cl, kernel, kl), cl, kl)
  {
    KernelShaped(b, m, n, k, start);
    var cl, kl := ColLayout(b, m, k), KernelLayout(b, n, k, start);
    var o := OperandsOf(k, col, cl, kernel, kl);
    forall s, i, t | 0 <= s < b && 0 <= i < m && 0 <= t < k
      ensures 0 <= LhsIndex(Entry(o, cl, kl, s), 0, i, t, 0) < |col|
    {
      KernelEntry(b, m, n, k, col, kernel, start, s);
      Bound(s, b, i, m);
      Bound(Pos(s, m, i), b * m, t, k);
      Horner3(s, i, t, m, k);
    }
    forall s, j, t | 0 <= s < b && 0 <= j < n && 0 <= t < k
      ensures 0 <= RhsIndex(Entry(o, cl, kl, s), 0, j, t, 0) < |kernel|
    {
      KernelEntry(b, m, n, k, col, kernel, start, s);
      Bound(j, n, t, k);
    }
  }

  /** The fold the kernel takes here is always exact: its rows are `k` apart. */
  lemma KernelFold(b: nat, m: nat, n: nat, k: nat, col: seq<int>, kernel: seq<int>, start: nat)
    ensures var cl, kl := ColLayout(b, m, k), KernelLayout(b, n, k, start);
            && Walked(m, n, k, cl, kl)
            && FoldExact(b, m, n, k, Skip(cl, m * k).value, Skip(kl, n * k).value, cl.strides[1], kl.strides[2])
            && (start <= |kernel|
                ==> SlicesInside(OperandsOf(k, col, cl, kernel, kl), b, m, n, Skip(cl, m * k).value,
                                 Skip(kl, n * k).value))
  {
    var cl, kl := ColLayout(b, m, k), KernelLayout(b, n, k, start);
    assert cl.strides[..1] == [m * k] && kl.strides[..1] == [kl.strides[0]];
  }

  lemma KernelMatMul(b: nat, m: nat, n: nat, k: nat, col: seq<int>, kernel: seq<int>, start: nat, res: seq<int>)
    requires Shaped(b, m, n, k, ColLayout(b, m, k), KernelLayout(b, n, k, start))
    requires var cl, kl := ColLayout(b, m, k), KernelLayout(b, n, k, start);
             IsMatMul(res, b, m, n, OperandsOf(k, col, cl, kernel, kl), cl, kl)
    ensures IsKernelProduct(res, b, m, n, k, col, kernel, start)
  {
    forall s, i, j | 0 <= s < b && 0 <= i < m && 0 <= j < n
      ensures 0 <= Pos(Pos(s, m, i), n, j) < |res|
              && res[Pos(Pos(s, m, i), n, j)] == DotAt(col, Pos(s, m, i) * k, 1, kernel, start + j * k, 1, k)
    {
      KernelEntry(b, m, n, k, col, kernel, start, s);
      Dist(s * m, i, k);
      Mul3(s, m, k);
    }
  }

  /** Only a kernel that starts outside its buffer, and so has no elements, is not sliced. */
  method ColTimesKernel(b: nat, m: nat, n: nat, k: nat, col: seq<int>, kernel: seq<int>, start: nat, numThreads: nat)
    returns (r: Result<seq<int>>)
    requires |col| == b * m * k && (b > 0 && n > 0 && k > 0 ==> start + n * k <= |kernel|)
    ensures if start <= |kernel| then r.Ok? && IsKernelProduct(r.value, b, m, n, k, col, kernel, start)
            else r == Err(OutOfBounds)
  {
    var cl, kl := ColLayout(b, m, k), KernelLayout(b, n, k, start);
    KernelInside(b, m, n, k, col, kernel, start);
    KernelFold(b, m, n, k, col, kernel, start);
    r := MatMulF(b, m, n, k, col, cl, kernel, kl, numThreads);
    if start <= |kernel| {
      KernelMatMul(b, m, n, k, col, kernel, start, r.value);
    }
  }
}
