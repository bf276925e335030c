/** `reduce_op_dyn` for sums and the three traversals of `ReduceSum`. */
module ReduceSum {
  import opened Sums
  import opened Radix
  import opened Layouts
  import opened Sorting
  import opened StridedIndices
  import opened Tables
  import opened AxisViews
  import opened EdgeSums
  import opened Indexing

  // ---------------------------------------------------------------- the kept coordinates

  /** The shape with the reduced axes set to 1. */
  function Ones(dims: seq<nat>, axes: seq<nat>): seq<nat> {
    seq(|dims|, k requires 0 <= k < |dims| => if k in axes then 1 else dims[k])
  }

  /** The coordinates with those of the reduced axes set to 0. */
  ghost function Zeroed(c: seq<int>, axes: seq<nat>): seq<int> {
    seq(|c|, k requires 0 <= k < |c| => if k in axes then 0 else c[k])
  }

  /** Where element `i` goes: its coordinates without those of the reduced axes. */
  ghost function Kept(dims: seq<nat>, axes: seq<nat>, i: int): int
    requires 0 <= i < Prod(dims)
  {
    Ravel(Ones(dims, axes), Zeroed(Unravel(dims, i), axes))
  }

  lemma KeptBound(dims: seq<nat>, axes: seq<nat>, i: int)
    requires 0 <= i < Prod(dims)
    ensures InRange(Ones(dims, axes), Zeroed(Unravel(dims, i), axes))
    ensures 0 <= Kept(dims, axes, i) < Prod(Ones(dims, axes))
  {
    RavelBound(Ones(dims, axes), Zeroed(Unravel(dims, i), axes));
  }

  /** The fibre of an output: the elements that agree with it off the reduced axes. */
  lemma FibreOf(dims: seq<nat>, axes: seq<nat>, i: int, j: int)
    requires 0 <= i < Prod(dims) && 0 <= j < Prod(Ones(dims, axes))
    ensures Kept(dims, axes, i) == j
            <==> forall k :: 0 <= k < |dims| && k !in axes ==> Unravel(dims, i)[k] == Unravel(Ones(dims, axes), j)[k]
  {
    var ones, z, c := Ones(dims, axes), Zeroed(Unravel(dims, i), axes), Unravel(Ones(dims, axes), j);
    KeptBound(dims, axes, i);
    if Kept(dims, axes, i) == j {
      RavelInjective(ones, z, c);
    }
    if forall k :: 0 <= k < |dims| && k !in axes ==> Unravel(dims, i)[k] == c[k] {
      forall k | 0 <= k < |dims| ensures z[k] == c[k] {
        assert 0 <= c[k] < ones[k];
      }
      assert z == c;
    }
  }

  ghost function KeptEdges(dims: seq<nat>, axes: seq<nat>): seq<int> {
    seq(Prod(dims), i requires 0 <= i < Prod(dims) => Kept(dims, axes, i))
  }

  /** Each output is the sum over its fibre. */
  ghost predicate IsReduced(out: seq<int>, dims: seq<nat>, axes: seq<nat>, v: seq<int>) {
    && |v| == Prod(dims) && |out| == Prod(Ones(dims, axes))
    && forall p :: 0 <= p < |out| ==> out[p] == Sum(|v|, Brought(KeptEdges(dims, axes), v, p))
  }

  /** Nothing is lost and nothing counted twice. */
  lemma GrandTotal(out: seq<int>, dims: seq<nat>, axes: seq<nat>, v: seq<int>)
    requires IsReduced(out, dims, axes, v)
    ensures Total(out) == Total(v)
  {
    var edges := KeptEdges(dims, axes);
    forall e | 0 <= e < |edges| ensures 0 <= edges[e] < |out| {
      KeptBound(dims, axes, e);
    }
    TotalConserved(out, edges, v);
  }

  // ---------------------------------------------------------------- digit deletion

  /** One turn of the divmod loop. */
  function DeleteDigit(index: int, dim: nat, stride: nat): int
    requires dim > 0 && stride > 0
  {
    index / stride / dim * stride + index % stride
  }

  lemma DeleteDigitAt(index: int, l: nat, j: nat, r: nat, n: nat, stride: nat)
    requires j < n && r < stride && index == Pos3(l, j, r, n, stride)
    ensures DeleteDigit(index, n, stride) == Pos3(l, 0, r, 1, stride)
  {
    Euclid(l * n + j, r, stride);
    Euclid(l, j, n);
  }

  /** It removes the coordinate of one axis, if the axes after it still have their sizes. */
  lemma DeletesCoordinate(dims: seq<nat>, d: nat, c: seq<int>, stride: nat)
    requires d < |dims| && InRange(dims, c) && stride == Prod(dims[d + 1..])
    ensures stride > 0 && dims[d] > 0 && Ravel(dims, c) >= 0
    ensures DeleteDigit(Ravel(dims, c), dims[d], stride) == Ravel(dims[d := 1], c[d := 0])
  {
    var l, r := Ravel(dims[..d], c[..d]), Ravel(dims[d + 1..], c[d + 1..]);
    AxisPosition(dims, d, c);
    ReplacedPosition(dims, d, 1, c, 0);
    RavelBound(dims[..d], c[..d]);
    RavelBound(dims[d + 1..], c[d + 1..]);
    RavelBound(dims, c);
    DeleteDigitAt(Ravel(dims, c), l, c[d], r, dims[d], stride);
  }

  predicate AxesFit(axes: seq<nat>, rank: nat) { forall i :: 0 <= i < |axes| ==> axes[i] < rank }

  /** The sizes and strides the loop works with: those of the unreduced shape. */
  function DimsAndStrides(dims: seq<nat>, axes: seq<nat>): seq<(nat, nat)>
    requires AxesFit(axes, |dims|)
  {
    seq(|axes|, i requires 0 <= i < |axes| => (dims[axes[i]], Prod(dims[axes[i] + 1..])))
  }

  lemma OneMoreAxis(dims: seq<nat>, c: seq<int>, axes: seq<nat>, k: nat)
    requires |c| == |dims| && Ascending(axes) && AxesFit(axes, |dims|) && k < |axes|
    ensures Ones(dims, axes[..k + 1]) == Ones(dims, axes[..k])[axes[k] := 1]
    ensures Zeroed(c, axes[..k + 1]) == Zeroed(c, axes[..k])[axes[k] := 0]
    ensures Ones(dims, axes[..k])[axes[k]] == dims[axes[k]]
    ensures Ones(dims, axes[..k])[axes[k] + 1..] == dims[axes[k] + 1..]
  {
    assert axes[..k + 1] == axes[..k] + [axes[k]];
  }

  lemma NoAxis(dims: seq<nat>, c: seq<int>)
    requires |c| == |dims|
    ensures Ones(dims, []) == dims && Zeroed(c, []) == c
  {}

  lemma InRangeZeroed(dims: seq<nat>, c: seq<int>, axes: seq<nat>)
    requires InRange(dims, c)
    ensures InRange(Ones(dims, axes), Zeroed(c, axes))
  {}

  /** The divmod loop, axis by axis in ascending order. */
  method DestinationOf(index: nat, ds: seq<(nat, nat)>, ghost dims: seq<nat>, ghost axes: seq<nat>)
          returns (dstIndex: int)
    requires Ascending(axes) && AxesFit(axes, |dims|) && ds == DimsAndStrides(dims, axes) && index < Prod(dims)
    ensures 0 <= dstIndex == Kept(dims, axes, index) < Prod(Ones(dims, axes))
  {
    dstIndex := index;
    ghost var c := Unravel(dims, index);
    assert axes[..0] == [] && axes[..|axes|] == axes;
    NoAxis(dims, c);
    for k := 0 to |ds|
      invariant dstIndex == Ravel(Ones(dims, axes[..k]), Zeroed(c, axes[..k]))
    {
      InRangeZeroed(dims, c, axes[..k]);
      OneMoreAxis(dims, c, axes, k);
      DeletesCoordinate(Ones(dims, axes[..k]), axes[k], Zeroed(c, axes[..k]), ds[k].1);
      dstIndex := DeleteDigit(dstIndex, ds[k].0, ds[k].1);
    }
    KeptBound(dims, axes, index);
  }

  /** Two equal axes would be one too many: the second turn divides what is before the axis.
      Shapes with repeated axes are refused before they get here. */
  lemma RepeatedAxisMisplaces()
    ensures var dims, axes := [3, 2], [1, 1];
            var ds := [(2, 1), (2, 1)];
            && 0 <= 5 < Prod(dims) && Kept(dims, axes, 5) == 2
            && DeleteDigit(DeleteDigit(5, ds[0].0, ds[0].1), ds[1].0, ds[1].1) == 1
  {
    var dims: seq<nat>, c, axes: seq<nat> := [3, 2], [2, 1], [1, 1];
    Rank2(dims, c, [0, 0]);
    UnravelIs(dims, c);
    assert Ones(dims, axes) == [3, 1] && Zeroed(c, axes) == [2, 0];
    Rank2([3, 1], [2, 0], [0, 0]);
  }

  // ---------------------------------------------------------------- element by element

  /** Elements before `n` have been added where they belong. */
  ghost predicate SummedSoFar(d: seq<int>, dims: seq<nat>, axes: seq<nat>, v: seq<int>, n: nat) {
    && n <= |v| == Prod(dims) && |d| == Prod(Ones(dims, axes))
    && forall p :: 0 <= p < |d| ==> d[p] == Sum(n, Brought(KeptEdges(dims, axes), v, p))
  }

  /** `dst[dst_index] += src`. */
  method AddElement(dst: array<int>, i: nat, s: int, ds: seq<(nat, nat)>, ghost dims: seq<nat>, ghost axes: seq<nat>,
          ghost v: seq<int>)
    requires Ascending(axes) && AxesFit(axes, |dims|) && ds == DimsAndStrides(dims, axes)
    requires SummedSoFar(dst[..], dims, axes, v, i) && i < |v| && v[i] == s
    modifies dst
    ensures SummedSoFar(dst[..], dims, axes, v, i + 1)
  {
    var p := DestinationOf(i, ds, dims, axes);
    ghost var before := dst[..];
    dst[p] := dst[p] + s;
    forall q | 0 <= q < dst.Length ensures dst[q] == Sum(i + 1, Brought(KeptEdges(dims, axes), v, q)) {
      assert before[q] == Sum(i, Brought(KeptEdges(dims, axes), v, q));
      assert At(KeptEdges(dims, axes), i) == p;
    }
  }

  /** Over a contiguous source. */
  method SumContiguous(src: seq<int>, ds: seq<(nat, nat)>, ghost dims: seq<nat>, ghost axes: seq<nat>, dst: array<int>)
    requires Ascending(axes) && AxesFit(axes, |dims|) && ds == DimsAndStrides(dims, axes)
    requires SummedSoFar(dst[..], dims, axes, src, 0)
    modifies dst
    ensures SummedSoFar(dst[..], dims, axes, src, |src|)
  {
    for i := 0 to |src|
      invariant SummedSoFar(dst[..], dims, axes, src, i)
    {
      AddElement(dst, i, src[i], ds, dims, axes, src);
    }
  }

  /** Over the odometer of a strided source. */
  method SumStrided(src: seq<int>, l: Layout, ds: seq<(nat, nat)>, ghost axes: seq<nat>, dst: array<int>,
          ghost v: seq<int>)
    requires l.Valid() && Ascending(axes) && AxesFit(axes, |l.dims|) && ds == DimsAndStrides(l.dims, axes)
    requires SummedSoFar(dst[..], l.dims, axes, v, 0)
    requires forall i :: 0 <= i < l.Count() ==> 0 <= l.Offset(i) < |src| && v[i] == src[l.Offset(i)]
    modifies dst
    ensures SummedSoFar(dst[..], l.dims, axes, v, |v|)
  {
    var offsets := CollectOffsets(l);
    for i := 0 to |offsets|
      invariant SummedSoFar(dst[..], l.dims, axes, v, i)
    {
      AddElement(dst, i, src[offsets[i]], ds, l.dims, axes, v);
    }
  }

  // ---------------------------------------------------------------- the last axes

  /** `reduce_dims` is the run of the last axes. */
  ghost predicate LastAxes(axes: seq<nat>, rank: nat) {
    |axes| <= rank && forall k :: 0 <= k < |axes| ==> axes[k] == rank - |axes| + k
  }

  method OverLastDims(axes: seq<nat>, rank: nat) returns (r: bool)
    requires |axes| <= rank
    ensures r == LastAxes(axes, rank)
  {
    for i := 0 to |axes|
      invariant forall k :: |axes| - i <= k < |axes| ==> axes[k] == rank - |axes| + k
    {
      if axes[|axes| - 1 - i] != rank - 1 - i {
        return false;
      }
    }
    r := true;
  }

  lemma {:induction false} AllOnes(n: nat, ones: seq<nat>, zeros: seq<int>)
    requires |ones| == |zeros| == n && (forall k :: 0 <= k < n ==> ones[k] == 1 && zeros[k] == 0)
    ensures Prod(ones) == 1 && Ravel(ones, zeros) == 0
  {
    if n > 0 {
      AllOnes(n - 1, Init(ones), Init(zeros));
    }
  }

  lemma ThenOnes(lo: seq<nat>, cl: seq<int>, ones: seq<nat>, zeros: seq<int>)
    requires |lo| == |cl| && |ones| == |zeros| && (forall k :: 0 <= k < |ones| ==> ones[k] == 1 && zeros[k] == 0)
    ensures Ravel(lo + ones, cl + zeros) == Ravel(lo, cl) && Prod(lo + ones) == Prod(lo)
  {
    AllOnes(|ones|, ones, zeros);
    RavelConcat(lo, ones, cl, zeros);
    ProdConcat(lo, ones);
    MulEq(Prod(ones), 1, Ravel(lo, cl));
    MulEq(Prod(ones), 1, Prod(lo));
  }

  lemma Halves<T>(s: seq<T>, m: nat)
    requires m <= |s|
    ensures s[..m] + s[m..] == s
  {}

  /** Reducing the last axes keeps the high part of the position. */
  lemma KeptIsHigh(dims: seq<nat>, axes: seq<nat>, i: int) returns (r: int)
    requires LastAxes(axes, |dims|) && 0 <= i < Prod(dims)
    ensures var m := |dims| - |axes|;
            0 <= Kept(dims, axes, i) < Prod(dims[..m]) && 0 <= r < Prod(dims[m..])
                && i == Kept(dims, axes, i) * Prod(dims[m..]) + r
  {
    var m, c := |dims| - |axes|, Unravel(dims, i);
    r := Ravel(dims[m..], c[m..]);
    LastOnes(dims, axes, c);
    ThenOnes(dims[..m], c[..m], seq(|axes|, _ => 1), seq(|axes|, _ => 0));
    RavelConcat(dims[..m], dims[m..], c[..m], c[m..]);
    RavelBound(dims[m..], c[m..]);
    RavelBound(dims[..m], c[..m]);
    Halves(dims, m);
    Halves(c, m);
  }

  lemma LastOnes(dims: seq<nat>, axes: seq<nat>, c: seq<int>)
    requires LastAxes(axes, |dims|) && |c| == |dims|
    ensures var m := |dims| - |axes|;
            && Ones(dims, axes) == dims[..m] + seq(|axes|, _ => 1)
            && Zeroed(c, axes) == c[..m] + seq(|axes|, _ => 0)
  {
    var m := |dims| - |axes|;
    forall k | 0 <= k < |dims| ensures k in axes <==> k >= m {
      if k >= m {
        assert axes[k - m] == k;
      }
    }
  }

  /** `reduce_sz`. */
  method ReduceSize(ds: seq<(nat, nat)>, ghost dims: seq<nat>, ghost axes: seq<nat>) returns (r: nat)
    requires LastAxes(axes, |dims|) && AxesFit(axes, |dims|) && ds == DimsAndStrides(dims, axes)
    ensures r == Prod(dims[|dims| - |axes|..])
  {
    ghost var hi := dims[|dims| - |axes|..];
    r := 1;
    for i := 0 to |ds|
      invariant r == Prod(hi[..i])
    {
      assert Init(hi[..i + 1]) == hi[..i] && Last(hi[..i + 1]) == ds[i].0;
      r := r * ds[i].0;
    }
    assert hi[..|hi|] == hi;
  }

  /** `vec_reduce_sum` over one slice. */
  method VecReduceSum(src: seq<int>, from: nat, n: nat) returns (s: int)
    requires from + n <= |src|
    ensures s == Sum(n, Slice(src, from))
  {
    s := 0;
    for t := 0 to n
      invariant s == Sum(t, Slice(src, from))
    {
      assert At(src, from + t) == src[from + t];
      assert Slice(src, from)(t) == At(src, from + t);
      s := s + src[from + t];
    }
  }

  ghost function Slice(src: seq<int>, from: int): int -> int { t => At(src, from + t) }

  lemma HighIs(dims: seq<nat>, axes: seq<nat>, size: nat, i: int, q: int, t: int)
    requires LastAxes(axes, |dims|) && size == Prod(dims[|dims| - |axes|..])
    requires 0 <= i < Prod(dims) && 0 <= t < size && i == q * size + t
    ensures Kept(dims, axes, i) == q
  {
    var r := KeptIsHigh(dims, axes, i);
    SameHigh(i, size, q, t, Kept(dims, axes, i), r);
  }

  /** Edges that keep the high part of a position sum slices. */
  lemma SliceIsFibre(edges: seq<int>, v: seq<int>, high: nat, size: nat, j: int)
    requires |v| == |edges| == high * size && 0 <= j < high
    requires forall q, t :: 0 <= q < high && 0 <= t < size ==> At(edges, Pos(q, size, t)) == q
    ensures Sum(size, Slice(v, j * size)) == Sum(|v|, Brought(edges, v, j))
  {
    var f := Brought(edges, v, j);
    var g := (q, t) => if q == j then At(v, q * size + t) else 0;
    forall q, t | 0 <= q < high && 0 <= t < size ensures g(q, t) == f(q * size + t) {
      assert At(edges, Pos(q, size, t)) == q;
    }
    SumFlatten(high, size, f, g);
    var F := q => Sum(size, Row(g, q));
    forall q | 0 <= q < high && q != j ensures F(q) == 0 {
      SumZero(size, Row(g, q));
    }
    SumSingle(high, j, F);
    SumExt(size, Row(g, j), Slice(v, j * size));
  }

  lemma EdgeKeepsHigh(dims: seq<nat>, axes: seq<nat>, size: nat, i: int, q: int, t: int)
    requires LastAxes(axes, |dims|) && size == Prod(dims[|dims| - |axes|..])
    requires 0 <= i < Prod(dims) && 0 <= t < size && i == q * size + t
    ensures At(KeptEdges(dims, axes), i) == q
  {
    HighIs(dims, axes, size, i, q, t);
  }

  /** Over the last axes the edges do. */
  lemma EdgesKeepHigh(dims: seq<nat>, axes: seq<nat>, high: nat, size: nat)
    requires LastAxes(axes, |dims|) && size == Prod(dims[|dims| - |axes|..]) && Prod(dims) == high * size
    ensures forall q, t :: 0 <= q < high && 0 <= t < size ==> At(KeptEdges(dims, axes), Pos(q, size, t)) == q
  {
    forall q, t | 0 <= q < high && 0 <= t < size ensures At(KeptEdges(dims, axes), Pos(q, size, t)) == q {
      PosBound(q, high, t, size, Prod(dims));
      EdgeKeepsHigh(dims, axes, size, Pos(q, size, t), q, t);
    }
  }

  lemma PosBound(q: int, high: int, t: int, size: int, n: int)
    requires 0 <= q < high && 0 <= t < size && n == high * size
    ensures 0 <= Pos(q, size, t) < n
  {
    Bound(q, high, t, size);
  }

  /** One slice per output. */
  method SumSlices(src: seq<int>, size: nat, dst: array<int>, ghost edges: seq<int>)
    requires |src| == |edges| == dst.Length * size
    requires forall q, t :: 0 <= q < dst.Length && 0 <= t < size ==> At(edges, Pos(q, size, t)) == q
    modifies dst
    ensures forall p :: 0 <= p < dst.Length ==> dst[p] == Sum(|src|, Brought(edges, src, p))
  {
    for j := 0 to dst.Length
      invariant forall p :: 0 <= p < j ==> dst[p] == Sum(|src|, Brought(edges, src, p))
    {
      MulMono(j + 1, dst.Length, size);
      Dist(j, 1, size);
      MulMono(0, j, size);
      SliceIsFibre(edges, src, dst.Length, size, j);
      dst[j] := VecReduceSum(src, j * size, size);
    }
  }

  method SumLastDims(src: seq<int>, ds: seq<(nat, nat)>, ghost dims: seq<nat>, ghost axes: seq<nat>, dst: array<int>)
    requires LastAxes(axes, |dims|) && AxesFit(axes, |dims|) && ds == DimsAndStrides(dims, axes)
    requires |src| == Prod(dims) && dst.Length == Prod(Ones(dims, axes))
    modifies dst
    ensures IsReduced(dst[..], dims, axes, src)
  {
    var size := ReduceSize(ds, dims, axes);
    LastCounts(dims, axes);
    EdgesKeepHigh(dims, axes, dst.Length, size);
    SumSlices(src, size, dst, KeptEdges(dims, axes));
  }

  lemma LastCounts(dims: seq<nat>, axes: seq<nat>)
    requires LastAxes(axes, |dims|)
    ensures var m := |dims| - |axes|;
            Prod(Ones(dims, axes)) == Prod(dims[..m]) && Prod(dims) == Prod(dims[..m]) * Prod(dims[m..])
  {
    var m := |dims| - |axes|;
    var c: seq<int> := dims;
    LastOnes(dims, axes, c);
    ThenOnes(dims[..m], c[..m], seq(|axes|, _ => 1), seq(|axes|, _ => 0));
    Halves(dims, m);
    ProdConcat(dims[..m], dims[m..]);
  }

  // ---------------------------------------------------------------- reduce_op_dyn

  /** `dst_dims`. */
  method SetOnes(dims: seq<nat>, axes: seq<nat>) returns (dstDims: seq<nat>)
    requires AxesFit(axes, |dims|)
    ensures dstDims == Ones(dims, axes)
  {
    dstDims := dims;
    for i := 0 to |axes|
      invariant dstDims == Ones(dims, axes[..i])
    {
      assert axes[..i + 1] == axes[..i] + [axes[i]];
      dstDims := dstDims[axes[i] := 1];
    }
    assert axes[..|axes|] == axes;
  }

  /** The order of the axes does not matter. */
  lemma SameAxes(dims: seq<nat>, axes: seq<nat>, axes': seq<nat>)
    requires forall k :: k in axes <==> k in axes'
    ensures Ones(dims, axes) == Ones(dims, axes') && KeptEdges(dims, axes) == KeptEdges(dims, axes')
  {
    forall i | 0 <= i < Prod(dims) ensures Kept(dims, axes, i) == Kept(dims, axes', i) {
      assert Zeroed(Unravel(dims, i), axes) == Zeroed(Unravel(dims, i), axes');
      assert Ones(dims, axes) == Ones(dims, axes');
    }
  }

  lemma {:induction false} RankBound(axes: seq<nat>, rank: nat)
    requires Ascending(axes) && AxesFit(axes, rank)
    ensures |axes| <= rank
  {
    if |axes| > 0 {
      RankBound(Init(axes), Last(axes));
    }
  }

  /** `ReduceSum::fold_impl`: whichever traversal it takes, the sums over the fibres. */
  method FoldImpl(src: seq<int>, l: Layout, reduceDims: seq<nat>, ds: seq<(nat, nat)>, dstLen: nat)
          returns (out: seq<int>)
    requires l.Valid() && Ascending(reduceDims) && AxesFit(reduceDims, |l.dims|)
    requires ds == DimsAndStrides(l.dims, reduceDims)
    requires l.start <= |src| && (forall i :: 0 <= i < l.Count() ==> 0 <= l.Offset(i) < |src|)
             && dstLen == Prod(Ones(l.dims, reduceDims))
    ensures IsReduced(out, l.dims, reduceDims, PackedCopy(src, l))
  {
    var dst := new int[dstLen](_ => 0);
    ghost var v := PackedCopy(src, l);
    assert SummedSoFar(dst[..], l.dims, reduceDims, v, 0);
    var contiguous := IsContiguous(l);
    if contiguous {
      ContiguousBody(src, l);
      var body := Body(src, l);
      RankBound(reduceDims, |l.dims|);
      var last := OverLastDims(reduceDims, |l.dims|);
      if last {
        SumLastDims(body, ds, l.dims, reduceDims, dst);
      } else {
        SumContiguous(body, ds, l.dims, reduceDims, dst);
      }
    } else {
      SumStrided(src, l, ds, reduceDims, dst, v);
    }
    out := dst[..];
  }

  /** `reduce_op_dyn` with `ReduceOp::Sum`: axes in any order, each at most once. */
  method ReduceSumDyn(src: seq<int>, l: Layout, axes: seq<nat>) returns (out: seq<int>)
    requires l.Valid() && AxesFit(axes, |l.dims|) && Distinct(axes)
    requires l.start <= |src| && forall i :: 0 <= i < l.Count() ==> 0 <= l.Offset(i) < |src|
    ensures IsReduced(out, l.dims, axes, PackedCopy(src, l))
  {
    var dstDims := SetOnes(l.dims, axes);
    var reduceDims := Sort(axes);
    forall i | 0 <= i < |reduceDims| ensures reduceDims[i] < |l.dims| {
      assert reduceDims[i] in axes;
    }
    SameAxes(l.dims, axes, reduceDims);
    out := FoldImpl(src, l, reduceDims, DimsAndStrides(l.dims, reduceDims), Prod(dstDims));
  }
}
