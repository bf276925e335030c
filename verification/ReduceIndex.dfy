/** The three traversals of `ReduceIndex`: minima, maxima and where they are first attained. */
module ReduceIndex {
  import opened Sums
  import opened Radix
  import opened Wrappers
  import opened Layouts
  import opened StridedIndices
  import opened Tables
  import opened AxisViews
  import opened Indexing

  const WORD := 0x1_0000_0000_0000_0000
  const U32 := 0x1_0000_0000

  // ---------------------------------------------------------------- the extremum of a fibre

  /** `x` beats `y`: the comparison under which a value is replaced. */
  predicate Beats(x: int, y: int, useMin: bool) { if useMin then x < y else x > y }

  /** The smallest value if `useMin`, otherwise the largest, and the first index that attains it. */
  ghost predicate IsFirstExtremum(val: int, idx: int, n: nat, f: int -> int, useMin: bool) {
    && 0 <= idx < n && val == f(idx)
    && (forall t :: 0 <= t < n ==> if useMin then val <= f(t) else val >= f(t))
    && (forall t :: 0 <= t < idx ==> val != f(t))
  }

  ghost function Strided(src: seq<int>, from: int, stride: int): int -> int { t => At(src, from + t * stride) }

  /** The inner loop of all three traversals. */
  method Scan(src: seq<int>, from: nat, stride: nat, n: nat, useMin: bool) returns (val: int, acc: nat)
    requires n > 0 && forall t :: 0 <= t < n ==> 0 <= from + t * stride < |src|
    ensures IsFirstExtremum(val, acc, n, Strided(src, from, stride), useMin)
  {
    assert 0 <= from + 0 * stride < |src|;
    val, acc := src[from], 0;
    for t := 0 to n
      invariant 0 <= acc < n && (acc < t || acc == 0) && val == Strided(src, from, stride)(acc)
      invariant forall k :: 0 <= k < t ==>
                  if useMin then val <= Strided(src, from, stride)(k) else val >= Strided(src, from, stride)(k)
      invariant forall k :: 0 <= k < acc ==> val != Strided(src, from, stride)(k)
    {
      var s := src[from + t * stride];
      assert s == Strided(src, from, stride)(t);
      if Beats(s, val, useMin) {
        acc, val := t, s;
      }
    }
  }

  /** Element `t` of fibre `j`: the coordinates of output `j`, with `t` on the reduced axis. */
  ghost function FibrePos(dims: seq<nat>, dim: nat, j: int, t: int): int
    requires dim < |dims| && 0 <= j < Prod(dims[dim := 1])
  {
    Ravel(dims, Unravel(dims[dim := 1], j)[dim := t])
  }

  ghost function Fibre(v: seq<int>, dims: seq<nat>, dim: nat, j: int): int -> int
    requires dim < |dims| && 0 <= j < Prod(dims[dim := 1])
  {
    t => At(v, FibrePos(dims, dim, j, t))
  }

  /** What `g` makes of a value and its index. */
  function Pick(val: int, idx: nat, returnIndex: bool): int { if returnIndex then idx % U32 else val }

  /** The extremum of every fibre, or where it is. */
  ghost predicate IsReduction(out: seq<int>, v: seq<int>, dims: seq<nat>, dim: nat, useMin: bool, returnIndex: bool)
    requires dim < |dims|
  {
    && |out| == Prod(dims[dim := 1])
    && forall j :: 0 <= j < |out| ==> IsPick(out[j], v, dims, dim, j, useMin, returnIndex)
  }

  ghost predicate IsPick(x: int, v: seq<int>, dims: seq<nat>, dim: nat, j: int, useMin: bool, returnIndex: bool)
    requires dim < |dims| && 0 <= j < Prod(dims[dim := 1])
  {
    exists val, idx: nat :: IsFirstExtremum(val, idx, dims[dim], Fibre(v, dims, dim, j), useMin)
        && x == if returnIndex then idx % 0x1_0000_0000 else val
  }

  /** The result is unique: no freedom is left to the traversal. */
  lemma FirstExtremumUnique(val: int, idx: nat, val': int, idx': nat, n: nat, f: int -> int, useMin: bool)
    requires IsFirstExtremum(val, idx, n, f, useMin) && IsFirstExtremum(val', idx', n, f, useMin)
    ensures val == val' && idx == idx'
  {
    assert if useMin then val <= f(idx') && val' <= f(idx) else val >= f(idx') && val' >= f(idx);
  }

  /** Fibres in positions: output `l * right + r` is cell `(l, r)` off the axis. */
  lemma FibrePosition(dims: seq<nat>, dim: nat, j: int, t: int) returns (l: int, r: int)
    requires dim < |dims| && 0 <= j < Prod(dims[dim := 1])
    ensures var a := AxesOf(dims, dim);
            0 <= l < a.left && 0 <= r < a.right && j == l * a.right + r
                && FibrePos(dims, dim, j, t) == Pos3(l, t, r, a.size, a.right)
  {
    var dims', c := dims[dim := 1], Unravel(dims[dim := 1], j);
    l, r := Ravel(dims[..dim], c[..dim]), Ravel(dims[dim + 1..], c[dim + 1..]);
    SameSides(dims, dim, 1);
    RavelBound(dims[..dim], c[..dim]);
    RavelBound(dims[dim + 1..], c[dim + 1..]);
    AxisPosition(dims', dim, c);
    SameSides(dims, dim, dims[dim]);
    ReplacedPosition(dims, dim, dims[dim], c, t);
    assert c[dim] == 0;
  }

  lemma SameSides(dims: seq<nat>, dim: nat, n: nat)
    requires dim < |dims|
    ensures dims[dim := n][..dim] == dims[..dim] && dims[dim := n][dim + 1..] == dims[dim + 1..]
    ensures dims[dim := n][dim] == n
    ensures n == dims[dim] ==> dims[dim := n] == dims
  {}

  lemma FibreInside(dims: seq<nat>, dim: nat, j: int, t: int)
    requires dim < |dims| && 0 <= j < Prod(dims[dim := 1]) && 0 <= t < dims[dim]
    ensures InRange(dims, Unravel(dims[dim := 1], j)[dim := t]) && 0 <= FibrePos(dims, dim, j, t) < Prod(dims)
  {
    RavelBound(dims, Unravel(dims[dim := 1], j)[dim := t]);
  }

  /** Unit stride: a fibre is a slice. */
  lemma UnitFibre(dims: seq<nat>, dim: nat, j: int, t: int)
    requires dim < |dims| && 0 <= j < Prod(dims[dim := 1]) && 0 <= t < dims[dim]
    requires dims[dim] == 1 || Prod(dims[dim + 1..]) == 1
    ensures FibrePos(dims, dim, j, t) == j * dims[dim] + t
  {
    var l, r := FibrePosition(dims, dim, j, t);
  }

  /** Contiguous: a fibre is an arithmetic progression from `p * stride * size + q`. */
  lemma StrideFibre(dims: seq<nat>, dim: nat, j: int, t: int, stride: int, p: int, q: int)
    requires dim < |dims| && 0 <= j < Prod(dims[dim := 1]) && 0 <= t < dims[dim]
    requires (dims[dim] == 1 || stride == Prod(dims[dim + 1..])) && 0 <= q < stride && j == p * stride + q
    ensures FibrePos(dims, dim, j, t) == p * stride * dims[dim] + q + t * stride
  {
    var l, r := FibrePosition(dims, dim, j, t);
    if dims[dim] == 1 {
      ProgressionOfOne(l, r, Prod(dims[dim + 1..]), p, q, stride, j);
    } else {
      Progression(l, r, p, q, t, dims[dim], stride, j);
    }
  }

  lemma StrideFibres(v: seq<int>, dims: seq<nat>, dim: nat, j: int, stride: int, p: int, q: int)
    requires dim < |dims| && 0 <= j < Prod(dims[dim := 1]) && |v| == Prod(dims)
    requires (dims[dim] == 1 || stride == Prod(dims[dim + 1..])) && 0 <= q < stride && j == p * stride + q
    ensures forall t :: 0 <= t < dims[dim]
              ==> 0 <= p * stride * dims[dim] + q + t * stride < |v|
                  && v[p * stride * dims[dim] + q + t * stride] == Fibre(v, dims, dim, j)(t)
  {
    forall t | 0 <= t < dims[dim]
      ensures 0 <= p * stride * dims[dim] + q + t * stride < |v|
              && v[p * stride * dims[dim] + q + t * stride] == Fibre(v, dims, dim, j)(t)
    {
      StrideFibre(dims, dim, j, t, stride, p, q);
      FibreInside(dims, dim, j, t);
    }
  }

  lemma Progression(l: int, r: int, p: int, q: int, t: int, n: int, stride: int, j: int)
    requires 0 <= r < stride && 0 <= q < stride && j == l * stride + r && j == p * stride + q
    ensures Pos3(l, t, r, n, stride) == p * stride * n + q + t * stride
  {
    PosInjective(l, r, p, q, stride);
    Dist(p * n, t, stride);
    assert p * n * stride == p * stride * n;
  }

  lemma ProgressionOfOne(l: int, r: int, right: int, p: int, q: int, stride: int, j: int)
    requires j == l * right + r && j == p * stride + q
    ensures Pos3(l, 0, r, 1, right) == p * stride * 1 + q + 0 * stride
  {}

  lemma {:induction false} RowMajorStride(dims: seq<nat>, strides: seq<int>, acc: int, dim: nat)
    requires |dims| == |strides| && dim < |dims| && RowMajorFrom(dims, strides, acc) && dims[dim] > 1
    ensures strides[dim] == acc * Prod(dims[dim + 1..])
  {
    if dim == |dims| - 1 {
      assert dims[dim + 1..] == [];
    } else {
      RowMajorStride(Init(dims), Init(strides), acc * Last(dims), dim);
      assert Init(dims[dim + 1..]) == Init(dims)[dim + 1..];
      Mul3(acc, Last(dims), Prod(Init(dims)[dim + 1..]));
    }
  }

  lemma DotSnoc(c: seq<int>, j: int, strides: seq<int>, s: int)
    requires |c| == |strides|
    ensures Dot(c + [j], strides + [s]) == Dot(c, strides) + j * s
  {
    assert Init(c + [j]) == c && Init(strides + [s]) == strides;
  }

  lemma DotAround(cl: seq<int>, j: int, ch: seq<int>, sl: seq<int>, s: int, sh: seq<int>)
    requires |cl| == |sl| && |ch| == |sh|
    ensures Dot(cl + [j] + ch, sl + [s] + sh) == Dot(cl, sl) + j * s + Dot(ch, sh)
  {
    DotSnoc(cl, j, sl, s);
    DotConcat(cl + [j], ch, sl + [s], sh);
  }

  lemma DotReplaced(c: seq<int>, strides: seq<int>, dim: nat, t: int)
    requires dim < |c| == |strides| && c[dim] == 0
    ensures Dot(c[dim := t], strides) == Dot(c, strides) + t * strides[dim]
  {
    Around(c, dim);
    Around(strides, dim);
    DotAround(c[..dim], 0, c[dim + 1..], strides[..dim], strides[dim], strides[dim + 1..]);
    DotAround(c[..dim], t, c[dim + 1..], strides[..dim], strides[dim], strides[dim + 1..]);
    Spliced(c, dim, t);
  }

  lemma Spliced(c: seq<int>, dim: nat, t: int)
    requires dim < |c|
    ensures c[dim := t] == c[..dim] + [t] + c[dim + 1..]
  {}

  /** `narrow(dim, 0, 1)`. */
  function Narrowed(l: Layout, dim: nat): Layout
    requires dim < |l.dims|
  {
    Layout(l.dims[dim := 1], l.strides, l.start)
  }

  /** Strided: a fibre is an arithmetic progression from where the narrowed layout points. */
  lemma NarrowedFibre(l: Layout, dim: nat, j: int, t: int)
    requires l.Valid() && dim < |l.dims| && 0 <= j < Narrowed(l, dim).Count() && 0 <= t < l.dims[dim]
    ensures 0 <= FibrePos(l.dims, dim, j, t) < l.Count()
    ensures l.Offset(FibrePos(l.dims, dim, j, t)) == Narrowed(l, dim).Offset(j) + t * l.strides[dim]
  {
    var c := Unravel(l.dims[dim := 1], j);
    FibreInside(l.dims, dim, j, t);
    UnravelIs(l.dims, c[dim := t]);
    DotReplaced(c, l.strides, dim, t);
  }

  // ---------------------------------------------------------------- traversals

  lemma ExtremumExt(val: int, idx: nat, n: nat, f: int -> int, g: int -> int, useMin: bool)
    requires IsFirstExtremum(val, idx, n, f, useMin) && forall t :: 0 <= t < n ==> f(t) == g(t)
    ensures IsFirstExtremum(val, idx, n, g, useMin)
  {
    forall t | 0 <= t < n ensures if useMin then val <= g(t) else val >= g(t) {
      assert f(t) == g(t);
    }
  }

  /** One output, from a progression that is its fibre. */
  method ReduceOne(src: seq<int>, from: nat, stride: nat, n: nat, useMin: bool, returnIndex: bool,
                   ghost v: seq<int>, ghost dims: seq<nat>, ghost dim: nat, ghost j: nat) returns (x: int)
    requires dim < |dims| && n == dims[dim] > 0 && j < Prod(dims[dim := 1])
    requires forall t :: 0 <= t < n
               ==> 0 <= from + t * stride < |src| && src[from + t * stride] == Fibre(v, dims, dim, j)(t)
    ensures IsPick(x, v, dims, dim, j, useMin, returnIndex)
  {
    var val, acc := Scan(src, from, stride, n, useMin);
    forall t | 0 <= t < n ensures Strided(src, from, stride)(t) == Fibre(v, dims, dim, j)(t) {
      assert src[from + t * stride] == Fibre(v, dims, dim, j)(t);
    }
    ExtremumExt(val, acc, n, Strided(src, from, stride), Fibre(v, dims, dim, j), useMin);
    x := Pick(val, acc, returnIndex);
  }

  ghost predicate ReducedSoFar(out: seq<int>, v: seq<int>, dims: seq<nat>, dim: nat, useMin: bool, returnIndex: bool)
    requires dim < |dims|
  {
    |out| <= Prod(dims[dim := 1]) && forall j :: 0 <= j < |out| ==> IsPick(out[j], v, dims, dim, j, useMin, returnIndex)
  }

  lemma UnitProgression(v: seq<int>, dims: seq<nat>, dim: nat, j: nat)
    requires dim < |dims| && dims[dim] > 0 && |v| == Prod(dims) && j < Prod(dims[dim := 1])
    requires (dims[dim] == 1 || Prod(dims[dim + 1..]) == 1)
    ensures 0 <= j * dims[dim]
    ensures forall t :: 0 <= t < dims[dim]
              ==> 0 <= j * dims[dim] + t * 1 < |v| && v[j * dims[dim] + t * 1] == Fibre(v, dims, dim, j)(t)
  {
    forall t | 0 <= t < dims[dim]
      ensures 0 <= j * dims[dim] + t * 1 < |v| && v[j * dims[dim] + t * 1] == Fibre(v, dims, dim, j)(t)
    {
      UnitFibre(dims, dim, j, t);
      FibreInside(dims, dim, j, t);
    }
  }

  method OneSlice(v: seq<int>, n: nat, i: nat, useMin: bool, returnIndex: bool, ghost dims: seq<nat>,
          ghost dim: nat) returns (x: int)
    requires dim < |dims| && n == dims[dim] > 0 && |v| == Prod(dims) && i < Prod(dims[dim := 1])
    requires (n == 1 || Prod(dims[dim + 1..]) == 1)
    ensures IsPick(x, v, dims, dim, i, useMin, returnIndex)
  {
    UnitProgression(v, dims, dim, i);
    x := ReduceOne(v, i * n, 1, n, useMin, returnIndex, v, dims, dim, i);
  }

  method OverUnitStride(v: seq<int>, n: nat, dstLen: nat, useMin: bool, returnIndex: bool, ghost dims: seq<nat>,
          ghost dim: nat) returns (out: seq<int>)
    requires dim < |dims| && n == dims[dim] > 0 && |v| == Prod(dims) && dstLen == Prod(dims[dim := 1])
    requires n == 1 || Prod(dims[dim + 1..]) == 1
    ensures IsReduction(out, v, dims, dim, useMin, returnIndex)
  {
    out := [];
    for i := 0 to dstLen
      invariant |out| == i && ReducedSoFar(out, v, dims, dim, useMin, returnIndex)
    {
      var x := OneSlice(v, n, i, useMin, returnIndex, dims, dim);
      out := out + [x];
    }
  }

  method OverStride(v: seq<int>, n: nat, stride: nat, dstLen: nat, useMin: bool, returnIndex: bool,
          ghost dims: seq<nat>, ghost dim: nat)
    returns (out: seq<int>)
    requires dim < |dims| && n == dims[dim] > 0 && |v| == Prod(dims) && dstLen == Prod(dims[dim := 1])
    requires stride > 0 && (n == 1 || stride == Prod(dims[dim + 1..]))
    ensures IsReduction(out, v, dims, dim, useMin, returnIndex)
  {
    out := [];
    for i := 0 to dstLen
      invariant |out| == i && ReducedSoFar(out, v, dims, dim, useMin, returnIndex)
    {
      var p, q := DivRem(i, stride);
      MulMono(0, p, stride);
      MulMono(0, p * stride, n);
      var from := p * stride * n + q;
      StrideFibres(v, dims, dim, i, stride, p, q);
      var x := ReduceOne(v, from, stride, n, useMin, returnIndex, v, dims, dim, i);
      out := out + [x];
    }
  }

  /** `stride as usize`. */
  function AsUsize(stride: int): nat
    requires -WORD <= stride
  {
    if stride >= 0 then stride else stride + WORD
  }

  lemma OdometerFibre(src: seq<int>, l: Layout, dim: nat, j: int)
    requires l.Valid() && dim < |l.dims| && l.dims[dim] > 0 && 0 <= j < Narrowed(l, dim).Count()
    requires -WORD <= l.strides[dim] && (l.strides[dim] >= 0 || l.dims[dim] == 1)
    requires forall i :: 0 <= i < l.Count() ==> 0 <= l.Offset(i) < |src|
    ensures var from, stride := Narrowed(l, dim).Offset(j), AsUsize(l.strides[dim]);
            && 0 <= from
            && forall t :: 0 <= t < l.dims[dim] ==> 0 <= from + t * stride < |src|
                                                    && src[from + t * stride]
                                                       == Fibre(PackedCopy(src, l), l.dims, dim, j)(t)
  {
    var from, stride := Narrowed(l, dim).Offset(j), AsUsize(l.strides[dim]);
    forall t | 0 <= t < l.dims[dim]
      ensures 0 <= from + t * stride < |src| && src[from + t * stride] == Fibre(PackedCopy(src, l), l.dims, dim, j)(t)
    {
      NarrowedFibre(l, dim, j, t);
      assert t * stride == t * l.strides[dim];
    }
    NarrowedFibre(l, dim, j, 0);
  }

  method OneStrided(src: seq<int>, l: Layout, dim: nat, start: int, useMin: bool, returnIndex: bool,
          ghost j: nat) returns (x: int)
    requires l.Valid() && dim < |l.dims| && l.dims[dim] > 0
    requires -WORD <= l.strides[dim] && (l.strides[dim] >= 0 || l.dims[dim] == 1)
    requires forall i :: 0 <= i < l.Count() ==> 0 <= l.Offset(i) < |src|
    requires j < Narrowed(l, dim).Count() && start == Narrowed(l, dim).Offset(j)
    ensures IsPick(x, PackedCopy(src, l), l.dims, dim, j, useMin, returnIndex)
  {
    OdometerFibre(src, l, dim, j);
    x := ReduceOne(src, start, AsUsize(l.strides[dim]), l.dims[dim], useMin, returnIndex, PackedCopy(src, l), l.dims,
        dim, j);
  }

  method OverOdometer(src: seq<int>, l: Layout, dim: nat, useMin: bool, returnIndex: bool) returns (out: seq<int>)
    requires l.Valid() && dim < |l.dims| && l.dims[dim] > 0
    requires -WORD <= l.strides[dim] && (l.strides[dim] >= 0 || l.dims[dim] == 1)
    requires forall i :: 0 <= i < l.Count() ==> 0 <= l.Offset(i) < |src|
    ensures IsReduction(out, PackedCopy(src, l), l.dims, dim, useMin, returnIndex)
  {
    ghost var v := PackedCopy(src, l);
    var starts := CollectOffsets(Narrowed(l, dim));
    out := [];
    for j := 0 to |starts|
      invariant |out| == j && ReducedSoFar(out, v, l.dims, dim, useMin, returnIndex)
    {
      var x := OneStrided(src, l, dim, starts[j], useMin, returnIndex, j);
      out := out + [x];
    }
  }

  lemma OutputCount(dims: seq<nat>, dim: nat)
    requires dim < |dims| && dims[dim] > 0
    ensures Prod(dims) == Prod(dims[dim := 1]) * dims[dim]
  {
    var a := AxesOf(dims, dim);
    AxesCount(dims, dim);
    AxesCount(dims[dim := 1], dim);
    SameSides(dims, dim, 1);
    Mul3(a.left, a.size, a.right);
    Mul3(a.left, a.right, a.size);
    assert a.size * a.right == a.right * a.size;
  }

  /** The machine's bounds: strides fit an `isize`, and so do indices into a buffer. */
  predicate Machine(src: seq<int>, stride: int) { |src| < WORD / 2 && -(WORD / 2) <= stride < WORD / 2 }

  /** `ReduceIndex::f`. The contiguous traversal divides by the stride of the reduced axis, which
      an axis of size one may have set to 0; the strided one takes the stride as unsigned. */
  method ReduceIndexF(src: seq<int>, l: Layout, dim: nat, useMin: bool, returnIndex: bool) returns (r: Result<seq<int>>)
    requires l.Valid() && dim < |l.dims| && l.start <= |src|
             && (forall i :: 0 <= i < l.Count() ==> 0 <= l.Offset(i) < |src|)
    requires Machine(src, l.strides[dim])
    ensures r == Err(EmptyTensor) <==> l.Count() == 0
    ensures r == Err(DivideByZero) <==> l.Count() > 0 && RowMajorFrom(l.dims, l.strides, 1) && l.strides[dim] == 0
    ensures r == Err(OutOfBounds) <==>
              l.Count() > 0 && !RowMajorFrom(l.dims, l.strides, 1) && l.strides[dim] < 0 && l.dims[dim] > 1
    ensures r.Err? ==> r.error in {EmptyTensor, DivideByZero, OutOfBounds}
    ensures r.Ok? ==> IsReduction(r.value, PackedCopy(src, l), l.dims, dim, useMin, returnIndex)
  {
    if l.Count() == 0 {
      return Err(EmptyTensor);
    }
    SomeOnAxis(l.dims, dim);
    OutputCount(l.dims, dim);
    var n, stride := l.dims[dim], AsUsize(l.strides[dim]);
    var dstLen, rest := DivRem(l.Count(), n);
    SameHigh(l.Count(), n, dstLen, rest, Prod(l.dims[dim := 1]), 0);
    var contiguous := IsContiguous(l);
    if contiguous {
      ContiguousBody(src, l);
      if n > 1 {
        RowMajorStride(l.dims, l.strides, 1, dim);
      }
      var out;
      if stride == 1 {
        out := OverUnitStride(Body(src, l), n, dstLen, useMin, returnIndex, l.dims, dim);
      } else if stride == 0 {
        return Err(DivideByZero);
      } else {
        out := OverStride(Body(src, l), n, stride, dstLen, useMin, returnIndex, l.dims, dim);
      }
      return Ok(out);
    }
    if n > 1 && stride >= |src| {
      StrideInside(src, l, dim);
      return Err(OutOfBounds);
    }
    var out := OverOdometer(src, l, dim, useMin, returnIndex);
    r := Ok(out);
  }

  lemma StrideInside(src: seq<int>, l: Layout, dim: nat)
    requires l.Valid() && dim < |l.dims| && l.dims[dim] > 1 && l.Count() > 0
    requires forall i :: 0 <= i < l.Count() ==> 0 <= l.Offset(i) < |src|
    ensures l.strides[dim] < |src|
  {
    OutputCount(l.dims, dim);
    NarrowedFibre(l, dim, 0, 0);
    NarrowedFibre(l, dim, 0, 1);
  }

  lemma SomeOnAxis(dims: seq<nat>, dim: nat)
    requires dim < |dims| && Prod(dims) > 0
    ensures dims[dim] > 0
  {
    var c := Unravel(dims, 0);
    assert 0 <= c[dim] < dims[dim];
  }

  /** The elements that differ from element `c` on the axis alone. */
  ghost function Line(v: seq<int>, dims: seq<nat>, dim: nat, c: seq<int>): int -> int
    requires dim < |dims| == |c|
  {
    t => At(v, Ravel(dims, c[dim := t]))
  }

  ghost predicate SameBelow(n: nat, f: int -> int, g: int -> int) { forall t :: 0 <= t < n ==> f(t) == g(t) }

  lemma LineIsFibre(v: seq<int>, dims: seq<nat>, dim: nat, c: seq<int>)
    requires dim < |dims| && InRange(dims, c)
    ensures var j := Ravel(dims[dim := 1], c[dim := 0]);
            && 0 <= j < Prod(dims[dim := 1])
            && SameBelow(dims[dim], Fibre(v, dims, dim, j), Line(v, dims, dim, c))
  {
    UnravelIs(dims[dim := 1], c[dim := 0]);
    var j := Ravel(dims[dim := 1], c[dim := 0]);
    forall t | 0 <= t < dims[dim] ensures Fibre(v, dims, dim, j)(t) == Line(v, dims, dim, c)(t) {
      assert c[dim := 0][dim := t] == c[dim := t];
    }
  }

  lemma PickMeans(out: seq<int>, v: seq<int>, dims: seq<nat>, dim: nat, j: int, useMin: bool, returnIndex: bool,
          f: int -> int)
          returns (val: int, idx: int)
    requires dim < |dims| && 0 <= j < Prod(dims[dim := 1]) && IsReduction(out, v, dims, dim, useMin, returnIndex)
    requires SameBelow(dims[dim], Fibre(v, dims, dim, j), f)
    ensures IsFirstExtremum(val, idx, dims[dim], f, useMin)
    ensures Holds(out, j, if returnIndex then idx % 0x1_0000_0000 else val)
  {
    assert IsPick(out[j], v, dims, dim, j, useMin, returnIndex);
    val, idx :| idx >= 0 && IsFirstExtremum(val, idx, dims[dim], Fibre(v, dims, dim, j), useMin)
              && out[j] == if returnIndex then idx % 0x1_0000_0000 else val;
    ExtremumExt(val, idx, dims[dim], Fibre(v, dims, dim, j), f, useMin);
  }

  /** What the outputs mean, by coordinates: along the line through `c`, the smallest value, or the
      largest, or the first place of it. */
  lemma ReductionMeans(out: seq<int>, v: seq<int>, dims: seq<nat>, dim: nat, useMin: bool, returnIndex: bool,
          c: seq<int>)
          returns (val: int, idx: int)
    requires dim < |dims| && IsReduction(out, v, dims, dim, useMin, returnIndex) && InRange(dims, c)
    ensures IsFirstExtremum(val, idx, dims[dim], Line(v, dims, dim, c), useMin)
    ensures Holds(out, Ravel(dims[dim := 1], c[dim := 0]), if returnIndex then idx % 0x1_0000_0000 else val)
  {
    LineIsFibre(v, dims, dim, c);
    var j := Ravel(dims[dim := 1], c[dim := 0]);
    val, idx := PickMeans(out, v, dims, dim, j, useMin, returnIndex, Line(v, dims, dim, c));
  }

  ghost predicate Holds(out: seq<int>, p: int, x: int) { 0 <= p < |out| && out[p] == x }

  /** A size-one axis as `unsqueeze` inserts it: contiguous, one element, and refused. */
  lemma UnsqueezedAxisFails()
    ensures var l := Layout([1], [0], 0);
            l.Valid() && l.Count() == 1 && RowMajorFrom(l.dims, l.strides, 1) && l.strides[0] == 0
  {
    Rank1([1], [0], [0]);
    assert Init([1]) == [] && Init([0]) == [];
  }
}
