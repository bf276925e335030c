/** `conv1d_dyn`: patches, one matrix product over a broadcast kernel, a transposing copy. */
module Conv1dIm2Col {
  import opened Sums
  import opened Radix
  import opened Wrappers
  import opened Layouts
  import opened StridedCopy
  import opened Tables
  import opened Conv1dSpec
  import opened Im2ColKernel
  import opened KernelProduct

  // ---------------------------------------------------------------- Im2Col1D

  ghost function Patches(g: Geometry1, x: View3): (int, int, int, int) -> int {
    (b, l, ci, t) => Padded(g, x, b, ci, Reach1(g, l, t))
  }

  ghost predicate IsIm2Col1(col: seq<int>, g: Geometry1, x: View3) {
    IsTable(col, g.batch, g.lOut, g.cIn, g.kSize, Patches(g, x))
  }

  /** Without padding every tap of every output lies in the input. */
  ghost predicate NoPadInside1(g: Geometry1) {
    g.padding == 0 ==> forall l, t :: 0 <= l < g.lOut && 0 <= t < g.kSize ==> Reach1(g, l, t) < g.lIn
  }

  lemma ParamsNoPad1(p: ParamsConv1D)
    requires p.Valid()
    ensures NoPadInside1(p.Geom())
  {
    var g := p.Geom();
    if p.padding == 0 {
      forall l, t | 0 <= l < g.lOut && 0 <= t < g.kSize ensures Reach1(g, l, t) < g.lIn {
        NoPad(p.lIn, p.kSize, p.stride, p.dilation, l, t);
      }
    }
  }

  /** One tap of one channel for one output; none where the padding is. */
  method ReadTap(g: Geometry1, x: View3, b: nat, l: nat, ci: nat, t: nat) returns (v: Option<int>)
    requires Inside3(x, g.batch, g.cIn, g.lIn) && NoPadInside1(g) && b < g.batch && l < g.lOut && ci < g.cIn
    requires t < g.kSize
    ensures Patches(g, x)(b, l, ci, t) == if v.Some? then v.value else 0
  {
    var srcL := l * g.stride + t * g.dilation;
    assert srcL == Reach1(g, l, t);
    if g.padding != 0 && (srcL < g.padding || srcL >= g.lIn + g.padding) {
      return None;
    }
    v := Some(x.data[x.Idx(b, ci, srcL - g.padding)]);
  }

  /** The taps of one channel for one output. */
  method Im2Col1DRow(g: Geometry1, x: View3, b: nat, l: nat, ci: nat, col: array<int>, ghost spec: seq<int>)
    requires Inside3(x, g.batch, g.cIn, g.lIn) && NoPadInside1(g) && IsIm2Col1(spec, g, x)
    requires b < g.batch && l < g.lOut && ci < g.cIn
    requires Filled(col[..], spec, Pos4(b, l, ci, 0, g.lOut, g.cIn, g.kSize))
    modifies col
    ensures Filled(col[..], spec, Pos4(b, l, ci, g.kSize, g.lOut, g.cIn, g.kSize))
  {
    var dstIdx := Pos4(b, l, ci, 0, g.lOut, g.cIn, g.kSize);
    for t := 0 to g.kSize
      invariant Filled(col[..], spec, dstIdx + t)
    {
      assert spec[Pos4(b, l, ci, t, g.lOut, g.cIn, g.kSize)] == Patches(g, x)(b, l, ci, t);
      var v := ReadTap(g, x, b, l, ci, t);
      if v.Some? {
        col[dstIdx + t] := v.value;
      }
    }
  }

  method Im2Col1DLoops(g: Geometry1, x: View3, col: array<int>, ghost spec: seq<int>)
    requires Inside3(x, g.batch, g.cIn, g.lIn) && NoPadInside1(g) && IsIm2Col1(spec, g, x) && Filled(col[..], spec, 0)
    modifies col
    ensures Filled(col[..], spec, Pos4(g.batch, 0, 0, 0, g.lOut, g.cIn, g.kSize))
  {
    for b := 0 to g.batch
      invariant Filled(col[..], spec, Pos4(b, 0, 0, 0, g.lOut, g.cIn, g.kSize))
    {
      for l := 0 to g.lOut
        invariant Filled(col[..], spec, Pos4(b, l, 0, 0, g.lOut, g.cIn, g.kSize))
      {
        for ci := 0 to g.cIn
          invariant Filled(col[..], spec, Pos4(b, l, ci, 0, g.lOut, g.cIn, g.kSize))
        {
          Im2Col1DRow(g, x, b, l, ci, col, spec);
          Next4(b, l, ci, g.lOut, g.cIn, g.kSize);
        }
        Next4(b, l, 0, g.lOut, g.cIn, g.kSize);
      }
      Next4(b, 0, 0, g.lOut, g.cIn, g.kSize);
    }
  }

  /** `Im2Col1D::f`. */
  method Im2Col1D(g: Geometry1, x: View3) returns (out: seq<int>)
    requires Inside3(x, g.batch, g.cIn, g.lIn) && NoPadInside1(g)
    ensures IsIm2Col1(out, g, x)
  {
    var col := new int[g.batch * g.lOut * g.cIn * g.kSize](_ => 0);
    TableIsTable(g.batch, g.lOut, g.cIn, g.kSize, Patches(g, x));
    ghost var spec := Table(g.batch, g.lOut, g.cIn, g.kSize, Patches(g, x));
    Im2Col1DLoops(g, x, col, spec);
    out := col[..];
    assert out == spec;
  }

  // ---------------------------------------------------------------- the product

  /** `kernel[start..]` is the kernel, packed row-major. */
  ghost predicate IsPackedKernel1(kernel: seq<int>, start: int, g: Geometry1, k: View3) {
    && 0 <= start && (g.cOut > 0 && g.cIn * g.kSize > 0 ==> start + g.cOut * (g.cIn * g.kSize) <= |kernel|)
    && forall co, ci, t :: 0 <= co < g.cOut && 0 <= ci < g.cIn && 0 <= t < g.kSize
         ==> At(kernel, start + co * (g.cIn * g.kSize) + (ci * g.kSize + t)) == k.Get(co, ci, t)
  }

  ghost function RowTerm1(g: Geometry1, col: seq<int>, kernel: seq<int>, start: int, b: int, l: int,
          co: int): int -> int {
    DotTerm(col, Pos(b, g.lOut, l) * (g.cIn * g.kSize), 1, kernel, start + co * (g.cIn * g.kSize), 1)
  }

  lemma TapMatches1(g: Geometry1, x: View3, k: View3, col: seq<int>, kernel: seq<int>, start: int, b: int, l: int,
          co: int, ci: int, t: int)
    requires IsIm2Col1(col, g, x) && IsPackedKernel1(kernel, start, g, k)
    requires 0 <= b < g.batch && 0 <= l < g.lOut && 0 <= co < g.cOut && 0 <= ci < g.cIn && 0 <= t < g.kSize
    ensures Tap1(g, x, k, b, co, l)(ci, t) == RowTerm1(g, col, kernel, start, b, l, co)(ci * g.kSize + t)
  {
    assert col[Pos4(b, l, ci, t, g.lOut, g.cIn, g.kSize)] == Patches(g, x)(b, l, ci, t);
    Horner3(Pos(b, g.lOut, l), ci, t, g.cIn, g.kSize);
  }

  /** One row of patches against one kernel row is one output. */
  lemma RowDotIsConv1(g: Geometry1, x: View3, k: View3, col: seq<int>, kernel: seq<int>, start: int, b: int, l: int,
          co: int)
    requires IsIm2Col1(col, g, x) && IsPackedKernel1(kernel, start, g, k) && Cell1(g, b, co, l)
    ensures DotAt(col, Pos(b, g.lOut, l) * (g.cIn * g.kSize), 1, kernel, start + co * (g.cIn * g.kSize), 1,
                  g.cIn * g.kSize)
            == Conv1At(g, x, k, b, co, l)
  {
    var f, tap := RowTerm1(g, col, kernel, start, b, l, co), Tap1(g, x, k, b, co, l);
    forall ci, t | 0 <= ci < g.cIn && 0 <= t < g.kSize ensures tap(ci, t) == f(ci * g.kSize + t) {
      TapMatches1(g, x, k, col, kernel, start, b, l, co, ci, t);
    }
    SumFlatten(g.cIn, g.kSize, f, tap);
  }

  // ---------------------------------------------------------------- from [b, l, c] to [b, c, l]

  /** `contiguous((b, l, c)).transpose(1, 2)`. */
  function ChannelsFirst1(g: Geometry1): Layout { Layout([g.batch, g.cOut, g.lOut], [g.lOut * g.cOut, 1, g.cOut], 0) }

  lemma ChannelsFirst1Offset(g: Geometry1, b: int, co: int, l: int)
    requires Cell1(g, b, co, l)
    ensures InRange(ChannelsFirst1(g).dims, [b, co, l])
    ensures Ravel(ChannelsFirst1(g).dims, [b, co, l]) == Pos3(b, co, l, g.cOut, g.lOut)
    ensures Dot([b, co, l], ChannelsFirst1(g).strides) == Pos(Pos(b, g.lOut, l), g.cOut, co)
  {
    Rank3(ChannelsFirst1(g).dims, [b, co, l], ChannelsFirst1(g).strides);
    Horner3(b, l, co, g.lOut, g.cOut);
  }

  lemma ChannelsFirst1Count(g: Geometry1)
    ensures ChannelsFirst1(g).Count() == g.batch * g.cOut * g.lOut == g.batch * g.lOut * g.cOut
  {
    Rank3(ChannelsFirst1(g).dims, [0, 0, 0], ChannelsFirst1(g).strides);
    Mul3(g.batch, g.cOut, g.lOut);
    Mul3(g.batch, g.lOut, g.cOut);
    assert g.cOut * g.lOut == g.lOut * g.cOut;
  }

  ghost predicate IsChannelsFirst1(out: seq<int>, g: Geometry1, res: seq<int>) {
    && |out| == g.batch * g.cOut * g.lOut
    && forall b, co, l :: Cell1(g, b, co, l)
         ==> 0 <= Pos3(b, co, l, g.cOut, g.lOut) < |out| && 0 <= Pos(Pos(b, g.lOut, l), g.cOut, co) < |res|
             && out[Pos3(b, co, l, g.cOut, g.lOut)] == res[Pos(Pos(b, g.lOut, l), g.cOut, co)]
  }

  lemma ChannelsFirst1Readable(g: Geometry1, i: int)
    requires 0 <= i < ChannelsFirst1(g).Count()
    ensures 0 <= Offsets(ChannelsFirst1(g))[i] < g.batch * g.lOut * g.cOut
  {
    var c := Unravel(ChannelsFirst1(g).dims, i);
    assert c == [c[0], c[1], c[2]];
    ChannelsFirst1Offset(g, c[0], c[1], c[2]);
    Pos3Bound(c[0], c[2], c[1], g.batch, g.lOut, g.cOut);
  }

  /** The transposing copy of the product into the output. */
  method ToChannelsFirst1(g: Geometry1, res: seq<int>) returns (out: seq<int>)
    requires |res| == g.batch * g.lOut * g.cOut
    ensures IsChannelsFirst1(out, g, res)
  {
    var l := ChannelsFirst1(g);
    ChannelsFirst1Count(g);
    forall i | 0 <= i < l.Count() ensures 0 <= Offsets(l)[i] < |res| {
      ChannelsFirst1Readable(g, i);
    }
    var resT := new int[|res|];
    var copied := CopyStridedSrc(res, resT, 0, l);
    out := resT[..];
    forall b, co, o | Cell1(g, b, co, o)
      ensures 0 <= Pos3(b, co, o, g.cOut, g.lOut) < |out| && 0 <= Pos(Pos(b, g.lOut, o), g.cOut, co) < |res|
              && out[Pos3(b, co, o, g.cOut, g.lOut)] == res[Pos(Pos(b, g.lOut, o), g.cOut, co)]
    {
      Pos3Bound(b, co, o, g.batch, g.cOut, g.lOut);
      Pos3Bound(b, o, co, g.batch, g.lOut, g.cOut);
      ChannelsFirst1Offset(g, b, co, o);
      UnravelIs(l.dims, [b, co, o]);
    }
  }

  /** A packed kernel: whatever its start, the result is the convolution. Without a batch
      entry the kernel is not read, but sliced all the same. */
  method Im2Col1OnPacked(g: Geometry1, x: View3, kernel: seq<int>, start: nat, numThreads: nat,
          ghost k: View3) returns (r: Result<seq<int>>)
    requires Inside3(x, g.batch, g.cIn, g.lIn) && NoPadInside1(g)
    requires g.batch > 0 ==> IsPackedKernel1(kernel, start, g, k)
    ensures if start <= |kernel| then r.Ok? && IsConv1d(r.value, g, x, k) else r == Err(OutOfBounds)
  {
    var col := Im2Col1D(g, x);
    Mul3(g.batch * g.lOut, g.cIn, g.kSize);
    r := ColTimesKernel(g.batch, g.lOut, g.cOut, g.cIn * g.kSize, col, kernel, start, numThreads);
    if r.Ok? {
      var out := ToChannelsFirst1(g, r.value);
      ProductIsConv1(g, x, k, col, kernel, start, r.value, out);
      r := Ok(out);
    }
  }

  lemma ProductIsConv1(g: Geometry1, x: View3, k: View3, col: seq<int>, kernel: seq<int>, start: int, res: seq<int>,
          out: seq<int>)
    requires IsIm2Col1(col, g, x) && (g.batch > 0 ==> IsPackedKernel1(kernel, start, g, k))
    requires IsKernelProduct(res, g.batch, g.lOut, g.cOut, g.cIn * g.kSize, col, kernel, start)
    requires IsChannelsFirst1(out, g, res)
    ensures IsConv1d(out, g, x, k)
  {
    forall b, co, l | Cell1(g, b, co, l)
      ensures 0 <= Pos3(b, co, l, g.cOut, g.lOut) < |out|
      ensures out[Pos3(b, co, l, g.cOut, g.lOut)] == Conv1At(g, x, k, b, co, l)
    {
      RowDotIsConv1(g, x, k, col, kernel, start, b, l, co);
      assert res[Pos(Pos(b, g.lOut, l), g.cOut, co)]
          == DotAt(col, Pos(b, g.lOut, l) * (g.cIn * g.kSize), 1, kernel, start + co * (g.cIn * g.kSize), 1,
                   g.cIn * g.kSize);
    }
  }

  // ---------------------------------------------------------------- the kernel buffer

  function ViewOf3(data: seq<int>, l: Layout): View3
    requires |l.strides| == 3
  {
    View3(data, l.start, l.strides[0], l.strides[1], l.strides[2])
  }

  lemma KernelTap1(g: Geometry1, kernel: seq<int>, l: Layout, co: int, ci: int, t: int)
    requires l.Valid() && l.dims == [g.cOut, g.cIn, g.kSize] && 0 <= co < g.cOut && 0 <= ci < g.cIn && 0 <= t < g.kSize
    ensures InRange(l.dims, [co, ci, t]) && Ravel(l.dims, [co, ci, t]) == co * (g.cIn * g.kSize) + (ci * g.kSize + t)
    ensures ViewOf3(kernel, l).Idx(co, ci, t) == l.start + Dot([co, ci, t], l.strides)
  {
    Rank3(l.dims, [co, ci, t], l.strides);
    Horner3(co, ci, t, g.cIn, g.kSize);
  }

  lemma ContiguousKernel1(g: Geometry1, kernel: seq<int>, l: Layout)
    requires l.Valid() && l.dims == [g.cOut, g.cIn, g.kSize] && RowMajorFrom(l.dims, l.strides, 1)
    requires Inside3(ViewOf3(kernel, l), g.cOut, g.cIn, g.kSize)
    ensures IsPackedKernel1(kernel, l.start, g, ViewOf3(kernel, l))
  {
    forall co, ci, t | 0 <= co < g.cOut && 0 <= ci < g.cIn && 0 <= t < g.kSize
      ensures ViewOf3(kernel, l).Idx(co, ci, t) == l.start + co * (g.cIn * g.kSize) + (ci * g.kSize + t)
    {
      KernelTap1(g, kernel, l, co, ci, t);
      RowMajorDot(l.dims, l.strides, 1, [co, ci, t]);
    }
    if g.cOut > 0 && g.cIn * g.kSize > 0 {
      LastTap1(g);
      assert ViewOf3(kernel, l).Idx(g.cOut - 1, g.cIn - 1, g.kSize - 1) < |kernel|;
    }
  }

  lemma LastTap1(g: Geometry1)
    requires g.cOut > 0 && g.cIn * g.kSize > 0
    ensures g.cIn > 0 && g.kSize > 0
    ensures (g.cOut - 1) * (g.cIn * g.kSize) + ((g.cIn - 1) * g.kSize + (g.kSize - 1)) == g.cOut * (g.cIn * g.kSize) - 1
  {
    Dist(g.cIn, -1, g.kSize);
    Dist(g.cOut, -1, g.cIn * g.kSize);
  }

  /** The copy that makes a kernel contiguous: packed, from index 0. */
  method PackKernel1(g: Geometry1, kernel: seq<int>, l: Layout) returns (r: Result<seq<int>>)
    requires l.Valid() && l.dims == [g.cOut, g.cIn, g.kSize]
    requires Inside3(ViewOf3(kernel, l), g.cOut, g.cIn, g.kSize)
    ensures if Unsliced(|kernel|, l) then r == Err(OutOfBounds)
            else r.Ok? && |r.value| == g.cOut * (g.cIn * g.kSize) && IsPackedKernel1(r.value, 0, g, ViewOf3(kernel, l))
  {
    Rank3(l.dims, [0, 0, 0], l.strides);
    Mul3(g.cOut, g.cIn, g.kSize);
    var kernelC := new int[l.Count()];
    forall i | 0 <= i < l.Count() ensures 0 <= Offsets(l)[i] < |kernel| {
      var c := Unravel(l.dims, i);
      assert c == [c[0], c[1], c[2]];
      KernelTap1(g, kernel, l, c[0], c[1], c[2]);
      assert 0 <= ViewOf3(kernel, l).Idx(c[0], c[1], c[2]) < |kernel|;
    }
    var copied := CopyStridedSrc(kernel, kernelC, 0, l);
    if !copied {
      return Err(OutOfBounds);
    }
    var packed := kernelC[..];
    forall co, ci, t | 0 <= co < g.cOut && 0 <= ci < g.cIn && 0 <= t < g.kSize
      ensures At(packed, co * (g.cIn * g.kSize) + (ci * g.kSize + t)) == ViewOf3(kernel, l).Get(co, ci, t)
    {
      KernelTap1(g, kernel, l, co, ci, t);
      UnravelIs(l.dims, [co, ci, t]);
      RavelBound(l.dims, [co, ci, t]);
    }
    r := Ok(packed);
  }

  // ---------------------------------------------------------------- conv1d_dyn

  /** When `conv1d_dyn` reads its kernel where it put it. */
  ghost predicate ReadsItsKernel1(p: ParamsConv1D, len: nat, kL: Layout)
    requires |kL.dims| == |kL.strides|
  {
    if RowMajorFrom(kL.dims, kL.strides, 1) then kL.start <= len
    else kL.start == 0 || (p.bSize == 0 && kL.start <= p.cOut * (p.cIn * p.kSize))
  }

  /** What `conv1d_dyn` demands of its caller. */
  ghost predicate Callable1(p: ParamsConv1D, inp: seq<int>, inpL: Layout, kernel: seq<int>, kL: Layout) {
    && p.Valid() && |inpL.strides| == 3 && Inside3(ViewOf3(inp, inpL), p.bSize, p.cIn, p.lIn)
    && kL.Valid() && kL.dims == [p.cOut, p.cIn, p.kSize] && Inside3(ViewOf3(kernel, kL), p.cOut, p.cIn, p.kSize)
  }

  /** A caller can get where it does not: two output channels cut out of a larger kernel, every
      second element from the second on. */
  lemma SlicedKernelFails1()
    ensures var p := ParamsConv1D(1, 1, 2, 1, 1, 0, 1, 1);
            var kL := Layout([2, 1, 1], [2, 1, 1], 1);
            Callable1(p, [5], Layout([1, 1, 1], [1, 1, 1], 0), [10, 20, 30, 40], kL) && !ReadsItsKernel1(p, 4, kL)
  {
    var dims, strides := [2, 1, 1], [2, 1, 1];
    assert Init(dims) == [2, 1] && Init(strides) == [2, 1] && Init([2, 1]) == [2];
  }

  /** The same convolution as `Conv1D`, unless an operand starts outside its buffer, or the kernel
      had to be packed and did not start at 0: then a slice or the product leaves a buffer, which
      is the error here. */
  method Conv1dDyn(p: ParamsConv1D, inp: seq<int>, inpL: Layout, kernel: seq<int>, kL: Layout,
          numThreads: nat) returns (r: Result<seq<int>>)
    requires Callable1(p, inp, inpL, kernel, kL)
    ensures r.Ok? <==> inpL.start <= |inp| && ReadsItsKernel1(p, |kernel|, kL)
    ensures r.Ok? ==> IsConv1d(r.value, p.Geom(), ViewOf3(inp, inpL), ViewOf3(kernel, kL))
  {
    if inpL.start > |inp| {
      return Err(OutOfBounds);
    }
    var g := p.Geom();
    ParamsNoPad1(p);
    var contiguous := IsContiguous(kL);
    if contiguous {
      ContiguousKernel1(g, kernel, kL);
      r := Im2Col1OnPacked(g, ViewOf3(inp, inpL), kernel, kL.start, numThreads, ViewOf3(kernel, kL));
      return;
    }
    NotOneBlock(kL, |kernel|);
    var copy := PackKernel1(g, kernel, kL);
    var kernelC := copy.value;
    if kL.start > |kernelC| || (p.bSize > 0 && kL.start + p.cOut * (p.cIn * p.kSize) > |kernelC|) {
      return Err(OutOfBounds);
    }
    r := Im2Col1OnPacked(g, ViewOf3(inp, inpL), kernelC, kL.start, numThreads, ViewOf3(kernel, kL));
  }
}
