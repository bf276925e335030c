/** `Conv2D::f`: the im2col algorithm and the choice between the three algorithms. */
module Conv2d {
  import opened Sums
  import opened Radix
  import opened Wrappers
  import opened Layouts
  import opened StridedCopy
  import opened ConvSpec
  import opened Conv2dShapes
  import opened Im2ColKernel
  import opened KernelProduct
  import Conv2dPointwise
  import Conv2dTiled

  // ---------------------------------------------------------------- the product is the convolution

  /** `kernel[start..]` is the kernel, packed row-major. */
  ghost predicate IsPackedKernel(kernel: seq<int>, start: int, g: Geometry, k: View4) {
    && 0 <= start && (g.cOutG > 0 && g.Taps() > 0 ==> start + g.cOutG * g.Taps() <= |kernel|)
    && forall co, ci, ky, kx :: 0 <= co < g.cOutG && 0 <= ci < g.cInG && 0 <= ky < g.kH && 0 <= kx < g.kW
         ==> At(kernel, start + co * g.Taps() + TapPos(g, ci, ky, kx)) == k.Get(co, ci, ky, kx)
  }

  lemma TapMatches(g: Geometry, x: View4, k: View4, col: seq<int>, kernel: seq<int>, start: int, b: int, oy: int,
          ox: int, co: int,
                   ci: int, ky: int, kx: int)
    requires IsIm2Col(col, g, x) && IsPackedKernel(kernel, start, g, k) && 0 <= co < g.cOutG
    requires ColCell(g, b, oy, ox, ci, ky, kx)
    ensures Tap(g, x, k, b, 0, co, oy, ox)(ci, ky, kx)
            == DotTerm(col, ColRow(g, b, oy, ox) * g.Taps(), 1, kernel, start + co * g.Taps(), 1)(
                 (ci * g.kH + ky) * g.kW + kx)
  {
    assert col[ColPos(g, b, oy, ox, ci, ky, kx)] == Patch(g, x, b, ci, oy, ox, ky, kx);
  }

  ghost function RowTerm(g: Geometry, col: seq<int>, kernel: seq<int>, start: int, b: int, oy: int, ox: int,
          co: int): int -> int {
    DotTerm(col, ColRow(g, b, oy, ox) * g.Taps(), 1, kernel, start + co * g.Taps(), 1)
  }

  lemma TapsMatch(g: Geometry, x: View4, k: View4, col: seq<int>, kernel: seq<int>, start: int, b: int, oy: int,
          ox: int, co: int,
                  f: int -> int, tap: (int, int, int) -> int)
    requires IsIm2Col(col, g, x) && IsPackedKernel(kernel, start, g, k)
    requires 0 <= b < g.batch && 0 <= oy < g.hOut && 0 <= ox < g.wOut && 0 <= co < g.cOutG
    requires f == RowTerm(g, col, kernel, start, b, oy, ox, co) && tap == Tap(g, x, k, b, 0, co, oy, ox)
    ensures forall ci, ky, kx :: 0 <= ci < g.cInG && 0 <= ky < g.kH && 0 <= kx < g.kW
              ==> tap(ci, ky, kx) == f((ci * g.kH + ky) * g.kW + kx)
  {
    forall ci, ky, kx | 0 <= ci < g.cInG && 0 <= ky < g.kH && 0 <= kx < g.kW
      ensures tap(ci, ky, kx) == f((ci * g.kH + ky) * g.kW + kx)
    {
      TapMatches(g, x, k, col, kernel, start, b, oy, ox, co, ci, ky, kx);
    }
  }

  /** One row of patches against one kernel row is one output pixel. */
  lemma RowDotIsConv(g: Geometry, x: View4, k: View4, col: seq<int>, kernel: seq<int>, start: int, b: int, oy: int,
          ox: int, co: int)
    requires IsIm2Col(col, g, x) && IsPackedKernel(kernel, start, g, k)
    requires 0 <= b < g.batch && 0 <= oy < g.hOut && 0 <= ox < g.wOut && 0 <= co < g.cOutG
    ensures DotAt(col, ColRow(g, b, oy, ox) * g.Taps(), 1, kernel, start + co * g.Taps(), 1, g.Taps())
            == ConvAt(g, x, k, b, 0, co, oy, ox)
  {
    var f, tap := RowTerm(g, col, kernel, start, b, oy, ox, co), Tap(g, x, k, b, 0, co, oy, ox);
    TapsMatch(g, x, k, col, kernel, start, b, oy, ox, co, f, tap);
    SumFlatten3(g.cInG, g.kH, g.kW, f, tap);
  }

  // ---------------------------------------------------------------- from [b, h, w, c] to [b, c, h, w]

  /** `contiguous((b, h, w, c)).transpose(1, 2).transpose(1, 3)`. */
  function ChannelsFirst(g: Geometry): Layout {
    Layout([g.batch, g.cOutG, g.hOut, g.wOut], [g.hOut * g.wOut * g.cOutG, 1, g.wOut * g.cOutG, g.cOutG], 0)
  }

  function ChannelsLastPos(g: Geometry, b: int, oy: int, ox: int, co: int): int {
    ((b * g.hOut + oy) * g.wOut + ox) * g.cOutG + co
  }

  lemma ChannelsFirstOffset(g: Geometry, b: int, co: int, oy: int, ox: int)
    requires g.groups == 1 && Pixel(g, b, 0, co, oy, ox)
    ensures var c := [b, co, oy, ox];
            && InRange(ChannelsFirst(g).dims, c) && Ravel(ChannelsFirst(g).dims, c) == OutPos(g, b, 0, co, oy, ox)
            && Dot(c, ChannelsFirst(g).strides) == ChannelsLastPos(g, b, oy, ox, co)
  {
    var c, l := [b, co, oy, ox], ChannelsFirst(g);
    Ravel4(l.dims, c);
    Horner3(b * g.cOutG + co, oy, ox, g.hOut, g.wOut);
    Dot4(c, l.strides);
    calc {
      ChannelsLastPos(g, b, oy, ox, co);
      { Horner3(b * g.hOut + oy, ox, co, g.wOut, g.cOutG); }
      (b * g.hOut + oy) * (g.wOut * g.cOutG) + (ox * g.cOutG + co);
      { Dist(b * g.hOut, oy, g.wOut * g.cOutG); Mul3(b * g.hOut, g.wOut, g.cOutG);
        Mul3(b, g.hOut * g.wOut, g.cOutG); Mul3(b, g.hOut, g.wOut); }
      b * (g.hOut * g.wOut * g.cOutG) + oy * (g.wOut * g.cOutG) + (ox * g.cOutG + co);
    }
  }

  lemma ChannelsFirstCount(g: Geometry)
    requires g.groups == 1
    ensures ChannelsFirst(g).Count() == OutLen(g) == ((g.batch * g.hOut) * g.wOut) * g.cOutG
  {
    Prod4(ChannelsFirst(g).dims);
    Mul3(g.batch * g.cOutG, g.hOut, g.wOut);
    calc {
      (g.batch * g.cOutG) * (g.hOut * g.wOut);
      { Mul3(g.batch, g.cOutG, g.hOut * g.wOut); assert g.cOutG * (g.hOut * g.wOut) == (g.hOut * g.wOut) * g.cOutG; }
      g.batch * ((g.hOut * g.wOut) * g.cOutG);
      { Mul3(g.batch, g.hOut * g.wOut, g.cOutG); Mul3(g.batch, g.hOut, g.wOut); }
      ((g.batch * g.hOut) * g.wOut) * g.cOutG;
    }
  }

  lemma ChannelsLastBound(g: Geometry, b: int, oy: int, ox: int, co: int)
    requires Pixel(g, b, 0, co, oy, ox)
    ensures 0 <= ChannelsLastPos(g, b, oy, ox, co) < ((g.batch * g.hOut) * g.wOut) * g.cOutG
  {
    Bound(b, g.batch, oy, g.hOut);
    Bound(b * g.hOut + oy, g.batch * g.hOut, ox, g.wOut);
    Bound((b * g.hOut + oy) * g.wOut + ox, (g.batch * g.hOut) * g.wOut, co, g.cOutG);
  }

  lemma ChannelsFirstAt(g: Geometry, i: int) returns (b: int, co: int, oy: int, ox: int)
    requires g.groups == 1 && 0 <= i < ChannelsFirst(g).Count()
    ensures Pixel(g, b, 0, co, oy, ox) && i == OutPos(g, b, 0, co, oy, ox)
    ensures Offsets(ChannelsFirst(g))[i] == ChannelsLastPos(g, b, oy, ox, co)
  {
    var l := ChannelsFirst(g);
    var c := Unravel(l.dims, i);
    b, co, oy, ox := c[0], c[1], c[2], c[3];
    assert c == [b, co, oy, ox];
    ChannelsFirstOffset(g, b, co, oy, ox);
  }

  ghost predicate IsChannelsFirst(out: seq<int>, g: Geometry, res: seq<int>) {
    && |out| == OutLen(g)
    && forall b, co, oy, ox :: Pixel(g, b, 0, co, oy, ox)
         ==> 0 <= OutPos(g, b, 0, co, oy, ox) < |out| && 0 <= ChannelsLastPos(g, b, oy, ox, co) < |res|
             && out[OutPos(g, b, 0, co, oy, ox)] == res[ChannelsLastPos(g, b, oy, ox, co)]
  }

  /** The transposing copy of the product into the output. */
  method ToChannelsFirst(g: Geometry, res: seq<int>) returns (out: seq<int>)
    requires g.groups == 1 && |res| == ((g.batch * g.hOut) * g.wOut) * g.cOutG
    ensures IsChannelsFirst(out, g, res)
  {
    var l := ChannelsFirst(g);
    ChannelsFirstCount(g);
    forall i | 0 <= i < l.Count() ensures 0 <= Offsets(l)[i] < |res| {
      var b, co, oy, ox := ChannelsFirstAt(g, i);
      ChannelsLastBound(g, b, oy, ox, co);
    }
    var resT := new int[|res|];
    var copied := CopyStridedSrc(res, resT, 0, l);
    out := resT[..];
    forall b, co, oy, ox | Pixel(g, b, 0, co, oy, ox)
      ensures 0 <= OutPos(g, b, 0, co, oy, ox) < |out| && 0 <= ChannelsLastPos(g, b, oy, ox, co) < |res|
              && out[OutPos(g, b, 0, co, oy, ox)] == res[ChannelsLastPos(g, b, oy, ox, co)]
    {
      OutPosBound(g, b, 0, co, oy, ox);
      ChannelsFirstOffset(g, b, co, oy, ox);
      UnravelIs(l.dims, [b, co, oy, ox]);
      ChannelsLastBound(g, b, oy, ox, co);
    }
  }

  // ---------------------------------------------------------------- the kernel buffer

  /** Tap `(co, ci, ky, kx)` in row-major order. */
  lemma KernelOrder(g: Geometry, dims: seq<nat>, co: int, ci: int, ky: int, kx: int)
    requires dims == [g.cOutG, g.cInG, g.kH, g.kW] && 0 <= co < g.cOutG && 0 <= ci < g.cInG && 0 <= ky < g.kH
    requires 0 <= kx < g.kW
    ensures InRange(dims, [co, ci, ky, kx]) && Ravel(dims, [co, ci, ky, kx]) == co * g.Taps() + TapPos(g, ci, ky, kx)
  {
    Ravel4(dims, [co, ci, ky, kx]);
    Dist(co * g.cInG, ci, g.kH);
    Mul3(co, g.cInG, g.kH);
    Dist(co * (g.cInG * g.kH), ci * g.kH + ky, g.kW);
    Mul3(co, g.cInG * g.kH, g.kW);
  }

  lemma KernelCount(g: Geometry, dims: seq<nat>)
    requires dims == [g.cOutG, g.cInG, g.kH, g.kW]
    ensures Prod(dims) == g.cOutG * g.Taps()
  {
    Prod4(dims);
    Mul3(g.cOutG, g.cInG, g.kH);
    Mul3(g.cOutG, g.cInG * g.kH, g.kW);
  }

  lemma ViewReads(data: seq<int>, l: Layout, c: seq<int>)
    requires |l.strides| == 4 && |c| == 4
    ensures ReadPos(ViewOf(data, l), c[0], c[1], c[2], c[3]) == l.start + Dot(c, l.strides)
  {
    Dot4(c, l.strides);
  }

  lemma LastTap(g: Geometry)
    requires g.cOutG > 0 && g.Taps() > 0
    ensures g.cInG > 0 && g.kH > 0 && g.kW > 0
    ensures (g.cOutG - 1) * g.Taps() + TapPos(g, g.cInG - 1, g.kH - 1, g.kW - 1) == g.cOutG * g.Taps() - 1
  {
    Dist(g.cInG, -1, g.kH);
    Dist(g.cInG * g.kH, -1, g.kW);
    Dist(g.cOutG, -1, g.Taps());
  }

  lemma ContiguousTap(g: Geometry, kernel: seq<int>, l: Layout, co: int, ci: int, ky: int, kx: int)
    requires l.Valid() && l.dims == [g.cOutG, g.cInG, g.kH, g.kW] && RowMajorFrom(l.dims, l.strides, 1)
    requires 0 <= co < g.cOutG && 0 <= ci < g.cInG && 0 <= ky < g.kH && 0 <= kx < g.kW
    ensures ReadPos(ViewOf(kernel, l), co, ci, ky, kx) == l.start + co * g.Taps() + TapPos(g, ci, ky, kx)
  {
    var c := [co, ci, ky, kx];
    KernelOrder(g, l.dims, co, ci, ky, kx);
    RowMajorDot(l.dims, l.strides, 1, c);
    ViewReads(kernel, l, c);
  }

  lemma ContiguousEnd(g: Geometry, kernel: seq<int>, l: Layout)
    requires l.Valid() && l.dims == [g.cOutG, g.cInG, g.kH, g.kW] && RowMajorFrom(l.dims, l.strides, 1)
    requires Inside(ViewOf(kernel, l), g.cOutG, g.cInG, g.kH, g.kW)
    ensures g.cOutG > 0 && g.Taps() > 0 ==> l.start + g.cOutG * g.Taps() <= |kernel|
  {
    if g.cOutG > 0 && g.Taps() > 0 {
      LastTap(g);
      ContiguousTap(g, kernel, l, g.cOutG - 1, g.cInG - 1, g.kH - 1, g.kW - 1);
      assert ReadPos(ViewOf(kernel, l), g.cOutG - 1, g.cInG - 1, g.kH - 1, g.kW - 1) < |kernel|;
    }
  }

  lemma ContiguousKernel(g: Geometry, kernel: seq<int>, l: Layout)
    requires l.Valid() && l.dims == [g.cOutG, g.cInG, g.kH, g.kW] && RowMajorFrom(l.dims, l.strides, 1)
    requires Inside(ViewOf(kernel, l), g.cOutG, g.cInG, g.kH, g.kW)
    ensures IsPackedKernel(kernel, l.start, g, ViewOf(kernel, l))
  {
    ContiguousEnd(g, kernel, l);
    forall co, ci, ky, kx | 0 <= co < g.cOutG && 0 <= ci < g.cInG && 0 <= ky < g.kH && 0 <= kx < g.kW
      ensures At(kernel, l.start + co * g.Taps() + TapPos(g, ci, ky, kx)) == ViewOf(kernel, l).Get(co, ci, ky, kx)
    {
      ContiguousTap(g, kernel, l, co, ci, ky, kx);
    }
  }

  /** `copy_strided_src_` into a buffer of its own makes any kernel packed, from index 0. */
  method PackKernel(g: Geometry, kernel: seq<int>, l: Layout) returns (r: Result<seq<int>>)
    requires l.Valid() && l.dims == [g.cOutG, g.cInG, g.kH, g.kW]
    requires Inside(ViewOf(kernel, l), g.cOutG, g.cInG, g.kH, g.kW)
    ensures if Unsliced(|kernel|, l) then r == Err(OutOfBounds)
            else r.Ok? && |r.value| == g.cOutG * g.Taps() && IsPackedKernel(r.value, 0, g, ViewOf(kernel, l))
  {
    KernelCount(g, l.dims);
    var kernelC := new int[l.Count()];
    forall i | 0 <= i < l.Count() ensures 0 <= Offsets(l)[i] < |kernel| {
      var c := Unravel(l.dims, i);
      ViewReads(kernel, l, c);
      assert 0 <= ReadPos(ViewOf(kernel, l), c[0], c[1], c[2], c[3]) < |kernel|;
    }
    var copied := CopyStridedSrc(kernel, kernelC, 0, l);
    if !copied {
      return Err(OutOfBounds);
    }
    var packed := kernelC[..];
    forall co, ci, ky, kx | 0 <= co < g.cOutG && 0 <= ci < g.cInG && 0 <= ky < g.kH && 0 <= kx < g.kW
      ensures At(packed, co * g.Taps() + TapPos(g, ci, ky, kx)) == ViewOf(kernel, l).Get(co, ci, ky, kx)
    {
      var c := [co, ci, ky, kx];
      KernelOrder(g, l.dims, co, ci, ky, kx);
      UnravelIs(l.dims, c);
      RavelBound(l.dims, c);
      ViewReads(kernel, l, c);
    }
    r := Ok(packed);
  }

  // ---------------------------------------------------------------- im2col, product, transpose

  /** A packed kernel: whatever its start, the result is the convolution. Without a batch
      entry the kernel is not read, but sliced all the same. */
  method Im2ColOnPacked(g: Geometry, x: View4, kernel: seq<int>, start: nat, numThreads: nat, ghost k: View4)
          returns (r: Result<seq<int>>)
    requires g.groups == 1 && Inside(x, g.batch, g.cInG, g.h, g.w) && NoPadInside(g)
    requires g.batch > 0 ==> IsPackedKernel(kernel, start, g, k)
    ensures if start <= |kernel| then r.Ok? && IsConv(r.value, g, x, k, None) else r == Err(OutOfBounds)
  {
    var col := Im2Col(g, x);
    assert |col| == g.batch * (g.hOut * g.wOut) * (g.kH * g.kW * g.cInG) && g.Taps() == g.kH * g.kW * g.cInG by {
      Mul3(g.batch, g.hOut, g.wOut);
      Mul3(g.cInG, g.kH, g.kW);
    }
    r := ColTimesKernel(g.batch, g.hOut * g.wOut, g.cOutG, g.kH * g.kW * g.cInG, col, kernel, start, numThreads);
    if r.Ok? {
      var res := r.value;
      assert |res| == ((g.batch * g.hOut) * g.wOut) * g.cOutG by { Mul3(g.batch, g.hOut, g.wOut); }
      var out := ToChannelsFirst(g, res);
      ProductIsConv(g, x, k, col, kernel, start, res, out);
      r := Ok(out);
    }
  }

  /** Row `oy * wOut + ox` of entry `b` is the row of pixel `(b, oy, ox)`. */
  lemma RowOfPixel(g: Geometry, b: int, oy: int, ox: int)
    requires 0 <= oy < g.hOut && 0 <= ox < g.wOut
    ensures 0 <= oy * g.wOut + ox < g.hOut * g.wOut
    ensures Pos(b, g.hOut * g.wOut, oy * g.wOut + ox) == ColRow(g, b, oy, ox)
  {
    Bound(oy, g.hOut, ox, g.wOut);
    Horner3(b, oy, ox, g.hOut, g.wOut);
  }

  lemma ProductIsConv(g: Geometry, x: View4, k: View4, col: seq<int>, kernel: seq<int>, start: int, res: seq<int>,
          out: seq<int>)
    requires g.groups == 1 && IsIm2Col(col, g, x) && (g.batch > 0 ==> IsPackedKernel(kernel, start, g, k))
    requires IsKernelProduct(res, g.batch, g.hOut * g.wOut, g.cOutG, g.Taps(), col, kernel, start)
    requires IsChannelsFirst(out, g, res)
    ensures IsConv(out, g, x, k, None)
  {
    forall b, q, co, oy, ox | Pixel(g, b, q, co, oy, ox)
      ensures 0 <= OutPos(g, b, q, co, oy, ox) < |out|
      ensures out[OutPos(g, b, q, co, oy, ox)] == BiasedAt(g, x, k, None, b, q, co, oy, ox)
    {
      RowOfPixel(g, b, oy, ox);
      RowDotIsConv(g, x, k, col, kernel, start, b, oy, ox, co);
      assert Pos(Pos(b, g.hOut * g.wOut, oy * g.wOut + ox), g.cOutG, co) == ChannelsLastPos(g, b, oy, ox, co);
    }
  }

  /** When `conv2d_im2col_gemm` reads its kernel where it put it: a kernel that had to be
      packed lies at 0 in the new buffer, but is read at the start of the old one. */
  ghost predicate ReadsItsKernel(p: ParamsConv2D, len: nat, kL: Layout)
    requires |kL.dims| == |kL.strides|
  {
    if RowMajorFrom(kL.dims, kL.strides, 1) then kL.start <= len
    else kL.start == 0 || (p.bSize == 0 && kL.start <= p.cOut * (p.cIn * p.kH * p.kW))
  }

  ghost predicate Callable(p: ParamsConv2D, inp: seq<int>, inpL: Layout, k: seq<int>, kL: Layout) {
    && |inpL.strides| == 4
    && kL.Valid() && kL.dims == [p.cOut, p.cIn, p.kH, p.kW]
    && Fits(p, ViewOf(inp, inpL), ViewOf(k, kL))
  }

  /** A caller can get where it does not: two output channels cut out of a larger kernel, every
      second element from the second on. */
  lemma SlicedKernelFails()
    ensures var p := ParamsConv2D(1, 1, 1, 1, 1, 2, 1, 0, 2, 1);
            var kL := Layout([2, 1, 1, 1], [2, 1, 1, 1], 1);
            Callable(p, [5], Layout([1, 1, 1, 1], [1, 1, 1, 1], 0), [10, 20, 30, 40], kL) && !ReadsItsKernel(p, 4, kL)
  {
    var dims, strides := [2, 1, 1, 1], [2, 1, 1, 1];
    assert Init(dims) == [2, 1, 1] && Init(strides) == [2, 1, 1];
    assert Init([2, 1, 1]) == [2, 1] && Init([2, 1]) == [2];
  }

  /** `conv2d_im2col_gemm`. Slicing or multiplying leaves a buffer, which is the error here,
      exactly when an operand starts outside its own, or the kernel had to be copied and did not
      start at 0. */
  method Conv2dIm2ColGemm(p: ParamsConv2D, inp: seq<int>, inpL: Layout, k: seq<int>, kL: Layout, numThreads: nat)
    returns (r: Result<seq<int>>)
    requires Callable(p, inp, inpL, k, kL)
    ensures r.Ok? <==> inpL.start <= |inp| && ReadsItsKernel(p, |k|, kL)
    ensures r.Ok? ==> IsConv(r.value, p.Geom(), ViewOf(inp, inpL), ViewOf(k, kL), None)
  {
    if inpL.start > |inp| {
      return Err(OutOfBounds);
    }
    var g := p.Geom();
    ParamsNoPad(p);
    var contiguous := IsContiguous(kL);
    if contiguous {
      ContiguousKernel(g, k, kL);
      r := Im2ColOnPacked(g, ViewOf(inp, inpL), k, kL.start, numThreads, ViewOf(k, kL));
      return;
    }
    NotOneBlock(kL, |k|);
    var copy := PackKernel(g, k, kL);
    var kernelC := copy.value;
    if kL.start > |kernelC| || (p.bSize > 0 && kL.start + p.cOut * (p.cIn * p.kH * p.kW) > |kernelC|) {
      return Err(OutOfBounds);
    }
    r := Im2ColOnPacked(g, ViewOf(inp, inpL), kernelC, kL.start, numThreads, ViewOf(k, kL));
  }

  /** `Conv2D::f`: whichever algorithm is chosen, the same convolution. All three fail on an operand
      that starts outside its buffer; the other failure is that of the im2col algorithm, so it
      concerns 1x1 kernels with a stride, padding or dilation. */
  method Conv2D(p: ParamsConv2D, inp: seq<int>, inpL: Layout, k: seq<int>, kL: Layout, numThreads: nat)
          returns (r: Result<seq<int>>)
    requires Callable(p, inp, inpL, k, kL)
    ensures r.Ok? <==>
              && inpL.start <= |inp|
              && (if p.kH == 1 && p.kW == 1 && !(p.stride == 1 && p.padding == 0 && p.dilation == 1)
                  then ReadsItsKernel(p, |k|, kL) else kL.start <= |k|)
    ensures r.Ok? ==> IsConv(r.value, p.Geom(), ViewOf(inp, inpL), ViewOf(k, kL), None)
  {
    if p.kH == 1 && p.kW == 1 && p.stride == 1 && p.padding == 0 && p.dilation == 1 {
      r := Conv2dPointwise.Conv2d1x1(p.Geom(), ViewOf(inp, inpL), ViewOf(k, kL), numThreads);
    } else if p.kH == 1 && p.kW == 1 {
      r := Conv2dIm2ColGemm(p, inp, inpL, k, kL, numThreads);
    } else {
      r := Conv2dTiled.Conv2dTiled(p, inp, inpL, k, kL, numThreads);
    }
  }
}
