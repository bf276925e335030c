/** What the convolution kernels of the CPU backend share: their parameters, the strided
    operands, and the product of two contiguous matrices. */
module Conv2dShapes {
  import opened Sums
  import opened Radix
  import opened Wrappers
  import opened Layouts
  import opened ConvSpec
  import opened Gemm
  import opened MatMul

  datatype ParamsConv2D = ParamsConv2D(
    bSize: nat, iH: nat, iW: nat, kH: nat, kW: nat, cOut: nat, cIn: nat, padding: nat, stride: nat, dilation: nat)
  {
    /** The parameters for which `out_h` and `out_w` are defined. */
    predicate Valid() {
      && stride >= 1 && kH >= 1 && kW >= 1
      && iH + 2 * padding >= dilation * (kH - 1) + 1
      && iW + 2 * padding >= dilation * (kW - 1) + 1
    }

    function OutH(): nat requires Valid() { (iH + 2 * padding - dilation * (kH - 1) - 1) / stride + 1 }
    function OutW(): nat requires Valid() { (iW + 2 * padding - dilation * (kW - 1) - 1) / stride + 1 }

    function Geom(): (g: Geometry)
      requires Valid()
      ensures g.groups == 1 && g.hOut >= 1 && g.wOut >= 1
    {
      Geometry(bSize, 1, cIn, cOut, iH, iW, kH, kW, OutH(), OutW(), stride, stride, padding, padding, dilation,
          dilation)
    }
  }

  /** A tensor of rank four read through a layout. */
  function ViewOf(data: seq<int>, l: Layout): View4
    requires |l.strides| == 4
  {
    View4(data, l.start, l.strides[0], l.strides[1], l.strides[2], l.strides[3])
  }

  /** Where the loops read element `(a, b, c, d)`. */
  function ReadPos(v: View4, a: int, b: int, c: int, d: int): int {
    v.start + a * v.s0 + b * v.s1 + c * v.s2 + d * v.s3
  }

  ghost predicate Inside(v: View4, d0: int, d1: int, d2: int, d3: int) {
    forall a, b, c, d :: 0 <= a < d0 && 0 <= b < d1 && 0 <= c < d2 && 0 <= d < d3
      ==> 0 <= ReadPos(v, a, b, c, d) < |v.data|
  }

  /** The operands have the shapes the parameters announce and lie in their buffers. */
  ghost predicate Fits(p: ParamsConv2D, inp: View4, k: View4) {
    p.Valid() && Inside(inp, p.bSize, p.cIn, p.iH, p.iW) && Inside(k, p.cOut, p.cIn, p.kH, p.kW)
  }

  // ---------------------------------------------------------------- what the parameters mean

  /** The parameters are valid if and only if windows move and the first one fits. */
  lemma ValidIff(p: ParamsConv2D)
    ensures p.Valid() <==> && p.stride > 0 && FirstWindowFits(p.iH, p.padding, p.dilation, p.kH)
                           && FirstWindowFits(p.iW, p.padding, p.dilation, p.kW)
  {}

  /** `out_h` and `out_w`: a window, dilated, for each place where it fits. */
  lemma OutputsAreWindows(p: ParamsConv2D)
    requires p.Valid()
    ensures Windows(p.Geom().hOut, p.iH, p.padding, p.dilation * (p.kH - 1) + 1, p.stride)
    ensures Windows(p.Geom().wOut, p.iW, p.padding, p.dilation * (p.kW - 1) + 1, p.stride)
  {
    WindowsFit(p.iH, p.padding, p.dilation * (p.kH - 1) + 1, p.stride);
    WindowsFit(p.iW, p.padding, p.dilation * (p.kW - 1) + 1, p.stride);
  }

  /** The element of a strided tensor at given coordinates. */
  ghost function Element(data: seq<int>, l: Layout, c: seq<int>): int
    requires |l.strides| == |c|
  {
    At(data, l.start + Dot(c, l.strides))
  }

  lemma ViewIsElement(data: seq<int>, l: Layout, a: int, b: int, c: int, d: int)
    requires |l.strides| == 4
    ensures ViewOf(data, l).Get(a, b, c, d) == Element(data, l, [a, b, c, d])
  {
    Dot4([a, b, c, d], l.strides);
  }

  /** The input under a tap: the padding lies on all sides, and holds zeros. */
  ghost function InputAt(p: ParamsConv2D, inp: seq<int>, l: Layout, b: int, c: int, iy: int, ix: int): int
    requires |l.strides| == 4
  {
    if 0 <= iy < p.iH && 0 <= ix < p.iW then Element(inp, l, [b, c, iy, ix]) else 0
  }

  lemma PatchMeans(p: ParamsConv2D, inp: seq<int>, l: Layout, b: int, c: int, oy: int, ox: int, ky: int, kx: int)
    requires p.Valid() && |l.strides| == 4
    ensures Patch(p.Geom(), ViewOf(inp, l), b, c, oy, ox, ky, kx)
            == InputAt(p, inp, l, b, c, oy * p.stride + ky * p.dilation - p.padding,
                       ox * p.stride + kx * p.dilation - p.padding)
  {
    ViewIsElement(inp, l, b, c, oy * p.stride + ky * p.dilation - p.padding,
                  ox * p.stride + kx * p.dilation - p.padding);
  }

  ghost function TermOf(p: ParamsConv2D, inp: seq<int>, inpL: Layout, k: seq<int>, kL: Layout, b: int, co: int, oy: int,
          ox: int): (int, int, int) -> int
    requires |inpL.strides| == 4 && |kL.strides| == 4
  {
    (ci, ky, kx) =>
      InputAt(p, inp, inpL, b, ci, oy * p.stride + ky * p.dilation - p.padding,
              ox * p.stride + kx * p.dilation - p.padding)
      * Element(k, kL, [co, ci, ky, kx])
  }

  /** What all three algorithms leave, from the parameters and layouts alone. */
  lemma ConvMeans(p: ParamsConv2D, inp: seq<int>, inpL: Layout, k: seq<int>, kL: Layout, out: seq<int>, hOut: nat,
          wOut: nat, b: int, co: int, oy: int, ox: int)
    requires p.Valid() && |inpL.strides| == 4 && |kL.strides| == 4
    requires IsConv(out, p.Geom(), ViewOf(inp, inpL), ViewOf(k, kL), None)
    requires Windows(hOut, p.iH, p.padding, p.dilation * (p.kH - 1) + 1, p.stride)
    requires Windows(wOut, p.iW, p.padding, p.dilation * (p.kW - 1) + 1, p.stride)
    requires 0 <= b < p.bSize && 0 <= co < p.cOut && 0 <= oy < hOut && 0 <= ox < wOut
    ensures |out| == p.bSize * p.cOut * hOut * wOut
    ensures var q := Ravel([p.bSize, p.cOut, hOut, wOut], [b, co, oy, ox]);
            && 0 <= q < |out|
            && out[q] == Sum3(p.cIn, p.kH, p.kW, TermOf(p, inp, inpL, k, kL, b, co, oy, ox))
  {
    var g := p.Geom();
    OutputsAreWindows(p);
    WindowsUnique(g.hOut, hOut, p.iH, p.padding, p.dilation * (p.kH - 1) + 1, p.stride);
    WindowsUnique(g.wOut, wOut, p.iW, p.padding, p.dilation * (p.kW - 1) + 1, p.stride);
    PixelHolds(out, g, ViewOf(inp, inpL), ViewOf(k, kL), None, b, 0, co, oy, ox);
    var tap := Tap(g, ViewOf(inp, inpL), ViewOf(k, kL), b, 0, co, oy, ox);
    var term := TermOf(p, inp, inpL, k, kL, b, co, oy, ox);
    forall ci, ky, kx ensures tap(ci, ky, kx) == term(ci, ky, kx) {
      PatchMeans(p, inp, inpL, b, ci, oy, ox, ky, kx);
      ViewIsElement(k, kL, co, ci, ky, kx);
    }
    Sum3Ext(p.cIn, p.kH, p.kW, tap, term);
  }

  // ---------------------------------------------------------------- [m, k] @ [k, n]

  lemma PlainOperands(m: nat, n: nat, k: nat, a: seq<int>, b: seq<int>)
    requires |a| == m * k && |b| == k * n
    ensures var la, lb := Layout([m, k], [k, 1], 0), Layout([k, n], [n, 1], 0);
            Shaped(1, m, n, k, la, lb) && ElementsInside(1, m, n, OperandsOf(k, a, la, b, lb), la, lb)
  {
    var la, lb := Layout([m, k], [k, 1], 0), Layout([k, n], [n, 1], 0);
    assert BatchDims(la) == [] && BatchDims(lb) == [] && BatchStrides(la) == [] && BatchStrides(lb) == [];
    var o := OperandsOf(k, a, la, b, lb);
    forall s, i, t | 0 <= s < 1 && 0 <= i < m && 0 <= t < k
      ensures 0 <= LhsIndex(Entry(o, la, lb, s), 0, i, t, 0) < |a|
    {
      assert Unravel([], s) == [];
      Bound(i, m, t, k);
    }
    forall s, j, t | 0 <= s < 1 && 0 <= j < n && 0 <= t < k
      ensures 0 <= RhsIndex(Entry(o, la, lb, s), 0, j, t, 0) < |b|
    {
      assert Unravel([], s) == [];
      Bound(t, k, j, n);
    }
  }

  /** `MatMul((1, m, n, k))` on two contiguous matrices. */
  method MatMulContiguous(m: nat, n: nat, k: nat, a: seq<int>, b: seq<int>, numThreads: nat) returns (c: seq<int>)
    requires |a| == m * k && |b| == k * n
    ensures IsProd(c, a, b, m, n, k)
  {
    var la, lb := Layout([m, k], [k, 1], 0), Layout([k, n], [n, 1], 0);
    PlainOperands(m, n, k, a, b);
    var r := MatMulF(1, m, n, k, a, la, b, lb, numThreads);
    c := r.value;
    ghost var o := OperandsOf(k, a, la, b, lb);
    forall i, j | 0 <= i < m && 0 <= j < n
      ensures 0 <= Pos(i, n, j) < |c| && c[Pos(i, n, j)] == DotAt(a, i * k, 1, b, j, n, k)
    {
      assert Unravel([], 0) == [] && BatchStrides(la) == [] && BatchStrides(lb) == [];
      assert Pos(Pos(0, m, i), n, j) == Pos(i, n, j);
      assert Entry(o, la, lb, 0) == o;
    }
  }
}
