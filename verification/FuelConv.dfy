/** `fuel-conv`: the nested-loop convolution every backend is compared with, the im2col
    rearrangement, and convolution by a caller-supplied matrix product. */
module FuelConv {
  import opened Sums
  import opened Radix
  import opened Wrappers
  import opened Layouts
  import opened ConvSpec
  import opened Gemm

  datatype Validation = Accepted | Rejected(message: string)

  datatype ConvShape = ConvShape(
    batch: nat, cIn: nat, cOut: nat, h: nat, w: nat, kH: nat, kW: nat,
    stride: (nat, nat), padding: (nat, nat), groups: nat)
  {
    /** Reports the first defect of the descriptor. */
    function Validate(): Validation {
      if groups == 0 then Rejected("groups must be >= 1")
      else if cIn % groups != 0 then Rejected("c_in must be divisible by groups")
      else if cOut % groups != 0 then Rejected("c_out must be divisible by groups")
      else if stride.0 == 0 || stride.1 == 0 then Rejected("stride components must be >= 1")
      else if kH == 0 || kW == 0 then Rejected("kernel dimensions must be >= 1")
      else if h + 2 * padding.0 < kH then Rejected("kernel taller than padded input")
      else if w + 2 * padding.1 < kW then Rejected("kernel wider than padded input")
      else Accepted
    }

    /** The loop bounds a kernel computes before its loops. */
    function Geom(): (g: Geometry)
      requires Validate().Accepted?
      ensures g.CIn() == cIn && g.COut() == cOut && g.hOut >= 1 && g.wOut >= 1
    {
      Geometry(batch, groups, cIn / groups, cOut / groups, h, w, kH, kW,
               (h + 2 * padding.0 - kH) / stride.0 + 1, (w + 2 * padding.1 - kW) / stride.1 + 1,
               stride.0, stride.1, padding.0, padding.1, 1, 1)
    }
  }

  /** The buffer sizes the kernels assert on entry. */
  ghost predicate Fits(g: Geometry, x: seq<int>, weight: seq<int>) {
    && |x| == g.batch * g.CIn() * g.h * g.w
    && |weight| == g.COut() * g.cInG * g.kH * g.kW
    && g.dilH == 1 && g.dilW == 1
  }

  ghost function XView(g: Geometry, x: seq<int>): View4 { RowMajor4(x, g.CIn(), g.h, g.w) }
  ghost function WView(g: Geometry, weight: seq<int>): View4 { RowMajor4(weight, g.cInG, g.kH, g.kW) }

  // ---------------------------------------------------------------- what a descriptor means

  /** The defects of a descriptor, in the order in which they are looked for. */
  ghost function Defects(s: ConvShape): seq<(bool, string)> {
    [(s.groups < 1, "groups must be >= 1"),
     (!IsMultiple(s.cIn, s.groups, 0), "c_in must be divisible by groups"),
     (!IsMultiple(s.cOut, s.groups, 0), "c_out must be divisible by groups"),
     (s.stride.0 < 1 || s.stride.1 < 1, "stride components must be >= 1"),
     (s.kH < 1 || s.kW < 1, "kernel dimensions must be >= 1"),
     (s.padding.0 + s.h + s.padding.0 < s.kH, "kernel taller than padded input"),
     (s.padding.1 + s.w + s.padding.1 < s.kW, "kernel wider than padded input")]
  }

  lemma DivisibleIff(n: nat, d: nat)
    requires d > 0
    ensures n % d == 0 <==> IsMultiple(n, d, 0)
  {
    if n % d == 0 {
      assert n / d >= 0 && n == Pos(n / d, d, 0);
    } else if q :| q >= 0 && n == Pos(q, d, 0) {
      Euclid(q, 0, d);
    }
  }

  /** The first defect is reported, and a descriptor without one is accepted. */
  lemma FirstDefect(s: ConvShape)
    ensures match s.Validate()
            case Accepted => forall k :: 0 <= k < 7 ==> !Defects(s)[k].0
            case Rejected(message) =>
              exists k :: 0 <= k < 7 && Defects(s)[k] == (true, message) && forall j :: 0 <= j < k ==> !Defects(s)[j].0
  {
    if s.groups > 0 {
      DivisibleIff(s.cIn, s.groups);
      DivisibleIff(s.cOut, s.groups);
    }
    var d, v := Defects(s), s.Validate();
    if v.Rejected? {
      var k := if d[0].0 then 0 else if d[1].0 then 1 else if d[2].0 then 2 else if d[3].0 then 3
               else if d[4].0 then 4 else if d[5].0 then 5 else 6;
      assert d[k] == (true, v.message);
    }
  }

  /** The output has a row for each place of the kernel that fits, and a column likewise. */
  lemma OutputsAreWindows(s: ConvShape)
    requires s.Validate().Accepted?
    ensures Windows(s.Geom().hOut, s.h, s.padding.0, s.kH, s.stride.0)
    ensures Windows(s.Geom().wOut, s.w, s.padding.1, s.kW, s.stride.1)
  {
    WindowsFit(s.h, s.padding.0, s.kH, s.stride.0);
    WindowsFit(s.w, s.padding.1, s.kW, s.stride.1);
  }

  /** An element of the input `[batch, cIn, h, w]`, zero outside it. */
  ghost function InputAt(s: ConvShape, x: seq<int>, ni: int, c: int, iy: int, ix: int): int {
    if 0 <= iy < s.h && 0 <= ix < s.w then At(x, Ravel([s.batch, s.cIn, s.h, s.w], [ni, c, iy, ix])) else 0
  }

  /** The loops of `g` are those that the descriptor asks for, but for the number of outputs. */
  ghost predicate Describes(s: ConvShape, g: Geometry) {
    && g.batch == s.batch && g.groups == s.groups && g.CIn() == s.cIn && g.COut() == s.cOut
    && g.h == s.h && g.w == s.w && g.kH == s.kH && g.kW == s.kW
    && g.strideH == s.stride.0 && g.strideW == s.stride.1 && g.padH == s.padding.0 && g.padW == s.padding.1
    && g.dilH == 1 && g.dilW == 1
  }

  lemma PatchOf(s: ConvShape, g: Geometry, x: seq<int>, ni: int, c: int, oh: int, ow: int, ky: int, kx: int)
    requires Describes(s, g)
    ensures Patch(g, XView(g, x), ni, c, oh, ow, ky, kx)
            == InputAt(s, x, ni, c, oh * s.stride.0 + ky - s.padding.0, ow * s.stride.1 + kx - s.padding.1)
  {
    RowMajor4IsRavel(x, s.batch, s.cIn, s.h, s.w, ni, c, oh * s.stride.0 + ky - s.padding.0,
                     ow * s.stride.1 + kx - s.padding.1);
  }

  /** What the descriptor asks of tap `(ky, kx)` at output pixel `(oh, ow)`. */
  lemma PatchMeans(s: ConvShape, x: seq<int>, ni: int, c: int, oh: int, ow: int, ky: int, kx: int)
    requires s.Validate().Accepted?
    ensures Patch(s.Geom(), XView(s.Geom(), x), ni, c, oh, ow, ky, kx)
            == InputAt(s, x, ni, c, oh * s.stride.0 + ky - s.padding.0, ow * s.stride.1 + kx - s.padding.1)
  {
    PatchOf(s, s.Geom(), x, ni, c, oh, ow, ky, kx);
  }

  /** An element of the weights `[cOut, inG, kH, kW]`. */
  ghost function WeightAt(s: ConvShape, weight: seq<int>, inG: nat, co: int, ci: int, ky: int, kx: int): int {
    At(weight, Ravel([s.cOut, inG, s.kH, s.kW], [co, ci, ky, kx]))
  }

  lemma WeightOf(s: ConvShape, g: Geometry, weight: seq<int>, co: int, ci: int, ky: int, kx: int)
    requires Describes(s, g)
    ensures WView(g, weight).Get(co, ci, ky, kx) == WeightAt(s, weight, g.cInG, co, ci, ky, kx)
  {
    RowMajor4IsRavel(weight, s.cOut, g.cInG, s.kH, s.kW, co, ci, ky, kx);
  }

  /** One term of an output: group `gi` has `inG` input and `outG` output channels. */
  ghost function TermOf(s: ConvShape, x: seq<int>, weight: seq<int>, inG: nat, outG: nat, ni: int, gi: int, coi: int,
          oh: int, ow: int): (int, int, int) -> int {
    (ci, ky, kx) =>
      InputAt(s, x, ni, gi * inG + ci, oh * s.stride.0 + ky - s.padding.0, ow * s.stride.1 + kx - s.padding.1)
      * WeightAt(s, weight, inG, gi * outG + coi, ci, ky, kx)
  }

  /** The channels of a group, and the windows, for which a descriptor leaves no choice. */
  ghost predicate Sized(s: ConvShape, inG: nat, outG: nat, hOut: nat, wOut: nat) {
    && s.cIn == s.groups * inG && s.cOut == s.groups * outG
    && Windows(hOut, s.h, s.padding.0, s.kH, s.stride.0) && Windows(wOut, s.w, s.padding.1, s.kW, s.stride.1)
  }

  lemma GeomIsSized(s: ConvShape, inG: nat, outG: nat, hOut: nat, wOut: nat)
    requires s.Validate().Accepted? && Sized(s, inG, outG, hOut, wOut)
    ensures var g := s.Geom();
            Describes(s, g) && g.cInG == inG && g.cOutG == outG && g.hOut == hOut && g.wOut == wOut
  {
    var g := s.Geom();
    OutputsAreWindows(s);
    WindowsUnique(g.hOut, hOut, s.h, s.padding.0, s.kH, s.stride.0);
    WindowsUnique(g.wOut, wOut, s.w, s.padding.1, s.kW, s.stride.1);
    SameFactor(s.groups, g.cInG, inG);
    SameFactor(s.groups, g.cOutG, outG);
  }

  lemma SameFactor(n: nat, a: nat, b: nat)
    requires n > 0 && n * a == n * b
    ensures a == b
  {
    Euclid(a, 0, n);
    Euclid(b, 0, n);
  }

  lemma TapMeans(s: ConvShape, g: Geometry, x: seq<int>, weight: seq<int>, ni: int, gi: int, coi: int, oh: int, ow: int,
          ci: int, ky: int, kx: int)
    requires Describes(s, g)
    ensures PixelTap(g, x, weight, ni, gi, coi, oh, ow)(ci, ky, kx)
            == TermOf(s, x, weight, g.cInG, g.cOutG, ni, gi, coi, oh, ow)(ci, ky, kx)
  {
    var v := Patch(g, XView(g, x), ni, gi * g.cInG + ci, oh, ow, ky, kx);
    var w := WView(g, weight).Get(gi * g.cOutG + coi, ci, ky, kx);
    TapIs(g, x, weight, ni, gi, coi, oh, ow, ci, ky, kx, v, w);
    TermIs(s, x, weight, g.cInG, g.cOutG, ni, gi, coi, oh, ow, ci, ky, kx, v, w) by {
      PatchOf(s, g, x, ni, gi * g.cInG + ci, oh, ow, ky, kx);
      WeightOf(s, g, weight, gi * g.cOutG + coi, ci, ky, kx);
    }
  }

  lemma TapIs(g: Geometry, x: seq<int>, weight: seq<int>, ni: int, gi: int, coi: int, oh: int, ow: int, ci: int,
          ky: int, kx: int, v: int, w: int)
    requires v == Patch(g, XView(g, x), ni, gi * g.cInG + ci, oh, ow, ky, kx)
    requires w == WView(g, weight).Get(gi * g.cOutG + coi, ci, ky, kx)
    ensures PixelTap(g, x, weight, ni, gi, coi, oh, ow)(ci, ky, kx) == v * w
  {}

  lemma TermIs(s: ConvShape, x: seq<int>, weight: seq<int>, inG: nat, outG: nat, ni: int, gi: int, coi: int, oh: int,
          ow: int, ci: int, ky: int, kx: int, v: int, w: int)
    requires v == InputAt(s, x, ni, gi * inG + ci, oh * s.stride.0 + ky - s.padding.0,
                          ow * s.stride.1 + kx - s.padding.1)
    requires w == WeightAt(s, weight, inG, gi * outG + coi, ci, ky, kx)
    ensures TermOf(s, x, weight, inG, outG, ni, gi, coi, oh, ow)(ci, ky, kx) == v * w
  {}

  lemma SumMeans(s: ConvShape, g: Geometry, x: seq<int>, weight: seq<int>, ni: int, gi: int, coi: int, oh: int, ow: int)
    requires Describes(s, g)
    ensures ConvAt(g, XView(g, x), WView(g, weight), ni, gi, coi, oh, ow)
            == Sum3(g.cInG, s.kH, s.kW, TermOf(s, x, weight, g.cInG, g.cOutG, ni, gi, coi, oh, ow))
  {
    var tap := PixelTap(g, x, weight, ni, gi, coi, oh, ow);
    var term := TermOf(s, x, weight, g.cInG, g.cOutG, ni, gi, coi, oh, ow);
    forall ci, ky, kx ensures tap(ci, ky, kx) == term(ci, ky, kx) {
      TapMeans(s, g, x, weight, ni, gi, coi, oh, ow, ci, ky, kx);
    }
    Sum3Ext(g.cInG, s.kH, s.kW, tap, term);
  }

  /** The output is `[batch, cOut, hOut, wOut]`, and each pixel is the sum of its terms and its bias. */
  ghost predicate IsOutput(out: seq<int>, s: ConvShape, x: seq<int>, weight: seq<int>, bias: Option<seq<int>>, inG: nat,
          outG: nat, hOut: nat, wOut: nat) {
    && |out| == s.batch * s.cOut * hOut * wOut
    && forall ni, gi, coi, oh, ow ::
         0 <= ni < s.batch && 0 <= gi < s.groups && 0 <= coi < outG && 0 <= oh < hOut && 0 <= ow < wOut
         ==> Holds(out, Ravel([s.batch, s.cOut, hOut, wOut], [ni, gi * outG + coi, oh, ow]),
                   Sum3(inG, s.kH, s.kW, TermOf(s, x, weight, inG, outG, ni, gi, coi, oh, ow))
                   + (if bias.Some? then At(bias.value, gi * outG + coi) else 0))
  }

  /** What the kernels leave, from the descriptor alone. */
  lemma ConvMeans(s: ConvShape, x: seq<int>, weight: seq<int>, bias: Option<seq<int>>, out: seq<int>, inG: nat,
          outG: nat, hOut: nat, wOut: nat)
    requires s.Validate().Accepted? && Sized(s, inG, outG, hOut, wOut)
    requires IsConv(out, s.Geom(), XView(s.Geom(), x), WView(s.Geom(), weight), bias)
    ensures IsOutput(out, s, x, weight, bias, inG, outG, hOut, wOut)
  {
    GeomIsSized(s, inG, outG, hOut, wOut);
    GeometryMeans(s, s.Geom(), x, weight, bias, out);
  }

  lemma GeometryMeans(s: ConvShape, g: Geometry, x: seq<int>, weight: seq<int>, bias: Option<seq<int>>, out: seq<int>)
    requires Describes(s, g) && IsConv(out, g, XView(g, x), WView(g, weight), bias)
    ensures IsOutput(out, s, x, weight, bias, g.cInG, g.cOutG, g.hOut, g.wOut)
  {
    OutLenIsProd(g);
    forall ni, gi, coi, oh, ow | 0 <= ni < s.batch && 0 <= gi < s.groups && 0 <= coi < g.cOutG && 0 <= oh < g.hOut
                                 && 0 <= ow < g.wOut
      ensures Holds(out, Ravel([s.batch, s.cOut, g.hOut, g.wOut], [ni, gi * g.cOutG + coi, oh, ow]),
                    Sum3(g.cInG, s.kH, s.kW, TermOf(s, x, weight, g.cInG, g.cOutG, ni, gi, coi, oh, ow))
                    + (if bias.Some? then At(bias.value, gi * g.cOutG + coi) else 0))
    {
      SumMeans(s, g, x, weight, ni, gi, coi, oh, ow);
      PixelHolds(out, g, XView(g, x), WView(g, weight), bias, ni, gi, coi, oh, ow);
    }
  }

  /** Two rows of stride two over three: the second row starts at the third element. */
  lemma RowStrideMovesRows(s: ConvShape, x: seq<int>)
    requires s == ConvShape(1, 1, 1, 3, 1, 1, 1, (2, 1), (0, 0), 1) && x == [1, 2, 3]
    ensures s.Validate().Accepted? && s.Geom().hOut == 2 && s.Geom().wOut == 1
    ensures Patch(s.Geom(), XView(s.Geom(), x), 0, 0, 1, 0, 0, 0) == 3
  {
    var g := s.Geom();
    assert g == Geometry(1, 1, 1, 1, 3, 1, 1, 1, 2, 1, 2, 1, 0, 0, 1, 1);
    assert XView(g, x) == View4(x, 0, 3, 3, 1, 1);
  }

  // ---------------------------------------------------------------- direct convolution

  ghost function PixelTap(g: Geometry, x: seq<int>, weight: seq<int>, ni: int, gi: int, coi: int, oh: int, ow: int)
    : (int, int, int) -> int
  {
    Tap(g, XView(g, x), WView(g, weight), ni, gi, coi, oh, ow)
  }

  /** Where the loops read the two operands of one tap, and what the tap contributes. */
  lemma TapReads(x: seq<int>, weight: seq<int>, g: Geometry, ni: nat, gi: nat, coi: nat, oh: nat, ow: nat,
                 ci: nat, ky: nat, kx: nat)
    requires Fits(g, x, weight)
    requires ni < g.batch && gi < g.groups && coi < g.cOutG && ci < g.cInG && ky < g.kH && kx < g.kW
    ensures var co, c := gi * g.cOutG + coi, gi * g.cInG + ci;
            var ih, iw := oh * g.strideH + ky - g.padH, ow * g.strideW + kx - g.padW;
            var xOff := ((ni * g.CIn() + c) * g.h + ih) * g.w + iw;
            var wOff := ((co * g.cInG + ci) * g.kH + ky) * g.kW + kx;
            var tap := PixelTap(g, x, weight, ni, gi, coi, oh, ow)(ci, ky, kx);
            if 0 <= ih < g.h && 0 <= iw < g.w
            then 0 <= xOff < |x| && 0 <= wOff < |weight| && tap == x[xOff] * weight[wOff]
            else tap == 0
  {
    var co, c := gi * g.cOutG + coi, gi * g.cInG + ci;
    var ih, iw := oh * g.strideH + ky - g.padH, ow * g.strideW + kx - g.padW;
    Bound(gi, g.groups, coi, g.cOutG);
    Bound(gi, g.groups, ci, g.cInG);
    if 0 <= ih < g.h && 0 <= iw < g.w {
      RowMajorGet(x, g.batch, g.CIn(), g.h, g.w, ni, c, ih, iw);
      RowMajorGet(weight, g.COut(), g.cInG, g.kH, g.kW, co, ci, ky, kx);
    }
  }

  /** The innermost loop: one kernel row of one input channel, padded taps skipped. */
  method DirectRow(x: seq<int>, weight: seq<int>, g: Geometry, ni: nat, gi: nat, coi: nat, oh: nat, ow: nat,
                   ci: nat, ky: nat) returns (acc: int)
    requires Fits(g, x, weight)
    requires ni < g.batch && gi < g.groups && coi < g.cOutG && ci < g.cInG && ky < g.kH
    ensures acc == Sum(g.kW, Row(Plane(PixelTap(g, x, weight, ni, gi, coi, oh, ow), ci), ky))
  {
    var co, c := gi * g.cOutG + coi, gi * g.cInG + ci;
    ghost var row := Row(Plane(PixelTap(g, x, weight, ni, gi, coi, oh, ow), ci), ky);
    acc := 0;
    var ihPadded := oh * g.strideH + ky;
    if ihPadded < g.padH || ihPadded >= g.h + g.padH {
      forall kx | 0 <= kx < g.kW ensures row(kx) == 0 {
        TapReads(x, weight, g, ni, gi, coi, oh, ow, ci, ky, kx);
      }
      SumZero(g.kW, row);
      return;
    }
    var ih := ihPadded - g.padH;
    for kx := 0 to g.kW
      invariant acc == Sum(kx, row)
    {
      TapReads(x, weight, g, ni, gi, coi, oh, ow, ci, ky, kx);
      var iwPadded := ow * g.strideW + kx;
      if !(iwPadded < g.padW || iwPadded >= g.w + g.padW) {
        var iw := iwPadded - g.padW;
        var xOff := ((ni * g.CIn() + c) * g.h + ih) * g.w + iw;
        var wOff := ((co * g.cInG + ci) * g.kH + ky) * g.kW + kx;
        acc := acc + x[xOff] * weight[wOff];
      }
    }
  }

  /** The accumulation of one output pixel. */
  method DirectPixel(x: seq<int>, weight: seq<int>, g: Geometry, ni: nat, gi: nat, coi: nat, oh: nat, ow: nat)
    returns (acc: int)
    requires Fits(g, x, weight)
    requires ni < g.batch && gi < g.groups && coi < g.cOutG
    ensures acc == ConvAt(g, XView(g, x), WView(g, weight), ni, gi, coi, oh, ow)
  {
    ghost var tap := PixelTap(g, x, weight, ni, gi, coi, oh, ow);
    acc := 0;
    for ci := 0 to g.cInG
      invariant acc == Sum3(ci, g.kH, g.kW, tap)
    {
      for ky := 0 to g.kH
        invariant acc == Sum3(ci, g.kH, g.kW, tap) + Sum2(ky, g.kW, Plane(tap, ci))
      {
        var row := DirectRow(x, weight, g, ni, gi, coi, oh, ow, ci, ky);
        acc := acc + row;
        Sum2Next(ky, g.kW, Plane(tap, ci));
      }
      Sum3Next(ci, g.kH, g.kW, tap);
    }
  }

  /** The first `n` positions of a buffer agree with what it must become. */
  ghost predicate Done(out: seq<int>, spec: seq<int>, n: int) {
    && |out| == |spec|
    && forall p :: 0 <= p < n && p < |out| ==> out[p] == spec[p]
  }

  ghost predicate FitsBias(g: Geometry, bias: Option<seq<int>>) {
    bias.Some? ==> |bias.value| == g.COut()
  }

  function PlaneStart(g: Geometry, ni: int, gi: int, coi: int): int {
    ((ni * g.groups + gi) * g.cOutG + coi) * (g.hOut * g.wOut)
  }

  /** The flat output index the loops compute. */
  method OutOffset(g: Geometry, ni: nat, gi: nat, coi: nat, oh: nat, ow: nat) returns (p: int)
    ensures p == OutPos(g, ni, gi, coi, oh, ow)
  {
    OutPosHorner(g, ni, gi, coi, oh, ow);
    var co := gi * g.cOutG + coi;
    p := ((ni * g.COut() + co) * g.hOut + oh) * g.wOut + ow;
  }

  /** All pixels of one output channel. */
  method DirectPlane(x: seq<int>, weight: seq<int>, bias: Option<seq<int>>, g: Geometry, ni: nat, gi: nat, coi: nat,
                     out: array<int>, ghost spec: seq<int>)
    requires Fits(g, x, weight) && FitsBias(g, bias) && IsConv(spec, g, XView(g, x), WView(g, weight), bias)
    requires ni < g.batch && gi < g.groups && coi < g.cOutG
    requires Done(out[..], spec, PlaneStart(g, ni, gi, coi))
    modifies out
    ensures Done(out[..], spec, PlaneStart(g, ni, gi, coi) + g.Pixels())
  {
    var start := PlaneStart(g, ni, gi, coi);
    for oh := 0 to g.hOut
      invariant Done(out[..], spec, start + oh * g.wOut)
    {
      for ow := 0 to g.wOut
        invariant Done(out[..], spec, start + oh * g.wOut + ow)
      {
        var acc := DirectPixel(x, weight, g, ni, gi, coi, oh, ow);
        var co := gi * g.cOutG + coi;
        Bound(gi, g.groups, coi, g.cOutG);
        if bias.Some? {
          acc := acc + bias.value[co];
        }
        assert Pixel(g, ni, gi, coi, oh, ow);
        var outOff := OutOffset(g, ni, gi, coi, oh, ow);
        out[outOff] := acc;
      }
      Dist(oh, 1, g.wOut);
    }
  }

  /** The planes tile the output in loop order. */
  lemma NextPlane(g: Geometry, ni: int, gi: int, coi: int)
    ensures PlaneStart(g, ni, gi, coi + 1) == PlaneStart(g, ni, gi, coi) + g.Pixels()
    ensures PlaneStart(g, ni, gi + 1, 0) == PlaneStart(g, ni, gi, g.cOutG)
    ensures PlaneStart(g, ni + 1, 0, 0) == PlaneStart(g, ni, g.groups, 0)
  {
    Dist((ni * g.groups + gi) * g.cOutG + coi, 1, g.hOut * g.wOut);
    Dist(ni * g.groups + gi, 1, g.cOutG);
    Dist(ni, 1, g.groups);
  }

  /** The loops over batch entries, groups and output channels. */
  method DirectLoops(x: seq<int>, weight: seq<int>, bias: Option<seq<int>>, g: Geometry, out: array<int>,
          ghost spec: seq<int>)
    requires Fits(g, x, weight) && FitsBias(g, bias) && IsConv(spec, g, XView(g, x), WView(g, weight), bias)
    requires out.Length == |spec|
    modifies out
    ensures Done(out[..], spec, PlaneStart(g, g.batch, 0, 0))
  {
    for ni := 0 to g.batch
      invariant Done(out[..], spec, PlaneStart(g, ni, 0, 0))
    {
      for gi := 0 to g.groups
        invariant Done(out[..], spec, PlaneStart(g, ni, gi, 0))
      {
        for coi := 0 to g.cOutG
          invariant Done(out[..], spec, PlaneStart(g, ni, gi, coi))
        {
          DirectPlane(x, weight, bias, g, ni, gi, coi, out, spec);
          NextPlane(g, ni, gi, coi);
        }
        NextPlane(g, ni, gi, 0);
      }
      NextPlane(g, ni, 0, 0);
    }
  }

  /** The textbook convolution: every position of `out` is written with its pixel. */
  method Conv2dDirect(x: seq<int>, weight: seq<int>, bias: Option<seq<int>>, s: ConvShape, out: array<int>)
    requires s.Validate().Accepted?
    requires Fits(s.Geom(), x, weight) && FitsBias(s.Geom(), bias) && out.Length == OutLen(s.Geom())
    modifies out
    ensures IsConv(out[..], s.Geom(), XView(s.Geom(), x), WView(s.Geom(), weight), bias)
  {
    ghost var g := s.Geom();
    ghost var spec := Conv(g, XView(g, x), WView(g, weight), bias);
    ConvIsConv(g, XView(g, x), WView(g, weight), bias);
    DirectLoops(x, weight, bias, s.Geom(), out, spec);
    assert out[..] == spec;
  }

  // ---------------------------------------------------------------- im2col

  ghost function PatchLen(g: Geometry): nat { (g.batch * g.groups) * (g.cInG * g.kH * g.kW) * (g.hOut * g.wOut) }

  /** The row of the patch matrix belonging to `(ni, gi, ci, ky, kx)`. */
  function PatchRow(g: Geometry, ni: int, gi: int, ci: int, ky: int, kx: int): int {
    (ni * g.groups + gi) * g.Taps() + ((ci * g.kH + ky) * g.kW + kx)
  }

  function PatchPos(g: Geometry, ni: int, gi: int, ci: int, ky: int, kx: int, oh: int, ow: int): int {
    PatchRow(g, ni, gi, ci, ky, kx) * g.Pixels() + (oh * g.wOut + ow)
  }

  predicate PatchCell(g: Geometry, ni: int, gi: int, ci: int, ky: int, kx: int, oh: int, ow: int) {
    && 0 <= ni < g.batch && 0 <= gi < g.groups && 0 <= ci < g.cInG && 0 <= ky < g.kH && 0 <= kx < g.kW
    && 0 <= oh < g.hOut && 0 <= ow < g.wOut
  }

  /** The buffer is the patch matrix `[batch * groups, cInG * kH * kW, hOut * wOut]`. */
  ghost predicate IsPatches(col: seq<int>, g: Geometry, x: View4) {
    && |col| == PatchLen(g)
    && forall ni, gi, ci, ky, kx, oh, ow :: PatchCell(g, ni, gi, ci, ky, kx, oh, ow)
         ==> 0 <= PatchPos(g, ni, gi, ci, ky, kx, oh, ow) < |col|
             && col[PatchPos(g, ni, gi, ci, ky, kx, oh, ow)] == Patch(g, x, ni, gi * g.cInG + ci, oh, ow, ky, kx)
  }

  /** What `Im2col` leaves, from the descriptor alone. */
  lemma PatchesMean(s: ConvShape, x: seq<int>, col: seq<int>, inG: nat, outG: nat, hOut: nat, wOut: nat, ni: int,
          gi: int, ci: int, ky: int, kx: int, oh: int, ow: int)
    requires s.Validate().Accepted? && Sized(s, inG, outG, hOut, wOut)
    requires IsPatches(col, s.Geom(), XView(s.Geom(), x))
    requires 0 <= ni < s.batch && 0 <= gi < s.groups && 0 <= ci < inG && 0 <= ky < s.kH && 0 <= kx < s.kW
    requires 0 <= oh < hOut && 0 <= ow < wOut
    ensures |col| == s.batch * s.groups * (inG * s.kH * s.kW) * (hOut * wOut)
    ensures var p := Ravel([s.batch * s.groups, inG * s.kH * s.kW, hOut * wOut],
                           [ni * s.groups + gi, (ci * s.kH + ky) * s.kW + kx, oh * wOut + ow]);
            && 0 <= p < |col|
            && col[p] == InputAt(s, x, ni, gi * inG + ci, oh * s.stride.0 + ky - s.padding.0,
                                 ow * s.stride.1 + kx - s.padding.1)
  {
    var g := s.Geom();
    GeomIsSized(s, inG, outG, hOut, wOut);
    Ravel3([s.batch * s.groups, inG * s.kH * s.kW, hOut * wOut],
           [ni * s.groups + gi, (ci * s.kH + ky) * s.kW + kx, oh * wOut + ow]);
    assert PatchCell(g, ni, gi, ci, ky, kx, oh, ow);
    PatchMeans(s, x, ni, gi * inG + ci, oh, ow, ky, kx);
  }

  ghost function PatchValue(g: Geometry, x: View4, p: int): int {
    var row, j := Hi(p, g.Pixels()), Lo(p, g.Pixels());
    var bg, kk := Hi(row, g.Taps()), Lo(row, g.Taps());
    var krow := Hi(kk, g.kW);
    Patch(g, x, Hi(bg, g.groups), Lo(bg, g.groups) * g.cInG + Hi(krow, g.kH),
          Hi(j, g.wOut), Lo(j, g.wOut), Lo(krow, g.kH), Lo(kk, g.kW))
  }

  ghost function Patches(g: Geometry, x: View4): seq<int> {
    seq(PatchLen(g), p => PatchValue(g, x, p))
  }

  lemma PatchAtPos(g: Geometry, x: View4, ni: int, gi: int, ci: int, ky: int, kx: int, oh: int, ow: int)
    requires PatchCell(g, ni, gi, ci, ky, kx, oh, ow)
    ensures 0 <= PatchPos(g, ni, gi, ci, ky, kx, oh, ow) < PatchLen(g)
    ensures PatchValue(g, x, PatchPos(g, ni, gi, ci, ky, kx, oh, ow))
            == Patch(g, x, ni, gi * g.cInG + ci, oh, ow, ky, kx)
  {
    var bg := ni * g.groups + gi;
    var kk := (ci * g.kH + ky) * g.kW + kx;
    var j := oh * g.wOut + ow;
    Bound(oh, g.hOut, ow, g.wOut);
    Bound(ci, g.cInG, ky, g.kH);
    Bound(ci * g.kH + ky, g.cInG * g.kH, kx, g.kW);
    Bound(ni, g.batch, gi, g.groups);
    Bound(bg, g.batch * g.groups, kk, g.Taps());
    Bound(bg * g.Taps() + kk, (g.batch * g.groups) * g.Taps(), j, g.Pixels());
    DivMod(ni, gi, g.groups);
    DivMod(ci, ky, g.kH);
    DivMod(ci * g.kH + ky, kx, g.kW);
    DivMod(oh, ow, g.wOut);
    DivMod(bg, kk, g.Taps());
    DivMod(bg * g.Taps() + kk, j, g.Pixels());
  }

  lemma PatchesIsPatches(g: Geometry, x: View4)
    ensures IsPatches(Patches(g, x), g, x)
  {
    forall ni, gi, ci, ky, kx, oh, ow | PatchCell(g, ni, gi, ci, ky, kx, oh, ow)
      ensures 0 <= PatchPos(g, ni, gi, ci, ky, kx, oh, ow) < PatchLen(g)
      ensures Patches(g, x)[PatchPos(g, ni, gi, ci, ky, kx, oh, ow)]
              == Patch(g, x, ni, gi * g.cInG + ci, oh, ow, ky, kx)
    {
      PatchAtPos(g, x, ni, gi, ci, ky, kx, oh, ow);
    }
  }

  /** `x[x_channel_offset + ih * w + iw]`. */
  method ReadChannel(x: seq<int>, g: Geometry, ni: nat, c: nat, ih: nat, iw: nat) returns (v: int)
    requires |x| == g.batch * g.CIn() * g.h * g.w
    requires ni < g.batch && c < g.CIn() && ih < g.h && iw < g.w
    ensures v == XView(g, x).Get(ni, c, ih, iw)
  {
    RowMajorGet(x, g.batch, g.CIn(), g.h, g.w, ni, c, ih, iw);
    Horner3(ni * g.CIn() + c, ih, iw, g.h, g.w);
    Mul3(ni * g.CIn() + c, g.h, g.w);
    var channelOffset := (ni * g.CIn() + c) * g.h * g.w;
    v := x[channelOffset + ih * g.w + iw];
  }

  /** One row of the patch matrix: a shifted copy of an input channel, zero in the padding. */
  method Im2colRow(x: seq<int>, g: Geometry, ni: nat, gi: nat, ci: nat, ky: nat, kx: nat, out: array<int>,
          ghost spec: seq<int>)
    requires |x| == g.batch * g.CIn() * g.h * g.w && g.dilH == 1 && g.dilW == 1
    requires IsPatches(spec, g, XView(g, x))
    requires ni < g.batch && gi < g.groups && ci < g.cInG && ky < g.kH && kx < g.kW
    requires Done(out[..], spec, PatchRow(g, ni, gi, ci, ky, kx) * g.Pixels())
    modifies out
    ensures Done(out[..], spec, (PatchRow(g, ni, gi, ci, ky, kx) + 1) * g.Pixels())
  {
    var bg := ni * g.groups + gi;
    var patchRow := (ci * g.kH + ky) * g.kW + kx;
    var patchOffset := bg * g.Taps() * g.Pixels() + patchRow * g.Pixels();
    Dist(bg * g.Taps(), patchRow, g.Pixels());
    var c := gi * g.cInG + ci;
    Bound(gi, g.groups, ci, g.cInG);
    for oh := 0 to g.hOut
      invariant Done(out[..], spec, patchOffset + oh * g.wOut)
    {
      var ihPadded := oh * g.strideH + ky;
      for ow := 0 to g.wOut
        invariant Done(out[..], spec, patchOffset + oh * g.wOut + ow)
      {
        var iwPadded := ow * g.strideW + kx;
        var inBounds := ihPadded >= g.padH && ihPadded < g.h + g.padH && iwPadded >= g.padW && iwPadded < g.w + g.padW;
        var val := 0;
        if inBounds {
          val := ReadChannel(x, g, ni, c, ihPadded - g.padH, iwPadded - g.padW);
        }
        assert PatchCell(g, ni, gi, ci, ky, kx, oh, ow);
        assert patchOffset + oh * g.wOut + ow == PatchPos(g, ni, gi, ci, ky, kx, oh, ow);
        out[patchOffset + oh * g.wOut + ow] := val;
      }
      Dist(oh, 1, g.wOut);
    }
    Dist(PatchRow(g, ni, gi, ci, ky, kx), 1, g.Pixels());
  }

  lemma NextPatchRow(g: Geometry, ni: int, gi: int, ci: int, ky: int)
    ensures PatchRow(g, ni, gi, ci, ky + 1, 0) == PatchRow(g, ni, gi, ci, ky, g.kW)
    ensures PatchRow(g, ni, gi, ci + 1, 0, 0) == PatchRow(g, ni, gi, ci, g.kH, 0)
    ensures PatchRow(g, ni, gi + 1, 0, 0, 0) == PatchRow(g, ni, gi, g.cInG, 0, 0)
    ensures PatchRow(g, ni + 1, 0, 0, 0, 0) == PatchRow(g, ni, g.groups, 0, 0, 0)
  {
    Dist(ci * g.kH + ky, 1, g.kW);
    Dist(ci, 1, g.kH);
    Dist(ni * g.groups + gi, 1, g.Taps());
    Dist(ni, 1, g.groups);
  }

  /** The rows of one batch entry and group. */
  method Im2colGroup(x: seq<int>, g: Geometry, ni: nat, gi: nat, out: array<int>, ghost spec: seq<int>)
    requires |x| == g.batch * g.CIn() * g.h * g.w && g.dilH == 1 && g.dilW == 1
    requires IsPatches(spec, g, XView(g, x))
    requires ni < g.batch && gi < g.groups
    requires Done(out[..], spec, PatchRow(g, ni, gi, 0, 0, 0) * g.Pixels())
    modifies out
    ensures Done(out[..], spec, PatchRow(g, ni, gi + 1, 0, 0, 0) * g.Pixels())
  {
    for ci := 0 to g.cInG
      invariant Done(out[..], spec, PatchRow(g, ni, gi, ci, 0, 0) * g.Pixels())
    {
      for ky := 0 to g.kH
        invariant Done(out[..], spec, PatchRow(g, ni, gi, ci, ky, 0) * g.Pixels())
      {
        for kx := 0 to g.kW
          invariant Done(out[..], spec, PatchRow(g, ni, gi, ci, ky, kx) * g.Pixels())
        {
          Im2colRow(x, g, ni, gi, ci, ky, kx, out, spec);
        }
        NextPatchRow(g, ni, gi, ci, ky);
      }
      NextPatchRow(g, ni, gi, ci, 0);
    }
    NextPatchRow(g, ni, gi, 0, 0);
  }

  method Im2colLoops(x: seq<int>, g: Geometry, out: array<int>, ghost spec: seq<int>)
    requires |x| == g.batch * g.CIn() * g.h * g.w && g.dilH == 1 && g.dilW == 1
    requires IsPatches(spec, g, XView(g, x)) && out.Length == |spec|
    modifies out
    ensures Done(out[..], spec, PatchRow(g, g.batch, 0, 0, 0, 0) * g.Pixels())
  {
    for ni := 0 to g.batch
      invariant Done(out[..], spec, PatchRow(g, ni, 0, 0, 0, 0) * g.Pixels())
    {
      for gi := 0 to g.groups
        invariant Done(out[..], spec, PatchRow(g, ni, gi, 0, 0, 0) * g.Pixels())
      {
        Im2colGroup(x, g, ni, gi, out, spec);
      }
      NextPatchRow(g, ni, 0, 0, 0);
    }
  }

  /** Rearranges the input so that convolution becomes one matrix product per group. */
  method Im2col(x: seq<int>, s: ConvShape, out: array<int>)
    requires s.Validate().Accepted?
    requires |x| == s.batch * s.cIn * s.h * s.w && out.Length == PatchLen(s.Geom())
    modifies out
    ensures IsPatches(out[..], s.Geom(), XView(s.Geom(), x))
  {
    ghost var g := s.Geom();
    PatchesIsPatches(g, XView(g, x));
    Im2colLoops(x, s.Geom(), out, Patches(g, XView(g, x)));
    assert out[..] == Patches(g, XView(g, x));
  }

  // ---------------------------------------------------------------- convolution by gemm

  lemma GroupSlice(g: Geometry, gi: int)
    requires 0 <= gi < g.groups
    ensures 0 <= gi * (g.cOutG * g.Taps()) <= gi * (g.cOutG * g.Taps()) + g.cOutG * g.Taps()
              <= g.COut() * g.cInG * g.kH * g.kW
  {
    var mk := g.cOutG * g.Taps();
    assert mk >= 0;
    MulMono(0, gi, mk); MulMono(gi + 1, g.groups, mk); Dist(gi, 1, mk);
    calc {
      g.groups * mk;
      { Mul3(g.groups, g.cOutG, g.Taps()); }
      g.COut() * g.Taps();
      { Mul3(g.COut(), g.cInG * g.kH, g.kW); Mul3(g.COut(), g.cInG, g.kH); }
      g.COut() * g.cInG * g.kH * g.kW;
    }
  }

  lemma BlockSlice(g: Geometry, bg: int)
    requires 0 <= bg < g.batch * g.groups
    ensures 0 <= bg * (g.Taps() * g.Pixels()) <= bg * (g.Taps() * g.Pixels()) + g.Taps() * g.Pixels() <= PatchLen(g)
  {
    var kn := g.Taps() * g.Pixels();
    assert kn >= 0;
    MulMono(0, bg, kn); MulMono(bg + 1, g.batch * g.groups, kn); Dist(bg, 1, kn);
    Mul3(g.batch * g.groups, g.Taps(), g.Pixels());
  }

  /** `ws` is the weight slice of group `gi`, `ps` the patch slice of batch entry and group `bg`. */
  ghost predicate Slices(g: Geometry, weight: seq<int>, patches: seq<int>, gi: int, bg: int, ws: seq<int>,
          ps: seq<int>) {
    && |ws| == g.cOutG * g.Taps() && |ps| == g.Taps() * g.Pixels()
    && (forall q :: 0 <= q < |ws| ==> ws[q] == At(weight, gi * (g.cOutG * g.Taps()) + q))
    && (forall q :: 0 <= q < |ps| ==> ps[q] == At(patches, bg * (g.Taps() * g.Pixels()) + q))
  }

  lemma WeightOffset(g: Geometry, gi: int, coi: int, ci: int, ky: int, kx: int)
    ensures gi * (g.cOutG * g.Taps()) + (coi * g.Taps() + ((ci * g.kH + ky) * g.kW + kx))
            == (((gi * g.cOutG + coi) * g.cInG + ci) * g.kH + ky) * g.kW + kx
  {
    var co := gi * g.cOutG + coi;
    calc {
      gi * (g.cOutG * g.Taps()) + (coi * g.Taps() + ((ci * g.kH + ky) * g.kW + kx));
      { Horner3(gi, coi, 0, g.cOutG, g.Taps()); }
      co * ((g.cInG * g.kH) * g.kW) + ((ci * g.kH + ky) * g.kW + kx);
      { Horner3(co, ci * g.kH + ky, kx, g.cInG * g.kH, g.kW); }
      (co * (g.cInG * g.kH) + (ci * g.kH + ky)) * g.kW + kx;
      { Horner3(co, ci, ky, g.cInG, g.kH); }
      ((co * g.cInG + ci) * g.kH + ky) * g.kW + kx;
    }
  }

  /** The weight row and the patch row of one tap meet at the same place of the K axis. */
  lemma OperandsLineUp(g: Geometry, x: seq<int>, weight: seq<int>, patches: seq<int>, ws: seq<int>, ps: seq<int>,
                       ni: int, gi: int, coi: int, oy: int, ox: int, ci: int, ky: int, kx: int)
    requires Fits(g, x, weight) && IsPatches(patches, g, XView(g, x))
    requires Slices(g, weight, patches, gi, ni * g.groups + gi, ws, ps)
    requires Pixel(g, ni, gi, coi, oy, ox) && 0 <= ci < g.cInG && 0 <= ky < g.kH && 0 <= kx < g.kW
    ensures var t := (ci * g.kH + ky) * g.kW + kx;
            && At(ws, coi * g.Taps() + t * 1) == WView(g, weight).Get(gi * g.cOutG + coi, ci, ky, kx)
            && At(ps, (oy * g.wOut + ox) + t * g.Pixels())
               == Patch(g, XView(g, x), ni, gi * g.cInG + ci, oy, ox, ky, kx)
  {
    var t := (ci * g.kH + ky) * g.kW + kx;
    var K, n, bg, j, co := g.Taps(), g.Pixels(), ni * g.groups + gi, oy * g.wOut + ox, gi * g.cOutG + coi;
    Bound(ci, g.cInG, ky, g.kH);
    Bound(ci * g.kH + ky, g.cInG * g.kH, kx, g.kW);
    assert At(ws, coi * K + t * 1) == WView(g, weight).Get(co, ci, ky, kx) by {
      Bound(coi, g.cOutG, t, K);
      Bound(gi, g.groups, coi, g.cOutG);
      RowMajorGet(weight, g.COut(), g.cInG, g.kH, g.kW, co, ci, ky, kx);
      WeightOffset(g, gi, coi, ci, ky, kx);
    }
    assert At(ps, j + t * n) == Patch(g, XView(g, x), ni, gi * g.cInG + ci, oy, ox, ky, kx) by {
      Bound(oy, g.hOut, ox, g.wOut);
      Bound(t, K, j, n);
      assert PatchCell(g, ni, gi, ci, ky, kx, oy, ox);
      Horner3(bg, t, j, K, n);
    }
  }

  /** The flattened K sum over patches is the nested sum that skips padded taps. */
  lemma PatchDotIsConv(g: Geometry, x: seq<int>, weight: seq<int>, patches: seq<int>, ws: seq<int>, ps: seq<int>,
                       ni: int, gi: int, coi: int, oy: int, ox: int)
    requires Fits(g, x, weight) && IsPatches(patches, g, XView(g, x))
    requires Slices(g, weight, patches, gi, ni * g.groups + gi, ws, ps)
    requires Pixel(g, ni, gi, coi, oy, ox)
    ensures DotAt(ws, coi * g.Taps(), 1, ps, oy * g.wOut + ox, g.Pixels(), g.Taps())
            == ConvAt(g, XView(g, x), WView(g, weight), ni, gi, coi, oy, ox)
  {
    var tap := Tap(g, XView(g, x), WView(g, weight), ni, gi, coi, oy, ox);
    var f := DotTerm(ws, coi * g.Taps(), 1, ps, oy * g.wOut + ox, g.Pixels());
    forall ci, ky, kx | 0 <= ci < g.cInG && 0 <= ky < g.kH && 0 <= kx < g.kW
      ensures tap(ci, ky, kx) == f((ci * g.kH + ky) * g.kW + kx)
    {
      TapIsTerm(g, x, weight, patches, ws, ps, ni, gi, coi, oy, ox, ci, ky, kx);
    }
    SumFlatten3(g.cInG, g.kH, g.kW, f, tap);
  }

  lemma TapIsTerm(g: Geometry, x: seq<int>, weight: seq<int>, patches: seq<int>, ws: seq<int>, ps: seq<int>,
                  ni: int, gi: int, coi: int, oy: int, ox: int, ci: int, ky: int, kx: int)
    requires Fits(g, x, weight) && IsPatches(patches, g, XView(g, x))
    requires Slices(g, weight, patches, gi, ni * g.groups + gi, ws, ps)
    requires Pixel(g, ni, gi, coi, oy, ox) && 0 <= ci < g.cInG && 0 <= ky < g.kH && 0 <= kx < g.kW
    ensures Tap(g, XView(g, x), WView(g, weight), ni, gi, coi, oy, ox)(ci, ky, kx)
            == DotTerm(ws, coi * g.Taps(), 1, ps, oy * g.wOut + ox, g.Pixels())((ci * g.kH + ky) * g.kW + kx)
  {
    var v := Patch(g, XView(g, x), ni, gi * g.cInG + ci, oy, ox, ky, kx);
    var w := WView(g, weight).Get(gi * g.cOutG + coi, ci, ky, kx);
    TapIs(g, x, weight, ni, gi, coi, oy, ox, ci, ky, kx, v, w);
    DotTermIs(ws, coi * g.Taps(), ps, oy * g.wOut + ox, g.Pixels(), (ci * g.kH + ky) * g.kW + kx, v, w) by {
      OperandsLineUp(g, x, weight, patches, ws, ps, ni, gi, coi, oy, ox, ci, ky, kx);
    }
  }

  lemma DotTermIs(a: seq<int>, ao: int, b: seq<int>, bo: int, bst: int, t: int, v: int, w: int)
    requires At(a, ao + t * 1) == w && At(b, bo + t * bst) == v
    ensures DotTerm(a, ao, 1, b, bo, bst)(t) == v * w
  {}

  lemma BlockRange(g: Geometry, ni: int, gi: int)
    requires 0 <= ni < g.batch && 0 <= gi < g.groups
    ensures 0 <= PlaneStart(g, ni, gi, 0)
    ensures PlaneStart(g, ni, gi, 0) + g.cOutG * g.Pixels() == PlaneStart(g, ni, gi + 1, 0) <= OutLen(g)
  {
    var bg, n := ni * g.groups + gi, g.Pixels();
    Bound(ni, g.batch, gi, g.groups);
    Dist(bg, 1, g.cOutG);
    Dist(bg * g.cOutG, g.cOutG, n);
    MulMono(bg + 1, g.batch * g.groups, g.cOutG);
    MulMono(0, bg, g.cOutG);
    MulMono((bg + 1) * g.cOutG, Planes(g), n);
    MulMono(0, bg * g.cOutG, n);
  }

  /** The block a gemm call leaves is the matching block of the convolution without bias. */
  lemma BlockIsConv(g: Geometry, x: seq<int>, weight: seq<int>, patches: seq<int>, ws: seq<int>, ps: seq<int>,
                    ni: int, gi: int, block: seq<int>, spec: seq<int>, q: int)
    requires Fits(g, x, weight) && IsPatches(patches, g, XView(g, x))
    requires 0 <= ni < g.batch && 0 <= gi < g.groups && 0 <= q < g.cOutG * g.Pixels()
    requires Slices(g, weight, patches, gi, ni * g.groups + gi, ws, ps)
    requires IsProd(block, ws, ps, g.cOutG, g.Pixels(), g.Taps())
    requires IsConv(spec, g, XView(g, x), WView(g, weight), None)
    ensures 0 <= PlaneStart(g, ni, gi, 0) + q < |spec| && block[q] == spec[PlaneStart(g, ni, gi, 0) + q]
  {
    var coi, oy, ox := BlockPixel(g, ni, gi, q);
    PatchDotIsConv(g, x, weight, patches, ws, ps, ni, gi, coi, oy, ox);
    ProdCell(block, ws, ps, g.cOutG, g.Pixels(), g.Taps(), coi, oy * g.wOut + ox, q);
    ConvCell(spec, g, XView(g, x), WView(g, weight), ni, gi, coi, oy, ox, PlaneStart(g, ni, gi, 0) + q);
  }

  lemma ProdCell(block: seq<int>, ws: seq<int>, ps: seq<int>, m: nat, n: nat, k: nat, i: int, j: int, q: int)
    requires IsProd(block, ws, ps, m, n, k) && 0 <= i < m && 0 <= j < n && q == i * n + j
    ensures 0 <= q < |block| && block[q] == DotAt(ws, i * k, 1, ps, j, n, k)
  {
    assert q == Pos(i, n, j);
  }

  lemma ConvCell(spec: seq<int>, g: Geometry, x: View4, k: View4, ni: int, gi: int, coi: int, oy: int, ox: int, p: int)
    requires IsConv(spec, g, x, k, None) && Pixel(g, ni, gi, coi, oy, ox) && p == OutPos(g, ni, gi, coi, oy, ox)
    ensures 0 <= p < |spec| && spec[p] == ConvAt(g, x, k, ni, gi, coi, oy, ox)
  {
    assert spec[OutPos(g, ni, gi, coi, oy, ox)] == BiasedAt(g, x, k, None, ni, gi, coi, oy, ox);
  }

  lemma Factors(q: int, a: nat, n: nat)
    requires 0 <= q < a * n
    ensures a > 0 && n > 0
  {}

  /** Cell `q` of a block, as a pixel. */
  lemma BlockPixel(g: Geometry, ni: int, gi: int, q: int) returns (coi: int, oy: int, ox: int)
    requires 0 <= ni < g.batch && 0 <= gi < g.groups && 0 <= q < g.cOutG * g.Pixels()
    ensures Pixel(g, ni, gi, coi, oy, ox) && 0 <= oy * g.wOut + ox < g.Pixels()
    ensures q == coi * g.Pixels() + (oy * g.wOut + ox)
    ensures PlaneStart(g, ni, gi, 0) + q == OutPos(g, ni, gi, coi, oy, ox)
  {
    var n := g.Pixels();
    Factors(q, g.cOutG, n);
    DivBound(q, g.cOutG, n);
    coi := Hi(q, n);
    Factors(Lo(q, n), g.hOut, g.wOut);
    DivBound(Lo(q, n), g.hOut, g.wOut);
    oy, ox := Hi(Lo(q, n), g.wOut), Lo(Lo(q, n), g.wOut);
    PlanePixel(g, ni, gi, coi);
  }

  lemma PlanePixel(g: Geometry, ni: int, gi: int, coi: int)
    ensures PlaneStart(g, ni, gi, 0) + coi * g.Pixels() == PlaneStart(g, ni, gi, coi)
  {
    Dist((ni * g.groups + gi) * g.cOutG, coi, g.Pixels());
  }

  /** One gemm call, on the slices of one batch entry and group. */
  method GroupGemm(x: seq<int>, weight: seq<int>, g: Geometry, out: array<int>, patches: seq<int>, ni: nat, gi: nat,
                   ghost spec: seq<int>)
    requires Fits(g, x, weight) && IsPatches(patches, g, XView(g, x))
    requires IsConv(spec, g, XView(g, x), WView(g, weight), None)
    requires ni < g.batch && gi < g.groups
    requires Done(out[..], spec, PlaneStart(g, ni, gi, 0))
    modifies out
    ensures Done(out[..], spec, PlaneStart(g, ni, gi + 1, 0))
  {
    var m, n, k := g.cOutG, g.Pixels(), g.Taps();
    var bg := ni * g.groups + gi;
    Bound(ni, g.batch, gi, g.groups);
    GroupSlice(g, gi);
    BlockSlice(g, bg);
    BlockRange(g, ni, gi);
    var weightOff, patchesOff, outOff := gi * (m * k), bg * (k * n), PlaneStart(g, ni, gi, 0);
    var ws, ps := weight[weightOff..weightOff + m * k], patches[patchesOff..patchesOff + k * n];
    ghost var before := out[..];
    RunGemm(m, n, k, ws, ps, out, outOff);
    assert Slices(g, weight, patches, gi, bg, ws, ps);
    ghost var block := out[outOff..outOff + m * n];
    forall p | 0 <= p < outOff + m * n ensures out[p] == spec[p] {
      if p < outOff {
        assert out[p] == out[..outOff][p] == before[..outOff][p];
      } else {
        BlockIsConv(g, x, weight, patches, ws, ps, ni, gi, block, spec, p - outOff);
      }
    }
  }

  /** The gemm calls of every batch entry and group, in loop order. */
  method GemmLoops(x: seq<int>, weight: seq<int>, g: Geometry, out: array<int>, patches: seq<int>, ghost spec: seq<int>)
    requires Fits(g, x, weight) && IsPatches(patches, g, XView(g, x))
    requires IsConv(spec, g, XView(g, x), WView(g, weight), None) && out.Length == |spec|
    modifies out
    ensures Done(out[..], spec, PlaneStart(g, g.batch, 0, 0))
  {
    for ni := 0 to g.batch
      invariant Done(out[..], spec, PlaneStart(g, ni, 0, 0))
    {
      for gi := 0 to g.groups
        invariant Done(out[..], spec, PlaneStart(g, ni, gi, 0))
      {
        GroupGemm(x, weight, g, out, patches, ni, gi, spec);
      }
      NextPlane(g, ni, 0, 0);
    }
  }

  // ---------------------------------------------------------------- bias

  /** Along row `co`, the biased convolution is the plain one plus `b[co]`. */
  ghost predicate RowsShifted(plain: seq<int>, biased: seq<int>, g: Geometry, b: seq<int>) {
    && |b| == g.COut() && |plain| == |biased| == OutLen(g)
    && forall ni, co, j :: 0 <= ni < g.batch && 0 <= co < g.COut() && 0 <= j < g.Pixels()
         ==> 0 <= RowPos(g, ni, co, j) < |plain| && biased[RowPos(g, ni, co, j)] == plain[RowPos(g, ni, co, j)] + b[co]
  }

  function RowPos(g: Geometry, ni: int, co: int, j: int): int { (ni * g.COut() + co) * g.Pixels() + j }

  lemma BiasShifts(g: Geometry, x: View4, k: View4, b: seq<int>, plain: seq<int>, biased: seq<int>)
    requires |b| == g.COut() && IsConv(plain, g, x, k, None) && IsConv(biased, g, x, k, Some(b))
    ensures RowsShifted(plain, biased, g, b)
  {
    forall ni, co, j | 0 <= ni < g.batch && 0 <= co < g.COut() && 0 <= j < g.Pixels()
      ensures 0 <= RowPos(g, ni, co, j) < |plain| && biased[RowPos(g, ni, co, j)] == plain[RowPos(g, ni, co, j)] + b[co]
    {
      assert g.cOutG > 0;
      DivBound(co, g.groups, g.cOutG);
      DivBound(j, g.hOut, g.wOut);
      var gi, coi, oy, ox := Hi(co, g.cOutG), Lo(co, g.cOutG), Hi(j, g.wOut), Lo(j, g.wOut);
      assert Pixel(g, ni, gi, coi, oy, ox);
      Horner3(ni, gi, coi, g.groups, g.cOutG);
      assert RowPos(g, ni, co, j) == OutPos(g, ni, gi, coi, oy, ox);
    }
  }

  /** The first `n` positions carry their bias, the others do not yet. */
  ghost predicate Swept(out: seq<int>, plain: seq<int>, biased: seq<int>, n: int) {
    && |out| == |plain| == |biased|
    && forall p :: 0 <= p < |out| ==> out[p] == if p < n then biased[p] else plain[p]
  }

  /** The bias sweep over one channel of one batch entry. */
  method BiasRow(b: seq<int>, g: Geometry, out: array<int>, ni: nat, co: nat, ghost plain: seq<int>,
          ghost biased: seq<int>)
    requires RowsShifted(plain, biased, g, b) && ni < g.batch && co < |b|
    requires Swept(out[..], plain, biased, RowPos(g, ni, co, 0))
    modifies out
    ensures Swept(out[..], plain, biased, RowPos(g, ni, co + 1, 0))
  {
    var n := g.Pixels();
    var rowOff := (ni * g.COut() + co) * n;
    for j := 0 to n
      invariant Swept(out[..], plain, biased, rowOff + j)
    {
      assert rowOff + j == RowPos(g, ni, co, j);
      out[rowOff + j] := out[rowOff + j] + b[co];
    }
    Dist(ni * g.COut() + co, 1, n);
  }

  method AddBias(b: seq<int>, g: Geometry, out: array<int>, ghost plain: seq<int>, ghost biased: seq<int>)
    requires RowsShifted(plain, biased, g, b) && out[..] == plain
    modifies out
    ensures Swept(out[..], plain, biased, RowPos(g, g.batch, 0, 0))
  {
    for ni := 0 to g.batch
      invariant Swept(out[..], plain, biased, RowPos(g, ni, 0, 0))
    {
      for co := 0 to |b|
        invariant Swept(out[..], plain, biased, RowPos(g, ni, co, 0))
      {
        BiasRow(b, g, out, ni, co, plain, biased);
      }
      Dist(ni, 1, g.COut());
    }
  }

  // ---------------------------------------------------------------- the composition

  /** Convolution by im2col and any gemm that computes `a @ b`: the same output as the
      nested loops, for every valid shape, group count and optional bias. */
  method Conv2dViaGemm(x: seq<int>, weight: seq<int>, bias: Option<seq<int>>, s: ConvShape,
                       out: array<int>, patchesScratch: array<int>)
    requires s.Validate().Accepted? && out != patchesScratch
    requires Fits(s.Geom(), x, weight) && FitsBias(s.Geom(), bias)
    requires out.Length == OutLen(s.Geom()) && patchesScratch.Length == PatchLen(s.Geom())
    modifies out, patchesScratch
    ensures IsConv(out[..], s.Geom(), XView(s.Geom(), x), WView(s.Geom(), weight), bias)
    ensures IsPatches(patchesScratch[..], s.Geom(), XView(s.Geom(), x))
  {
    Im2col(x, s, patchesScratch);
    var g := s.Geom();
    GemmStep(x, weight, bias, g, out, patchesScratch[..]);
  }

  /** Everything after the rearrangement: the gemm calls, then the bias. */
  method GemmStep(x: seq<int>, weight: seq<int>, bias: Option<seq<int>>, g: Geometry, out: array<int>,
          patches: seq<int>)
    requires Fits(g, x, weight) && FitsBias(g, bias) && IsPatches(patches, g, XView(g, x)) && out.Length == OutLen(g)
    modifies out
    ensures IsConv(out[..], g, XView(g, x), WView(g, weight), bias)
  {
    ghost var xv, kv := XView(g, x), WView(g, weight);
    ghost var plain := Conv(g, xv, kv, None);
    ConvIsConv(g, xv, kv, None);
    GemmLoops(x, weight, g, out, patches, plain);
    assert out[..] == plain;
    if bias.Some? {
      ghost var biased := Conv(g, xv, kv, bias);
      ConvIsConv(g, xv, kv, bias);
      BiasShifts(g, xv, kv, bias.value, plain, biased);
      AddBias(bias.value, g, out, plain, biased);
      Mul3(g.batch, g.groups, g.cOutG);
      assert out[..] == biased;
    }
  }
}
