/** The one meaning every two-dimensional convolution in this project is measured against. */
module ConvSpec {
  import opened Sums
  import opened Radix
  import opened Wrappers
  import opened Layouts

  /** A rank-four tensor read through strides. */
  datatype View4 = View4(data: seq<int>, start: int, s0: int, s1: int, s2: int, s3: int) {
    function Get(a: int, b: int, c: int, d: int): int {
      At(data, start + a * s0 + b * s1 + c * s2 + d * s3)
    }
  }

  function RowMajor4(data: seq<int>, d1: int, d2: int, d3: int): View4 {
    View4(data, 0, d1 * d2 * d3, d2 * d3, d3, 1)
  }

  /** Everything that fixes a convolution except its data.  Channels are counted per group. */
  datatype Geometry = Geometry(
    batch: nat, groups: nat, cInG: nat, cOutG: nat, h: nat, w: nat, kH: nat, kW: nat, hOut: nat, wOut: nat,
    strideH: nat, strideW: nat, padH: nat, padW: nat, dilH: nat, dilW: nat)
  {
    function CIn(): int { groups * cInG }
    function COut(): int { groups * cOutG }
    function Taps(): int { cInG * kH * kW }
    function Pixels(): int { hOut * wOut }
  }

  /** The input value under tap `(ky, kx)` of channel `c` at output pixel `(oy, ox)`:
      zero when the tap falls in the padding. */
  ghost function Patch(g: Geometry, x: View4, b: int, c: int, oy: int, ox: int, ky: int, kx: int): int {
    var iy := oy * g.strideH + ky * g.dilH - g.padH;
    var ix := ox * g.strideW + kx * g.dilW - g.padW;
    if 0 <= iy < g.h && 0 <= ix < g.w then x.Get(b, c, iy, ix) else 0
  }

  /** What tap `(ci, ky, kx)` adds to channel `coi` of group `gi` at one output pixel. */
  ghost function Tap(g: Geometry, x: View4, k: View4, b: int, gi: int, coi: int, oy: int, ox: int)
    : (int, int, int) -> int
  {
    (ci, ky, kx) =>
      Patch(g, x, b, gi * g.cInG + ci, oy, ox, ky, kx) * k.Get(gi * g.cOutG + coi, ci, ky, kx)
  }

  /** One output pixel: the sum over input channels of the group and kernel taps. */
  ghost function ConvAt(g: Geometry, x: View4, k: View4, b: int, gi: int, coi: int, oy: int, ox: int): int {
    Sum3(g.cInG, g.kH, g.kW, Tap(g, x, k, b, gi, coi, oy, ox))
  }

  ghost function BiasAt(bias: Option<seq<int>>, co: int): int {
    if bias.Some? then At(bias.value, co) else 0
  }

  ghost function Planes(g: Geometry): nat { (g.batch * g.groups) * g.cOutG }
  ghost function OutLen(g: Geometry): nat { Planes(g) * (g.hOut * g.wOut) }

  /** The position of an output pixel in `[batch, groups * cOutG, hOut, wOut]`. */
  function OutPos(g: Geometry, b: int, gi: int, coi: int, oy: int, ox: int): int {
    ((b * g.groups + gi) * g.cOutG + coi) * (g.hOut * g.wOut) + (oy * g.wOut + ox)
  }

  predicate Pixel(g: Geometry, b: int, gi: int, coi: int, oy: int, ox: int) {
    0 <= b < g.batch && 0 <= gi < g.groups && 0 <= coi < g.cOutG && 0 <= oy < g.hOut && 0 <= ox < g.wOut
  }

  ghost function BiasedAt(g: Geometry, x: View4, k: View4, bias: Option<seq<int>>, b: int, gi: int, coi: int, oy: int,
          ox: int): int {
    ConvAt(g, x, k, b, gi, coi, oy, ox) + BiasAt(bias, gi * g.cOutG + coi)
  }

  /** The buffer holds the convolution of `x` by `k`, plus bias, at every pixel. */
  ghost predicate IsConv(out: seq<int>, g: Geometry, x: View4, k: View4, bias: Option<seq<int>>) {
    && |out| == OutLen(g)
    && forall b, gi, coi, oy, ox :: Pixel(g, b, gi, coi, oy, ox)
         ==> 0 <= OutPos(g, b, gi, coi, oy, ox) < |out|
             && out[OutPos(g, b, gi, coi, oy, ox)] == BiasedAt(g, x, k, bias, b, gi, coi, oy, ox)
  }

  lemma OutPosBound(g: Geometry, b: int, gi: int, coi: int, oy: int, ox: int)
    requires Pixel(g, b, gi, coi, oy, ox)
    ensures 0 <= OutPos(g, b, gi, coi, oy, ox) < OutLen(g)
  {
    Bound(oy, g.hOut, ox, g.wOut);
    Bound(b, g.batch, gi, g.groups);
    Bound(b * g.groups + gi, g.batch * g.groups, coi, g.cOutG);
    Bound((b * g.groups + gi) * g.cOutG + coi, Planes(g), oy * g.wOut + ox, g.hOut * g.wOut);
  }

  /** Every position of the output belongs to a pixel: the digits of the position. */
  lemma PixelOf(g: Geometry, p: int) returns (b: int, gi: int, coi: int, oy: int, ox: int)
    requires 0 <= p < OutLen(g)
    ensures Pixel(g, b, gi, coi, oy, ox) && p == OutPos(g, b, gi, coi, oy, ox)
  {
    assert g.hOut * g.wOut > 0;
    DivBound(p, Planes(g), g.hOut * g.wOut);
    var plane, pix := Hi(p, g.hOut * g.wOut), Lo(p, g.hOut * g.wOut);
    DivBound(plane, g.batch * g.groups, g.cOutG);
    var bg := Hi(plane, g.cOutG);
    DivBound(bg, g.batch, g.groups);
    DivBound(pix, g.hOut, g.wOut);
    b, gi, coi, oy, ox := Hi(bg, g.groups), Lo(bg, g.groups), Lo(plane, g.cOutG), Hi(pix, g.wOut), Lo(pix, g.wOut);
  }

  /** The last tap of the first window lies in the padded input. */
  ghost predicate FirstWindowFits(n: int, padding: int, dilation: int, k: int) {
    k >= 1 && (k - 1) * dilation <= padding + n + padding - 1
  }

  /** As many windows of length `span` as fit, `stride` apart, in `n` cells padded on both sides. */
  ghost predicate Windows(count: int, n: int, padding: int, span: int, stride: int) {
    (count - 1) * stride + span <= n + 2 * padding < count * stride + span
  }

  lemma WindowsUnique(count: int, count': int, n: int, padding: int, span: int, stride: int)
    requires stride >= 1 && Windows(count, n, padding, span, stride) && Windows(count', n, padding, span, stride)
    ensures count == count'
  {
    MulMono(count, count' - 1, stride);
    MulMono(count', count - 1, stride);
  }

  lemma WindowsFit(n: int, padding: int, span: int, stride: int)
    requires stride >= 1 && n + 2 * padding >= span
    ensures Windows((n + 2 * padding - span) / stride + 1, n, padding, span, stride)
  {
    var q := (n + 2 * padding - span) / stride;
    Dist(q, 1, stride);
  }

  /** The output is row-major `[batch, channels, height, width]`. */
  lemma OutPosIsRavel(g: Geometry, b: int, gi: int, coi: int, oy: int, ox: int)
    ensures OutPos(g, b, gi, coi, oy, ox)
            == Ravel([g.batch, g.groups * g.cOutG, g.hOut, g.wOut], [b, gi * g.cOutG + coi, oy, ox])
  {
    Ravel4([g.batch, g.groups * g.cOutG, g.hOut, g.wOut], [b, gi * g.cOutG + coi, oy, ox]);
    Horner3(b, gi, coi, g.groups, g.cOutG);
    Horner3((b * g.groups + gi) * g.cOutG + coi, oy, ox, g.hOut, g.wOut);
  }

  lemma OutLenIsProd(g: Geometry)
    ensures OutLen(g) == g.batch * (g.groups * g.cOutG) * g.hOut * g.wOut
  {
    Mul3(g.batch, g.groups, g.cOutG);
    Mul3(g.batch * g.groups * g.cOutG, g.hOut, g.wOut);
  }

  ghost predicate Holds(out: seq<int>, p: int, v: int) { 0 <= p < |out| && out[p] == v }

  /** Pixel `(oy, ox)` of channel `gi * cOutG + coi`, where it lies. */
  lemma PixelHolds(out: seq<int>, g: Geometry, x: View4, k: View4, bias: Option<seq<int>>, b: int, gi: int, coi: int,
          oy: int, ox: int)
    requires IsConv(out, g, x, k, bias) && Pixel(g, b, gi, coi, oy, ox)
    ensures |out| == g.batch * (g.groups * g.cOutG) * g.hOut * g.wOut
    ensures Holds(out, Ravel([g.batch, g.groups * g.cOutG, g.hOut, g.wOut], [b, gi * g.cOutG + coi, oy, ox]),
                  ConvAt(g, x, k, b, gi, coi, oy, ox) + BiasAt(bias, gi * g.cOutG + coi))
  {
    OutPosIsRavel(g, b, gi, coi, oy, ox);
    OutLenIsProd(g);
    assert out[OutPos(g, b, gi, coi, oy, ox)] == BiasedAt(g, x, k, bias, b, gi, coi, oy, ox);
  }

  /** A row-major tensor is read at the row-major position. */
  lemma RowMajor4IsRavel(data: seq<int>, n: nat, d1: nat, d2: nat, d3: nat, a: int, b: int, c: int, d: int)
    ensures RowMajor4(data, d1, d2, d3).Get(a, b, c, d) == At(data, Ravel([n, d1, d2, d3], [a, b, c, d]))
  {
    Ravel4([n, d1, d2, d3], [a, b, c, d]);
    Nested4(a, b, c, d1, d2, d3);
  }

  lemma Nested4(a: int, b: int, c: int, d1: int, d2: int, d3: int)
    ensures ((a * d1 + b) * d2 + c) * d3 == a * (d1 * d2 * d3) + b * (d2 * d3) + c * d3
  {
    Dist(a * d1, b, d2);
    Mul3(a, d1, d2);
    Dist(a * (d1 * d2) + b * d2, c, d3);
    Dist(a * (d1 * d2), b * d2, d3);
    Mul3(a, d1 * d2, d3);
    Mul3(b, d2, d3);
  }

  /** Distinct pixels are stored apart. */
  lemma OutPosInjective(g: Geometry, b: int, gi: int, coi: int, oy: int, ox: int,
                        b': int, gi': int, coi': int, oy': int, ox': int)
    requires Pixel(g, b, gi, coi, oy, ox) && Pixel(g, b', gi', coi', oy', ox')
    requires OutPos(g, b, gi, coi, oy, ox) == OutPos(g, b', gi', coi', oy', ox')
    ensures b == b' && gi == gi' && coi == coi' && oy == oy' && ox == ox'
  {
    var n := g.hOut * g.wOut;
    Bound(oy, g.hOut, ox, g.wOut); Bound(oy', g.hOut, ox', g.wOut);
    PosInjective((b * g.groups + gi) * g.cOutG + coi, oy * g.wOut + ox,
                 (b' * g.groups + gi') * g.cOutG + coi', oy' * g.wOut + ox', n);
    PosInjective(oy, ox, oy', ox', g.wOut);
    PosInjective(b * g.groups + gi, coi, b' * g.groups + gi', coi', g.cOutG);
    PosInjective(b, gi, b', gi', g.groups);
  }

  /** `IsConv` leaves no freedom: two buffers that satisfy it are equal. */
  lemma ConvUnique(out: seq<int>, out': seq<int>, g: Geometry, x: View4, k: View4, bias: Option<seq<int>>)
    requires IsConv(out, g, x, k, bias) && IsConv(out', g, x, k, bias)
    ensures out == out'
  {
    forall p | 0 <= p < |out| ensures out[p] == out'[p] {
      var b, gi, coi, oy, ox := PixelOf(g, p);
    }
  }

  /** The value the digits of a position ask for. */
  ghost function ConvCell(g: Geometry, x: View4, k: View4, bias: Option<seq<int>>, p: int): int {
    var plane, pix := Hi(p, g.hOut * g.wOut), Lo(p, g.hOut * g.wOut);
    var bg := Hi(plane, g.cOutG);
    BiasedAt(g, x, k, bias, Hi(bg, g.groups), Lo(bg, g.groups), Lo(plane, g.cOutG), Hi(pix, g.wOut), Lo(pix, g.wOut))
  }

  /** The output buffer as a value. */
  ghost function Conv(g: Geometry, x: View4, k: View4, bias: Option<seq<int>>): seq<int> {
    seq(OutLen(g), p => ConvCell(g, x, k, bias, p))
  }

  lemma OutDigits(g: Geometry, b: int, gi: int, coi: int, oy: int, ox: int)
    requires Pixel(g, b, gi, coi, oy, ox)
    ensures var p, n, bg := OutPos(g, b, gi, coi, oy, ox), g.hOut * g.wOut, b * g.groups + gi;
            && Hi(p, n) == bg * g.cOutG + coi && Lo(p, n) == oy * g.wOut + ox
            && Hi(bg * g.cOutG + coi, g.cOutG) == bg && Lo(bg * g.cOutG + coi, g.cOutG) == coi
  {
    var bg := b * g.groups + gi;
    Bound(oy, g.hOut, ox, g.wOut);
    Bound(b, g.batch, gi, g.groups);
    Bound(bg, g.batch * g.groups, coi, g.cOutG);
    DivMod(bg, coi, g.cOutG);
    DivMod(bg * g.cOutG + coi, oy * g.wOut + ox, g.hOut * g.wOut);
  }

  lemma ConvAtPos(g: Geometry, x: View4, k: View4, bias: Option<seq<int>>, b: int, gi: int, coi: int, oy: int, ox: int)
    requires Pixel(g, b, gi, coi, oy, ox)
    ensures ConvCell(g, x, k, bias, OutPos(g, b, gi, coi, oy, ox)) == BiasedAt(g, x, k, bias, b, gi, coi, oy, ox)
  {
    OutDigits(g, b, gi, coi, oy, ox);
    DivMod(oy, ox, g.wOut);
    DivMod(b, gi, g.groups);
  }

  lemma ConvIsConv(g: Geometry, x: View4, k: View4, bias: Option<seq<int>>)
    ensures IsConv(Conv(g, x, k, bias), g, x, k, bias)
  {
    forall b, gi, coi, oy, ox | Pixel(g, b, gi, coi, oy, ox)
      ensures 0 <= OutPos(g, b, gi, coi, oy, ox) < OutLen(g)
      ensures Conv(g, x, k, bias)[OutPos(g, b, gi, coi, oy, ox)] == BiasedAt(g, x, k, bias, b, gi, coi, oy, ox)
    {
      OutPosBound(g, b, gi, coi, oy, ox);
      ConvAtPos(g, x, k, bias, b, gi, coi, oy, ox);
    }
  }

  /** Row-major strides read at the Horner form of the coordinates. */
  lemma RowMajorGet(data: seq<int>, d0: int, d1: int, d2: int, d3: int, a: int, b: int, c: int, d: int)
    requires 0 <= a < d0 && 0 <= b < d1 && 0 <= c < d2 && 0 <= d < d3
    requires |data| == d0 * d1 * d2 * d3
    ensures 0 <= ((a * d1 + b) * d2 + c) * d3 + d < |data|
    ensures RowMajor4(data, d1, d2, d3).Get(a, b, c, d) == data[((a * d1 + b) * d2 + c) * d3 + d]
  {
    Bound(a, d0, b, d1);
    Bound(a * d1 + b, d0 * d1, c, d2);
    Bound((a * d1 + b) * d2 + c, d0 * d1 * d2, d, d3);
    Dist(a * d1, b, d2);
    Dist((a * d1 + b) * d2, c, d3);
    Dist(a * d1 * d2, b * d2, d3);
    Mul3(a, d1 * d2, d3); Mul3(a, d1, d2); Mul3(b, d2, d3);
  }

  /** The same position written as the nest of loops computes it. */
  lemma OutPosHorner(g: Geometry, b: int, gi: int, coi: int, oy: int, ox: int)
    ensures ((b * g.COut() + (gi * g.cOutG + coi)) * g.hOut + oy) * g.wOut + ox == OutPos(g, b, gi, coi, oy, ox)
  {
    Horner3(b, gi, coi, g.groups, g.cOutG);
    Horner3((b * g.groups + gi) * g.cOutG + coi, oy, ox, g.hOut, g.wOut);
  }
}
