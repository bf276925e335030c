/** `Im2Col` of the CPU backend: one row of patches per output pixel. */
module Im2ColKernel {
  import opened Radix
  import opened ConvSpec
  import opened Conv2dShapes

  /** The row of output pixel `(b, oy, ox)` and the place of a tap in it. */
  function ColRow(g: Geometry, b: int, oy: int, ox: int): int { (b * g.hOut + oy) * g.wOut + ox }
  function TapPos(g: Geometry, ci: int, ky: int, kx: int): int { (ci * g.kH + ky) * g.kW + kx }

  function ColPos(g: Geometry, b: int, oy: int, ox: int, ci: int, ky: int, kx: int): int {
    ColRow(g, b, oy, ox) * g.Taps() + TapPos(g, ci, ky, kx)
  }

  predicate ColCell(g: Geometry, b: int, oy: int, ox: int, ci: int, ky: int, kx: int) {
    0 <= b < g.batch && 0 <= oy < g.hOut && 0 <= ox < g.wOut && 0 <= ci < g.cInG && 0 <= ky < g.kH && 0 <= kx < g.kW
  }

  ghost function ColLen(g: Geometry): nat { (g.batch * g.hOut) * g.wOut * (g.cInG * g.kH * g.kW) }

  /** The matrix `[batch * hOut * wOut, cIn * kH * kW]` of patches. */
  ghost predicate IsIm2Col(col: seq<int>, g: Geometry, x: View4) {
    && |col| == ColLen(g)
    && forall b, oy, ox, ci, ky, kx :: ColCell(g, b, oy, ox, ci, ky, kx)
         ==> 0 <= ColPos(g, b, oy, ox, ci, ky, kx) < |col|
             && col[ColPos(g, b, oy, ox, ci, ky, kx)] == Patch(g, x, b, ci, oy, ox, ky, kx)
  }

  ghost function ColValue(g: Geometry, x: View4, p: int): int {
    var r, t := Hi(p, g.Taps()), Lo(p, g.Taps());
    var br, tr := Hi(r, g.wOut), Hi(t, g.kW);
    Patch(g, x, Hi(br, g.hOut), Hi(tr, g.kH), Lo(br, g.hOut), Lo(r, g.wOut), Lo(tr, g.kH), Lo(t, g.kW))
  }

  ghost function Col(g: Geometry, x: View4): seq<int> { seq(ColLen(g), p => ColValue(g, x, p)) }

  lemma ColAt(g: Geometry, x: View4, b: int, oy: int, ox: int, ci: int, ky: int, kx: int)
    requires ColCell(g, b, oy, ox, ci, ky, kx)
    ensures 0 <= ColPos(g, b, oy, ox, ci, ky, kx) < ColLen(g)
    ensures ColValue(g, x, ColPos(g, b, oy, ox, ci, ky, kx)) == Patch(g, x, b, ci, oy, ox, ky, kx)
  {
    Bound(b, g.batch, oy, g.hOut);
    Bound(b * g.hOut + oy, g.batch * g.hOut, ox, g.wOut);
    Bound(ci, g.cInG, ky, g.kH);
    Bound(ci * g.kH + ky, g.cInG * g.kH, kx, g.kW);
    Bound(ColRow(g, b, oy, ox), (g.batch * g.hOut) * g.wOut, TapPos(g, ci, ky, kx), g.Taps());
    DivMod(ColRow(g, b, oy, ox), TapPos(g, ci, ky, kx), g.Taps());
    DivMod(b * g.hOut + oy, ox, g.wOut);
    DivMod(b, oy, g.hOut);
    DivMod(ci * g.kH + ky, kx, g.kW);
    DivMod(ci, ky, g.kH);
  }

  lemma ColIsIm2Col(g: Geometry, x: View4)
    ensures IsIm2Col(Col(g, x), g, x)
  {
    forall b, oy, ox, ci, ky, kx | ColCell(g, b, oy, ox, ci, ky, kx)
      ensures 0 <= ColPos(g, b, oy, ox, ci, ky, kx) < ColLen(g)
      ensures Col(g, x)[ColPos(g, b, oy, ox, ci, ky, kx)] == Patch(g, x, b, ci, oy, ox, ky, kx)
    {
      ColAt(g, x, b, oy, ox, ci, ky, kx);
    }
  }

  /** Without padding every tap of every output pixel lies in the input. */
  ghost predicate NoPadInside(g: Geometry) {
    && (g.padH == 0 ==> forall oy, ky :: 0 <= oy < g.hOut && 0 <= ky < g.kH ==> Reach(oy, g.strideH, ky, g.dilH) < g.h)
    && (g.padW == 0 ==> forall ox, kx :: 0 <= ox < g.wOut && 0 <= kx < g.kW ==> Reach(ox, g.strideW, kx, g.dilW) < g.w)
  }

  function Reach(o: int, stride: int, k: int, dil: int): int { o * stride + k * dil }

  lemma NoPad(n: nat, k: nat, stride: nat, dil: nat, o: int, j: int)
    requires stride >= 1 && k >= 1 && n >= dil * (k - 1) + 1
    requires 0 <= o < (n - dil * (k - 1) - 1) / stride + 1 && 0 <= j < k
    ensures Reach(o, stride, j, dil) < n
  {
    var top := n - dil * (k - 1) - 1;
    MulMono(o, top / stride, stride);
    assert top / stride * stride <= top;
    MulMono(j, k - 1, dil);
    assert (k - 1) * dil == dil * (k - 1);
  }

  lemma ParamsNoPad(p: ParamsConv2D)
    requires p.Valid()
    ensures NoPadInside(p.Geom())
  {
    var g := p.Geom();
    if p.padding == 0 {
      forall oy, ky | 0 <= oy < g.hOut && 0 <= ky < g.kH ensures Reach(oy, g.strideH, ky, g.dilH) < g.h {
        NoPad(p.iH, p.kH, p.stride, p.dilation, oy, ky);
      }
      forall ox, kx | 0 <= ox < g.wOut && 0 <= kx < g.kW ensures Reach(ox, g.strideW, kx, g.dilW) < g.w {
        NoPad(p.iW, p.kW, p.stride, p.dilation, ox, kx);
      }
    }
  }

  /** Cells before `n` are final, the others still zero. */
  ghost predicate Filled(col: seq<int>, spec: seq<int>, n: int) {
    |col| == |spec| && forall p :: 0 <= p < |col| ==> col[p] == if p < n then spec[p] else 0
  }

  /** What a tap reads: outside the padding an element, inside it nothing. */
  lemma TapRead(g: Geometry, x: View4, b: nat, oy: nat, ox: nat, ci: nat, ky: nat, kx: nat, srcH: int, srcW: int)
    requires Inside(x, g.batch, g.cInG, g.h, g.w) && NoPadInside(g) && ColCell(g, b, oy, ox, ci, ky, kx)
    requires srcH == Reach(oy, g.strideH, ky, g.dilH) && srcW == Reach(ox, g.strideW, kx, g.dilW)
    ensures var h, w := srcH - g.padH, srcW - g.padW;
            if (g.padH != 0 && (srcH < g.padH || srcH >= g.h + g.padH))
               || (g.padW != 0 && (srcW < g.padW || srcW >= g.w + g.padW))
            then Patch(g, x, b, ci, oy, ox, ky, kx) == 0
            else 0 <= ReadPos(x, b, ci, h, w) < |x.data|
                 && Patch(g, x, b, ci, oy, ox, ky, kx) == x.data[ReadPos(x, b, ci, h, w)]
  {
    MulMono(0, oy, g.strideH); MulMono(0, ky, g.dilH); MulMono(0, ox, g.strideW); MulMono(0, kx, g.dilW);
  }

  /** One tap of one output pixel, into cell `to`. */
  method Im2ColTap(g: Geometry, x: View4, b: nat, oy: nat, ox: nat, ci: nat, ky: nat, kx: nat, srcH: int, skip: bool,
          to: nat, col: array<int>, ghost spec: seq<int>)
    requires Inside(x, g.batch, g.cInG, g.h, g.w) && NoPadInside(g) && IsIm2Col(spec, g, x)
    requires ColCell(g, b, oy, ox, ci, ky, kx) && to == ColPos(g, b, oy, ox, ci, ky, kx)
    requires srcH == Reach(oy, g.strideH, ky, g.dilH)
    requires skip == (g.padH != 0 && (srcH < g.padH || srcH >= g.h + g.padH))
    requires Filled(col[..], spec, to)
    modifies col
    ensures Filled(col[..], spec, to + 1)
  {
    var srcW := ox * g.strideW + kx * g.dilW;
    TapRead(g, x, b, oy, ox, ci, ky, kx, srcH, srcW);
    assert spec[to] == Patch(g, x, b, ci, oy, ox, ky, kx);
    if !skip && !(g.padW != 0 && (srcW < g.padW || srcW >= g.w + g.padW)) {
      var srcIdx := ReadPos(x, b, ci, srcH - g.padH, srcW - g.padW);
      col[to] := x.data[srcIdx];
    }
  }

  /** One kernel row of one channel for one output pixel. */
  method Im2ColRow(g: Geometry, x: View4, b: nat, oy: nat, ox: nat, ci: nat, ky: nat, col: array<int>,
          ghost spec: seq<int>)
    requires Inside(x, g.batch, g.cInG, g.h, g.w) && NoPadInside(g) && IsIm2Col(spec, g, x)
    requires b < g.batch && oy < g.hOut && ox < g.wOut && ci < g.cInG && ky < g.kH
    requires Filled(col[..], spec, ColPos(g, b, oy, ox, ci, ky, 0))
    modifies col
    ensures Filled(col[..], spec, ColPos(g, b, oy, ox, ci, ky, g.kW))
  {
    var dstIdx := ColPos(g, b, oy, ox, ci, ky, 0);
    var srcH := oy * g.strideH + ky * g.dilH;
    var skip := g.padH != 0 && (srcH < g.padH || srcH >= g.h + g.padH);
    for kx := 0 to g.kW
      invariant Filled(col[..], spec, dstIdx + kx)
    {
      assert ColCell(g, b, oy, ox, ci, ky, kx) && ColPos(g, b, oy, ox, ci, ky, kx) == dstIdx + kx;
      Im2ColTap(g, x, b, oy, ox, ci, ky, kx, srcH, skip, dstIdx + kx, col, spec);
    }
  }

  lemma NextTap(g: Geometry, b: int, oy: int, ox: int, ci: int, ky: int)
    ensures ColPos(g, b, oy, ox, ci, ky + 1, 0) == ColPos(g, b, oy, ox, ci, ky, g.kW)
    ensures ColPos(g, b, oy, ox, ci + 1, 0, 0) == ColPos(g, b, oy, ox, ci, g.kH, 0)
    ensures ColPos(g, b, oy, ox + 1, 0, 0, 0) == ColPos(g, b, oy, ox, g.cInG, 0, 0)
    ensures ColPos(g, b, oy + 1, 0, 0, 0, 0) == ColPos(g, b, oy, g.wOut, 0, 0, 0)
    ensures ColPos(g, b + 1, 0, 0, 0, 0, 0) == ColPos(g, b, g.hOut, 0, 0, 0, 0)
  {
    Dist(ci * g.kH + ky, 1, g.kW);
    Dist(ci, 1, g.kH);
    Dist(ColRow(g, b, oy, ox), 1, g.Taps());
    Dist(b * g.hOut + oy, 1, g.wOut);
    Dist(b, 1, g.hOut);
  }

  /** The patch of one output pixel. */
  method Im2ColPixel(g: Geometry, x: View4, b: nat, oy: nat, ox: nat, col: array<int>, ghost spec: seq<int>)
    requires Inside(x, g.batch, g.cInG, g.h, g.w) && NoPadInside(g) && IsIm2Col(spec, g, x)
    requires b < g.batch && oy < g.hOut && ox < g.wOut
    requires Filled(col[..], spec, ColPos(g, b, oy, ox, 0, 0, 0))
    modifies col
    ensures Filled(col[..], spec, ColPos(g, b, oy, ox + 1, 0, 0, 0))
  {
    for ci := 0 to g.cInG
      invariant Filled(col[..], spec, ColPos(g, b, oy, ox, ci, 0, 0))
    {
      for ky := 0 to g.kH
        invariant Filled(col[..], spec, ColPos(g, b, oy, ox, ci, ky, 0))
      {
        Im2ColRow(g, x, b, oy, ox, ci, ky, col, spec);
        NextTap(g, b, oy, ox, ci, ky);
      }
      NextTap(g, b, oy, ox, ci, 0);
    }
    NextTap(g, b, oy, ox, 0, 0);
  }

  method Im2ColLoops(g: Geometry, x: View4, col: array<int>, ghost spec: seq<int>)
    requires Inside(x, g.batch, g.cInG, g.h, g.w) && NoPadInside(g) && IsIm2Col(spec, g, x)
    requires Filled(col[..], spec, 0)
    modifies col
    ensures Filled(col[..], spec, ColPos(g, g.batch, 0, 0, 0, 0, 0))
  {
    for b := 0 to g.batch
      invariant Filled(col[..], spec, ColPos(g, b, 0, 0, 0, 0, 0))
    {
      for oy := 0 to g.hOut
        invariant Filled(col[..], spec, ColPos(g, b, oy, 0, 0, 0, 0))
      {
        for ox := 0 to g.wOut
          invariant Filled(col[..], spec, ColPos(g, b, oy, ox, 0, 0, 0))
        {
          Im2ColPixel(g, x, b, oy, ox, col, spec);
        }
        NextTap(g, b, oy, 0, 0, 0);
      }
      NextTap(g, b, 0, 0, 0, 0);
    }
  }

  /** `Im2Col::f`. */
  method Im2Col(g: Geometry, x: View4) returns (out: seq<int>)
    requires Inside(x, g.batch, g.cInG, g.h, g.w) && NoPadInside(g)
    ensures IsIm2Col(out, g, x)
  {
    var col := new int[(g.batch * g.hOut) * g.wOut * (g.cInG * g.kH * g.kW)](_ => 0);
    ColIsIm2Col(g, x);
    Im2ColLoops(g, x, col, Col(g, x));
    out := col[..];
    assert out == Col(g, x);
  }
}
