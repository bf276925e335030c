/** The general convolution of the CPU backend: tiles of output pixels, one im2col and one
    matrix product per tile, tiles of all batch entries running in parallel. */
module Conv2dTiled {
  import opened Sums
  import opened Radix
  import opened Wrappers
  import opened Tables
  import opened Schedule
  import opened Layouts
  import opened ConvSpec
  import opened Gemm
  import opened Conv2dShapes

  /** The number of output pixels per tile. */
  const TILE_SIZE: nat := 512

  // ---------------------------------------------------------------- operand rearrangement

  ghost function Nhwc(v: View4): (int, int, int, int) -> int {
    (b, y, x, c) => v.Get(b, c, y, x)
  }

  ghost function FlatKernel(k: View4): (int, int, int, int) -> int {
    (co, ky, kx, c) => k.Get(co, c, ky, kx)
  }

  /** One row of it, appended in place. */
  method NhwcRow(g: Geometry, inp: View4, b: nat, y: nat, done: seq<int>, ghost spec: seq<int>) returns (cont: seq<int>)
    requires Inside(inp, g.batch, g.cInG, g.h, g.w) && IsTable(spec, g.batch, g.h, g.w, g.cInG, Nhwc(inp))
    requires b < g.batch && y < g.h && done <= spec && |done| == Pos4(b, y, 0, 0, g.h, g.w, g.cInG)
    ensures cont <= spec && |cont| == Pos4(b, y + 1, 0, 0, g.h, g.w, g.cInG)
  {
    cont := done;
    for x := 0 to g.w
      invariant cont <= spec && |cont| == Pos4(b, y, x, 0, g.h, g.w, g.cInG)
    {
      for c := 0 to g.cInG
        invariant cont <= spec && |cont| == Pos4(b, y, x, c, g.h, g.w, g.cInG)
      {
        var idx := ReadPos(inp, b, c, y, x);
        assert spec[Pos4(b, y, x, c, g.h, g.w, g.cInG)] == Nhwc(inp)(b, y, x, c);
        cont := cont + [inp.data[idx]];
      }
      Next4(b, y, x, g.h, g.w, g.cInG);
    }
    Next4(b, y, 0, g.h, g.w, g.cInG);
  }

  method ToNhwcLoops(g: Geometry, inp: View4, ghost spec: seq<int>) returns (cont: seq<int>)
    requires Inside(inp, g.batch, g.cInG, g.h, g.w) && IsTable(spec, g.batch, g.h, g.w, g.cInG, Nhwc(inp))
    ensures cont == spec
  {
    cont := [];
    for b := 0 to g.batch
      invariant cont <= spec && |cont| == Pos4(b, 0, 0, 0, g.h, g.w, g.cInG)
    {
      for y := 0 to g.h
        invariant cont <= spec && |cont| == Pos4(b, y, 0, 0, g.h, g.w, g.cInG)
      {
        cont := NhwcRow(g, inp, b, y, cont, spec);
      }
      Next4(b, 0, 0, g.h, g.w, g.cInG);
    }
  }

  /** The input, channels last. */
  method ToNhwc(g: Geometry, inp: View4) returns (cont: seq<int>)
    requires Inside(inp, g.batch, g.cInG, g.h, g.w)
    ensures IsTable(cont, g.batch, g.h, g.w, g.cInG, Nhwc(inp))
  {
    TableIsTable(g.batch, g.h, g.w, g.cInG, Nhwc(inp));
    cont := ToNhwcLoops(g, inp, Table(g.batch, g.h, g.w, g.cInG, Nhwc(inp)));
  }

  /** One row of it, appended in place. */
  method FlattenRow(g: Geometry, k: View4, co: nat, ky: nat, done: seq<int>, ghost spec: seq<int>)
          returns (flat: seq<int>)
    requires Inside(k, g.cOutG, g.cInG, g.kH, g.kW) && IsTable(spec, g.cOutG, g.kH, g.kW, g.cInG, FlatKernel(k))
    requires co < g.cOutG && ky < g.kH && done <= spec && |done| == Pos4(co, ky, 0, 0, g.kH, g.kW, g.cInG)
    ensures flat <= spec && |flat| == Pos4(co, ky + 1, 0, 0, g.kH, g.kW, g.cInG)
  {
    flat := done;
    for kx := 0 to g.kW
      invariant flat <= spec && |flat| == Pos4(co, ky, kx, 0, g.kH, g.kW, g.cInG)
    {
      for c := 0 to g.cInG
        invariant flat <= spec && |flat| == Pos4(co, ky, kx, c, g.kH, g.kW, g.cInG)
      {
        var idx := ReadPos(k, co, c, ky, kx);
        assert spec[Pos4(co, ky, kx, c, g.kH, g.kW, g.cInG)] == FlatKernel(k)(co, ky, kx, c);
        flat := flat + [k.data[idx]];
      }
      Next4(co, ky, kx, g.kH, g.kW, g.cInG);
    }
    Next4(co, ky, 0, g.kH, g.kW, g.cInG);
  }

  method FlattenKernelLoops(g: Geometry, k: View4, ghost spec: seq<int>) returns (flat: seq<int>)
    requires Inside(k, g.cOutG, g.cInG, g.kH, g.kW) && IsTable(spec, g.cOutG, g.kH, g.kW, g.cInG, FlatKernel(k))
    ensures flat == spec
  {
    flat := [];
    for co := 0 to g.cOutG
      invariant flat <= spec && |flat| == Pos4(co, 0, 0, 0, g.kH, g.kW, g.cInG)
    {
      for ky := 0 to g.kH
        invariant flat <= spec && |flat| == Pos4(co, ky, 0, 0, g.kH, g.kW, g.cInG)
      {
        flat := FlattenRow(g, k, co, ky, flat, spec);
      }
      Next4(co, 0, 0, g.kH, g.kW, g.cInG);
    }
  }

  /** The kernel as `[cOut, kH * kW * cIn]`. */
  method FlattenKernel(g: Geometry, k: View4) returns (flat: seq<int>)
    requires Inside(k, g.cOutG, g.cInG, g.kH, g.kW)
    ensures IsTable(flat, g.cOutG, g.kH, g.kW, g.cInG, FlatKernel(k))
  {
    TableIsTable(g.cOutG, g.kH, g.kW, g.cInG, FlatKernel(k));
    flat := FlattenKernelLoops(g, k, Table(g.cOutG, g.kH, g.kW, g.cInG, FlatKernel(k)));
  }

  // ---------------------------------------------------------------- one tile of im2col

  /** The tile's patch matrix: tap `(ky, kx, c)` of the `ti`-th output pixel of the tile. */
  ghost function ColFn(g: Geometry, x: View4, b: int, start: int): (int, int, int, int) -> int {
    (ky, kx, c, ti) => Patch(g, x, b, c, Hi(start + ti, g.wOut), Lo(start + ti, g.wOut), ky, kx)
  }

  /** Cells hold their final value or are still zero. */
  ghost predicate NeverWrong(col: seq<int>, spec: seq<int>) {
    |col| == |spec| && forall p :: 0 <= p < |col| ==> col[p] == 0 || col[p] == spec[p]
  }

  twostate predicate Keeps(col: array<int>, spec: seq<int>)
    requires col.Length == |spec|
    reads col
  {
    forall p :: 0 <= p < col.Length && old(col[p]) == spec[p] ==> col[p] == spec[p]
  }

  /** The position of input pixel `(b, iy, ix, c)` as the loop computes it. */
  method NhwcIndex(g: Geometry, b: nat, iy: nat, ix: nat, c: nat) returns (p: int)
    ensures p == Pos4(b, iy, ix, c, g.h, g.w, g.cInG)
  {
    var contS0, contS1, contS2 := g.h * g.w * g.cInG, g.w * g.cInG, g.cInG;
    p := b * contS0 + iy * contS1 + ix * contS2 + c;
    calc {
      Pos4(b, iy, ix, c, g.h, g.w, g.cInG);
      { Horner3(b * g.h + iy, ix, c, g.w, g.cInG); }
      (b * g.h + iy) * contS1 + (ix * contS2 + c);
      { Dist(b * g.h, iy, contS1); Mul3(b * g.h, g.w, g.cInG); Mul3(b, g.h * g.w, g.cInG); Mul3(b, g.h, g.w); }
      b * contS0 + iy * contS1 + (ix * contS2 + c);
    }
  }

  /** One kernel row of one channel for one output pixel; a row in the padding stays zero. */
  method ColRow(g: Geometry, x: View4, cont: seq<int>, b: nat, start: nat, ts: nat, ti: nat, oy: nat, ox: nat,
                c: nat, ky: nat, patchOffset: nat, col: array<int>, ghost spec: seq<int>) returns (next: nat)
    requires IsTable(cont, g.batch, g.h, g.w, g.cInG, Nhwc(x))
    requires IsTable(spec, g.kH, g.kW, g.cInG, ts, ColFn(g, x, b, start))
    requires b < g.batch && ti < ts && c < g.cInG && ky < g.kH && oy == Hi(start + ti, g.wOut)
    requires ox == Lo(start + ti, g.wOut)
    requires patchOffset == ky * g.kW * g.cInG + c && NeverWrong(col[..], spec)
    modifies col
    ensures NeverWrong(col[..], spec) && Keeps(col, spec)
    ensures next == (ky + 1) * g.kW * g.cInG + c
    ensures forall kx :: 0 <= kx < g.kW
              ==> col[Pos4(ky, kx, c, ti, g.kW, g.cInG, ts)] == spec[Pos4(ky, kx, c, ti, g.kW, g.cInG, ts)]
  {
    var inY := oy * g.strideH + ky * g.dilH - g.padH;
    if inY < 0 || inY >= g.h {
      next := patchOffset + g.cInG * g.kW;
      assert next == (ky + 1) * g.kW * g.cInG + c by { Dist(ky, 1, g.kW); Dist(ky * g.kW, g.kW, g.cInG); }
      forall kx | 0 <= kx < g.kW
        ensures col[Pos4(ky, kx, c, ti, g.kW, g.cInG, ts)] == spec[Pos4(ky, kx, c, ti, g.kW, g.cInG, ts)]
      {
        assert spec[Pos4(ky, kx, c, ti, g.kW, g.cInG, ts)] == ColFn(g, x, b, start)(ky, kx, c, ti);
      }
      return;
    }
    next := patchOffset;
    for kx := 0 to g.kW
      invariant next == (ky * g.kW + kx) * g.cInG + c
      invariant NeverWrong(col[..], spec) && Keeps(col, spec)
      invariant forall kx' :: 0 <= kx' < kx
                  ==> col[Pos4(ky, kx', c, ti, g.kW, g.cInG, ts)] == spec[Pos4(ky, kx', c, ti, g.kW, g.cInG, ts)]
    {
      var inX := ox * g.strideW + kx * g.dilW - g.padW;
      assert spec[Pos4(ky, kx, c, ti, g.kW, g.cInG, ts)] == ColFn(g, x, b, start)(ky, kx, c, ti);
      if 0 <= inX < g.w {
        var inpIdx := NhwcIndex(g, b, inY, inX, c);
        assert cont[inpIdx] == Nhwc(x)(b, inY, inX, c);
        var colIdx := next * ts + ti;
        col[colIdx] := cont[inpIdx];
      }
      Dist(ky * g.kW + kx, 1, g.cInG);
      next := next + g.cInG;
    }
    Dist(ky, 1, g.kW);
  }

  /** Column `ti` of the tile is finished for channels before `c`. */
  ghost predicate ColumnDone(col: seq<int>, spec: seq<int>, g: Geometry, ts: int, ti: int, c: int) {
    && |col| == |spec|
    && forall ky, kx, c' :: 0 <= ky < g.kH && 0 <= kx < g.kW && 0 <= c' < c
         ==> 0 <= Pos4(ky, kx, c', ti, g.kW, g.cInG, ts) < |spec|
             && col[Pos4(ky, kx, c', ti, g.kW, g.cInG, ts)] == spec[Pos4(ky, kx, c', ti, g.kW, g.cInG, ts)]
  }

  /** All taps of one channel for one output pixel. */
  method ColChannel(g: Geometry, x: View4, cont: seq<int>, b: nat, start: nat, ts: nat, ti: nat, oy: nat, ox: nat,
                    c: nat, col: array<int>, ghost spec: seq<int>)
    requires IsTable(cont, g.batch, g.h, g.w, g.cInG, Nhwc(x))
    requires IsTable(spec, g.kH, g.kW, g.cInG, ts, ColFn(g, x, b, start))
    requires b < g.batch && ti < ts && c < g.cInG && oy == Hi(start + ti, g.wOut) && ox == Lo(start + ti, g.wOut)
    requires NeverWrong(col[..], spec)
    modifies col
    ensures NeverWrong(col[..], spec) && Keeps(col, spec)
    ensures forall ky, kx :: 0 <= ky < g.kH && 0 <= kx < g.kW
              ==> col[Pos4(ky, kx, c, ti, g.kW, g.cInG, ts)] == spec[Pos4(ky, kx, c, ti, g.kW, g.cInG, ts)]
  {
    var patchOffset := c;
    for ky := 0 to g.kH
      invariant patchOffset == ky * g.kW * g.cInG + c
      invariant NeverWrong(col[..], spec) && Keeps(col, spec)
      invariant forall ky', kx :: 0 <= ky' < ky && 0 <= kx < g.kW
                  ==> col[Pos4(ky', kx, c, ti, g.kW, g.cInG, ts)] == spec[Pos4(ky', kx, c, ti, g.kW, g.cInG, ts)]
    {
      patchOffset := ColRow(g, x, cont, b, start, ts, ti, oy, ox, c, ky, patchOffset, col, spec);
    }
  }

  /** All taps of one output pixel. */
  method ColPixel(g: Geometry, x: View4, cont: seq<int>, b: nat, start: nat, ts: nat, ti: nat, oy: nat, ox: nat,
                  col: array<int>, ghost spec: seq<int>)
    requires IsTable(cont, g.batch, g.h, g.w, g.cInG, Nhwc(x))
    requires IsTable(spec, g.kH, g.kW, g.cInG, ts, ColFn(g, x, b, start))
    requires b < g.batch && ti < ts && oy == Hi(start + ti, g.wOut) && ox == Lo(start + ti, g.wOut)
    requires NeverWrong(col[..], spec)
    modifies col
    ensures NeverWrong(col[..], spec) && Keeps(col, spec) && ColumnDone(col[..], spec, g, ts, ti, g.cInG)
  {
    for c := 0 to g.cInG
      invariant NeverWrong(col[..], spec) && Keeps(col, spec) && ColumnDone(col[..], spec, g, ts, ti, c)
    {
      ColChannel(g, x, cont, b, start, ts, ti, oy, ox, c, col, spec);
    }
  }

  /** The im2col tile of output pixels `start..start + ts`. */
  method BuildCol(g: Geometry, x: View4, cont: seq<int>, b: nat, start: nat, ts: nat) returns (tile: seq<int>)
    requires IsTable(cont, g.batch, g.h, g.w, g.cInG, Nhwc(x)) && b < g.batch && g.wOut >= 1
    ensures IsTable(tile, g.kH, g.kW, g.cInG, ts, ColFn(g, x, b, start))
  {
    ghost var spec := Table(g.kH, g.kW, g.cInG, ts, ColFn(g, x, b, start));
    TableIsTable(g.kH, g.kW, g.cInG, ts, ColFn(g, x, b, start));
    tile := ColLoops(g, x, cont, b, start, ts, spec);
  }

  /** Columns before `ti` of the tile are finished. */
  ghost predicate TileDone(col: seq<int>, spec: seq<int>, g: Geometry, ts: int, ti: int) {
    |col| == |spec| && forall t :: 0 <= t < ti ==> ColumnDone(col, spec, g, ts, t, g.cInG)
  }

  lemma TileStep(before: seq<int>, after: seq<int>, spec: seq<int>, g: Geometry, ts: int, ti: int)
    requires TileDone(before, spec, g, ts, ti) && |after| == |spec| && ColumnDone(after, spec, g, ts, ti, g.cInG)
    requires forall p :: 0 <= p < |spec| && before[p] == spec[p] ==> after[p] == spec[p]
    ensures TileDone(after, spec, g, ts, ti + 1)
  {
    forall t | 0 <= t < ti ensures ColumnDone(after, spec, g, ts, t, g.cInG) {
      assert ColumnDone(before, spec, g, ts, t, g.cInG);
    }
  }

  lemma TileIsTable(tile: seq<int>, spec: seq<int>, g: Geometry, ts: int, f: (int, int, int, int) -> int)
    requires IsTable(spec, g.kH, g.kW, g.cInG, ts, f) && TileDone(tile, spec, g, ts, ts)
    ensures IsTable(tile, g.kH, g.kW, g.cInG, ts, f)
  {
    forall ky, kx, c, ti | 0 <= ky < g.kH && 0 <= kx < g.kW && 0 <= c < g.cInG && 0 <= ti < ts
      ensures 0 <= Pos4(ky, kx, c, ti, g.kW, g.cInG, ts) < |tile|
              && tile[Pos4(ky, kx, c, ti, g.kW, g.cInG, ts)] == f(ky, kx, c, ti)
    {
      assert ColumnDone(tile, spec, g, ts, ti, g.cInG);
    }
  }

  /** `(idx / out_w, idx % out_w)`. */
  method OutCoords(idx: nat, wOut: nat) returns (oy: nat, ox: nat)
    requires wOut >= 1
    ensures oy == Hi(idx, wOut) && ox == Lo(idx, wOut)
  {
    HiLoIsDivMod(idx, wOut);
    oy, ox := idx / wOut, idx % wOut;
  }

  method ColLoops(g: Geometry, x: View4, cont: seq<int>, b: nat, start: nat, ts: nat, ghost spec: seq<int>)
          returns (tile: seq<int>)
    requires IsTable(cont, g.batch, g.h, g.w, g.cInG, Nhwc(x)) && b < g.batch && g.wOut >= 1
    requires IsTable(spec, g.kH, g.kW, g.cInG, ts, ColFn(g, x, b, start))
    ensures IsTable(tile, g.kH, g.kW, g.cInG, ts, ColFn(g, x, b, start))
  {
    var col := new int[g.kH * g.kW * g.cInG * ts](_ => 0);
    for ti := 0 to ts
      invariant NeverWrong(col[..], spec) && TileDone(col[..], spec, g, ts, ti)
    {
      var oy, ox := OutCoords(start + ti, g.wOut);
      ghost var before := col[..];
      ColPixel(g, x, cont, b, start, ts, ti, oy, ox, col, spec);
      TileStep(before, col[..], spec, g, ts, ti);
    }
    tile := col[..];
    TileIsTable(tile, spec, g, ts, ColFn(g, x, b, start));
  }

  // ---------------------------------------------------------------- one tile of output

  /** The K axis runs over taps channel-last; the sum is the convolution all the same. */
  lemma TileDotIsConv(g: Geometry, x: View4, k: View4, flat: seq<int>, tile: seq<int>, b: int, start: int, ts: nat,
          co: int, ti: int)
    requires IsTable(flat, g.cOutG, g.kH, g.kW, g.cInG, FlatKernel(k))
    requires IsTable(tile, g.kH, g.kW, g.cInG, ts, ColFn(g, x, b, start))
    requires 0 <= co < g.cOutG && 0 <= ti < ts
    ensures DotAt(flat, co * (g.kH * g.kW * g.cInG), 1, tile, ti, ts, g.kH * g.kW * g.cInG)
            == ConvAt(g, x, k, b, 0, co, Hi(start + ti, g.wOut), Lo(start + ti, g.wOut))
  {
    var K := g.kH * g.kW * g.cInG;
    var tap := Tap(g, x, k, b, 0, co, Hi(start + ti, g.wOut), Lo(start + ti, g.wOut));
    var f := DotTerm(flat, co * K, 1, tile, ti, ts);
    forall ky, kx, c | 0 <= ky < g.kH && 0 <= kx < g.kW && 0 <= c < g.cInG
      ensures Rotate(tap)(ky, kx, c) == f((ky * g.kW + kx) * g.cInG + c)
    {
      TapLinesUp(g, x, k, flat, tile, b, start, ts, co, ti, ky, kx, c);
    }
    SumFlatten3(g.kH, g.kW, g.cInG, f, Rotate(tap));
    SumRotate(g.cInG, g.kH, g.kW, tap);
  }

  lemma TapLinesUp(g: Geometry, x: View4, k: View4, flat: seq<int>, tile: seq<int>, b: int, start: int, ts: nat,
          co: int, ti: int,
                   ky: int, kx: int, c: int)
    requires IsTable(flat, g.cOutG, g.kH, g.kW, g.cInG, FlatKernel(k))
    requires IsTable(tile, g.kH, g.kW, g.cInG, ts, ColFn(g, x, b, start))
    requires 0 <= co < g.cOutG && 0 <= ti < ts && 0 <= ky < g.kH && 0 <= kx < g.kW && 0 <= c < g.cInG
    ensures var t := (ky * g.kW + kx) * g.cInG + c;
            At(flat, co * (g.kH * g.kW * g.cInG) + t * 1) * At(tile, ti + t * ts)
            == Patch(g, x, b, 0 * g.cInG + c, Hi(start + ti, g.wOut), Lo(start + ti, g.wOut), ky, kx)
               * k.Get(0 * g.cOutG + co, c, ky, kx)
  {
    var t := (ky * g.kW + kx) * g.cInG + c;
    assert flat[Pos4(co, ky, kx, c, g.kH, g.kW, g.cInG)] == FlatKernel(k)(co, ky, kx, c);
    assert tile[Pos4(ky, kx, c, ti, g.kW, g.cInG, ts)] == ColFn(g, x, b, start)(ky, kx, c, ti);
    KernelPos(g, co, ky, kx, c);
  }

  lemma KernelPos(g: Geometry, co: int, ky: int, kx: int, c: int)
    ensures Pos4(co, ky, kx, c, g.kH, g.kW, g.cInG) == co * (g.kH * g.kW * g.cInG) + ((ky * g.kW + kx) * g.cInG + c)
  {
    Horner3(co, ky, kx, g.kH, g.kW);
    Horner3(co, ky * g.kW + kx, c, g.kH * g.kW, g.cInG);
  }

  /** Where channel `co` of the `idx`-th output pixel of batch entry `b` is stored. */
  function StorePos(g: Geometry, b: int, co: int, idx: int): int {
    b * (g.cOutG * (g.hOut * g.wOut)) + idx + co * (g.hOut * g.wOut)
  }

  lemma StorePosIsOutPos(g: Geometry, b: int, co: int, idx: int)
    requires g.groups == 1 && 0 <= b < g.batch && 0 <= co < g.cOutG && 0 <= idx < g.Pixels()
    ensures Pixel(g, b, 0, co, Hi(idx, g.wOut), Lo(idx, g.wOut))
    ensures StorePos(g, b, co, idx) == OutPos(g, b, 0, co, Hi(idx, g.wOut), Lo(idx, g.wOut))
  {
    DivBound(idx, g.hOut, g.wOut);
    Horner3(b, co, 0, g.cOutG, g.hOut * g.wOut);
    Dist(b * g.cOutG, co, g.hOut * g.wOut);
  }

  /** Store number `ti * cOut + co` of the tile puts the final value of its pixel. */
  ghost predicate StoreOk(w: seq<Write>, g: Geometry, spec: seq<int>, b: int, start: int, ti: int, co: int) {
    && 0 <= Pos(ti, g.cOutG, co) < |w|
    && w[Pos(ti, g.cOutG, co)] == Write(StorePos(g, b, co, start + ti), At(spec, StorePos(g, b, co, start + ti)))
  }

  /** Later stores leave earlier ones in place. */
  lemma StoresStay(w: seq<Write>, w': seq<Write>, g: Geometry, spec: seq<int>, b: int, start: int)
    requires w <= w'
    ensures forall ti, co :: StoreOk(w, g, spec, b, start, ti, co) ==> StoreOk(w', g, spec, b, start, ti, co)
  {}

  /** The stores of one tile, pixel by pixel and channel by channel. */
  ghost predicate TaskOk(w: seq<Write>, g: Geometry, spec: seq<int>, b: int, start: int, ts: int) {
    && |w| == ts * g.cOutG
    && forall ti, co :: 0 <= ti < ts && 0 <= co < g.cOutG ==> StoreOk(w, g, spec, b, start, ti, co)
  }

  /** The stores of one pixel: a column of the tile's product. */
  method StorePixel(g: Geometry, result: seq<int>, b: nat, start: nat, ts: nat, ti: nat, oy: nat, ox: nat,
                    done: seq<Write>, ghost spec: seq<int>) returns (w: seq<Write>)
    requires ti < ts && |done| == ti * g.cOutG && oy * g.wOut + ox == start + ti
    requires forall co :: 0 <= co < g.cOutG
               ==> 0 <= Pos(co, ts, ti) < |result|
                   && result[Pos(co, ts, ti)] == At(spec, StorePos(g, b, co, start + ti))
    ensures |w| == (ti + 1) * g.cOutG && done <= w
    ensures forall co :: 0 <= co < g.cOutG ==> StoreOk(w, g, spec, b, start, ti, co)
  {
    w := done;
    var outBatchOffset := b * (g.cOutG * (g.hOut * g.wOut));
    var dstBase := outBatchOffset + oy * g.wOut + ox;
    for co := 0 to g.cOutG
      invariant |w| == ti * g.cOutG + co && done <= w
      invariant forall co' :: 0 <= co' < co ==> StoreOk(w, g, spec, b, start, ti, co')
    {
      var dstIdx := dstBase + co * (g.hOut * g.wOut);
      assert dstIdx == StorePos(g, b, co, start + ti);
      ghost var before := w;
      w := w + [Write(dstIdx, result[Pos(co, ts, ti)])];
      StoresStay(before, w, g, spec, b, start);
    }
    Dist(ti, 1, g.cOutG);
  }

  /** The value of a store is the convolution at its pixel. */
  lemma ResultCell(g: Geometry, x: View4, k: View4, flat: seq<int>, tile: seq<int>, result: seq<int>, spec: seq<int>,
                   b: int, start: int, ts: nat, co: int, ti: int)
    requires IsTable(flat, g.cOutG, g.kH, g.kW, g.cInG, FlatKernel(k))
    requires IsTable(tile, g.kH, g.kW, g.cInG, ts, ColFn(g, x, b, start))
    requires IsProd(result, flat, tile, g.cOutG, ts, g.kH * g.kW * g.cInG) && IsConv(spec, g, x, k, None)
    requires g.groups == 1 && 0 <= b < g.batch && 0 <= co < g.cOutG && 0 <= ti < ts && 0 <= start
    requires start + ts <= g.Pixels()
    ensures 0 <= Pos(co, ts, ti) < |result| && result[Pos(co, ts, ti)] == At(spec, StorePos(g, b, co, start + ti))
  {
    TileDotIsConv(g, x, k, flat, tile, b, start, ts, co, ti);
    StorePosIsOutPos(g, b, co, start + ti);
  }

  /** One parallel task: the stores of tile `start..start + ts` of batch entry `b`. */
  method TileTask(g: Geometry, x: View4, ghost k: View4, cont: seq<int>, flat: seq<int>, b: nat, start: nat, ts: nat,
                  numThreads: nat, ghost spec: seq<int>) returns (w: seq<Write>)
    requires IsTable(cont, g.batch, g.h, g.w, g.cInG, Nhwc(x))
    requires IsTable(flat, g.cOutG, g.kH, g.kW, g.cInG, FlatKernel(k))
    requires IsConv(spec, g, x, k, None) && g.groups == 1 && g.wOut >= 1 && b < g.batch && start + ts <= g.Pixels()
    ensures TaskOk(w, g, spec, b, start, ts)
  {
    var kSize := g.kH * g.kW * g.cInG;
    var tile := BuildCol(g, x, cont, b, start, ts);
    KernelLen(g);
    var result := MatMulContiguous(g.cOutG, ts, kSize, flat, tile, numThreads);
    forall ti, co | 0 <= ti < ts && 0 <= co < g.cOutG
      ensures 0 <= Pos(co, ts, ti) < |result| && result[Pos(co, ts, ti)] == At(spec, StorePos(g, b, co, start + ti))
    {
      ResultCell(g, x, k, flat, tile, result, spec, b, start, ts, co, ti);
    }
    w := StoreTile(g, result, b, start, ts, spec);
  }

  lemma KernelLen(g: Geometry)
    ensures g.cOutG * g.kH * g.kW * g.cInG == g.cOutG * (g.kH * g.kW * g.cInG)
  {
    Mul3(g.cOutG, g.kH * g.kW, g.cInG);
    Mul3(g.cOutG, g.kH, g.kW);
  }

  method StoreTile(g: Geometry, result: seq<int>, b: nat, start: nat, ts: nat, ghost spec: seq<int>)
          returns (w: seq<Write>)
    requires g.wOut >= 1
    requires forall ti, co :: 0 <= ti < ts && 0 <= co < g.cOutG
               ==> 0 <= Pos(co, ts, ti) < |result|
                   && result[Pos(co, ts, ti)] == At(spec, StorePos(g, b, co, start + ti))
    ensures TaskOk(w, g, spec, b, start, ts)
  {
    w := [];
    for ti := 0 to ts
      invariant |w| == ti * g.cOutG
      invariant forall ti', co :: 0 <= ti' < ti && 0 <= co < g.cOutG ==> StoreOk(w, g, spec, b, start, ti', co)
    {
      var oy, ox := OutCoords(start + ti, g.wOut);
      HiLo(start + ti, g.wOut);
      ghost var before := w;
      w := StorePixel(g, result, b, start, ts, ti, oy, ox, w, spec);
      StoresStay(before, w, g, spec, b, start);
    }
  }

  // ---------------------------------------------------------------- all tiles

  /** `total.div_ceil(TILE_SIZE)`. */
  function NumTiles(pixels: nat): nat { (pixels + (TILE_SIZE - 1)) / TILE_SIZE }

  function TileLen(pixels: int, tile: int): int { Min(tile * TILE_SIZE + TILE_SIZE, pixels) - tile * TILE_SIZE }

  /** Task `b * tiles + tile` stores tile `tile` of batch entry `b`. */
  ghost predicate TasksOk(tasks: seq<seq<Write>>, g: Geometry, spec: seq<int>, tiles: nat) {
    |tasks| == g.batch * tiles && FirstTasksOk(tasks, g, spec, g.batch, tiles)
  }

  /** The tasks of the first `n` batch entries. */
  ghost predicate FirstTasksOk(tasks: seq<seq<Write>>, g: Geometry, spec: seq<int>, n: int, tiles: nat) {
    forall b, tile :: 0 <= b < n && 0 <= tile < tiles
      ==> 0 <= Pos(b, tiles, tile) < |tasks|
          && TaskOk(tasks[Pos(b, tiles, tile)], g, spec, b, tile * TILE_SIZE, TileLen(g.Pixels(), tile))
  }

  /** Store `j` of task `t` belongs to a pixel and a channel, and holds that pixel's value. */
  lemma StoreOf(tasks: seq<seq<Write>>, g: Geometry, x: View4, k: View4, spec: seq<int>, t: int, j: int)
    returns (b: int, tile: int, idx: int, co: int)
    requires TasksOk(tasks, g, spec, NumTiles(g.Pixels())) && IsConv(spec, g, x, k, None) && g.groups == 1
    requires 0 <= t < |tasks| && 0 <= j < |tasks[t]|
    ensures 0 <= b < g.batch && 0 <= co < g.cOutG && 0 <= idx < g.Pixels() && t == Pos(b, NumTiles(g.Pixels()), tile)
    ensures tile == idx / TILE_SIZE
    ensures tasks[t][j].index == StorePos(g, b, co, idx) && 0 <= tasks[t][j].index < |spec|
    ensures tasks[t][j].value == spec[tasks[t][j].index]
  {
    var tiles := NumTiles(g.Pixels());
    assert tiles > 0;
    DivBound(t, g.batch, tiles);
    b, tile := Hi(t, tiles), Lo(t, tiles);
    assert t == Pos(b, tiles, tile);
    var start, ts := tile * TILE_SIZE, TileLen(g.Pixels(), tile);
    assert TaskOk(tasks[t], g, spec, b, start, ts);
    assert g.cOutG > 0;
    DivBound(j, ts, g.cOutG);
    var ti := Hi(j, g.cOutG);
    co := Lo(j, g.cOutG);
    idx := start + ti;
    assert StoreOk(tasks[t], g, spec, b, start, ti, co);
    StorePosIsOutPos(g, b, co, idx);
  }

  lemma TasksFaithful(tasks: seq<seq<Write>>, g: Geometry, x: View4, k: View4, spec: seq<int>)
    requires TasksOk(tasks, g, spec, NumTiles(g.Pixels())) && IsConv(spec, g, x, k, None) && g.groups == 1
    ensures Faithful(tasks, spec)
  {
    forall t, j | 0 <= t < |tasks| && 0 <= j < |tasks[t]|
      ensures 0 <= tasks[t][j].index < |spec| && tasks[t][j].value == spec[tasks[t][j].index]
    {
      var b, tile, idx, co := StoreOf(tasks, g, x, k, spec, t, j);
    }
  }

  /** The unsafe stores of different tasks never meet. */
  lemma TasksDisjoint(tasks: seq<seq<Write>>, g: Geometry, x: View4, k: View4, spec: seq<int>)
    requires TasksOk(tasks, g, spec, NumTiles(g.Pixels())) && IsConv(spec, g, x, k, None) && g.groups == 1
    ensures Disjoint(tasks)
  {
    forall t, j, t', j' | 0 <= t < |tasks| && 0 <= j < |tasks[t]| && 0 <= t' < |tasks| && 0 <= j' < |tasks[t']|
                          && tasks[t][j].index == tasks[t'][j'].index
      ensures t == t'
    {
      var b, tile, idx, co := StoreOf(tasks, g, x, k, spec, t, j);
      var b', tile', idx', co' := StoreOf(tasks, g, x, k, spec, t', j');
      StorePosIsOutPos(g, b, co, idx);
      StorePosIsOutPos(g, b', co', idx');
      OutPosInjective(g, b, 0, co, Hi(idx, g.wOut), Lo(idx, g.wOut), b', 0, co', Hi(idx', g.wOut), Lo(idx', g.wOut));
      HiLo(idx, g.wOut);
      HiLo(idx', g.wOut);
    }
  }

  lemma TileOf(pixels: nat, idx: int)
    requires 0 <= idx < pixels
    ensures var tile, ti := idx / TILE_SIZE, idx % TILE_SIZE;
            0 <= tile < NumTiles(pixels) && 0 <= ti < TileLen(pixels, tile) && idx == tile * TILE_SIZE + ti
  {}

  /** Together all tasks store every pixel. */
  lemma TasksCover(tasks: seq<seq<Write>>, g: Geometry, spec: seq<int>)
    requires TasksOk(tasks, g, spec, NumTiles(g.Pixels())) && |spec| == OutLen(g) && g.groups == 1
    ensures Covers(tasks, |spec|)
  {
    forall p | 0 <= p < |spec| ensures Reached(tasks, p) {
      var b, gi, co, oy, ox := PixelOf(g, p);
      Bound(oy, g.hOut, ox, g.wOut);
      DivMod(oy, ox, g.wOut);
      PixelReached(tasks, g, spec, b, co, oy * g.wOut + ox);
    }
  }

  lemma PixelReached(tasks: seq<seq<Write>>, g: Geometry, spec: seq<int>, b: int, co: int, idx: int)
    requires TasksOk(tasks, g, spec, NumTiles(g.Pixels())) && g.groups == 1
    requires 0 <= b < g.batch && 0 <= co < g.cOutG && 0 <= idx < g.Pixels()
    ensures Reached(tasks, OutPos(g, b, 0, co, Hi(idx, g.wOut), Lo(idx, g.wOut)))
  {
    StorePosIsOutPos(g, b, co, idx);
    TileOf(g.Pixels(), idx);
    var tiles, tile, ti := NumTiles(g.Pixels()), idx / TILE_SIZE, idx % TILE_SIZE;
    var t := Pos(b, tiles, tile);
    assert TaskOk(tasks[t], g, spec, b, tile * TILE_SIZE, TileLen(g.Pixels(), tile));
    assert StoreOk(tasks[t], g, spec, b, tile * TILE_SIZE, ti, co);
    assert tasks[t][Pos(ti, g.cOutG, co)].index == StorePos(g, b, co, idx);
  }

  /** What the tiles of one batch entry store. */
  method BatchTasks(g: Geometry, x: View4, ghost k: View4, cont: seq<int>, flat: seq<int>, b: nat, tiles: nat,
                    numThreads: nat, done: seq<seq<Write>>, ghost spec: seq<int>) returns (tasks: seq<seq<Write>>)
    requires IsTable(cont, g.batch, g.h, g.w, g.cInG, Nhwc(x))
    requires IsTable(flat, g.cOutG, g.kH, g.kW, g.cInG, FlatKernel(k))
    requires IsConv(spec, g, x, k, None) && g.groups == 1 && g.wOut >= 1 && b < g.batch && tiles == NumTiles(g.Pixels())
    requires |done| == b * tiles
    ensures |tasks| == (b + 1) * tiles && done <= tasks
    ensures forall tile :: 0 <= tile < tiles
              ==> TaskOk(At2(tasks, Pos(b, tiles, tile)), g, spec, b, tile * TILE_SIZE, TileLen(g.Pixels(), tile))
  {
    tasks := done;
    for tile := 0 to tiles
      invariant |tasks| == b * tiles + tile && done <= tasks
      invariant forall t :: 0 <= t < tile
                  ==> TaskOk(At2(tasks, Pos(b, tiles, t)), g, spec, b, t * TILE_SIZE, TileLen(g.Pixels(), t))
    {
      var tileStart := tile * TILE_SIZE;
      var tileEnd := Min(tileStart + TILE_SIZE, g.Pixels());
      var w := TileTask(g, x, k, cont, flat, b, tileStart, tileEnd - tileStart, numThreads, spec);
      tasks := tasks + [w];
    }
    Dist(b, 1, tiles);
  }

  ghost function At2(tasks: seq<seq<Write>>, t: int): seq<Write> {
    if 0 <= t < |tasks| then tasks[t] else []
  }

  method AllTasks(g: Geometry, x: View4, ghost k: View4, cont: seq<int>, flat: seq<int>, numThreads: nat,
          ghost spec: seq<int>)
    returns (tasks: seq<seq<Write>>)
    requires IsTable(cont, g.batch, g.h, g.w, g.cInG, Nhwc(x))
    requires IsTable(flat, g.cOutG, g.kH, g.kW, g.cInG, FlatKernel(k))
    requires IsConv(spec, g, x, k, None) && g.groups == 1 && g.wOut >= 1
    ensures TasksOk(tasks, g, spec, NumTiles(g.Pixels()))
  {
    var tiles := NumTiles(g.hOut * g.wOut);
    tasks := [];
    for b := 0 to g.batch
      invariant |tasks| == b * tiles && FirstTasksOk(tasks, g, spec, b, tiles)
    {
      ghost var before := tasks;
      tasks := BatchTasks(g, x, k, cont, flat, b, tiles, numThreads, tasks, spec);
      TasksNext(before, tasks, g, spec, b, tiles);
    }
  }

  lemma TasksNext(before: seq<seq<Write>>, tasks: seq<seq<Write>>, g: Geometry, spec: seq<int>, b: nat, tiles: nat)
    requires |before| == b * tiles && |tasks| == (b + 1) * tiles && before <= tasks
    requires FirstTasksOk(before, g, spec, b, tiles)
    requires forall tile :: 0 <= tile < tiles
               ==> TaskOk(At2(tasks, Pos(b, tiles, tile)), g, spec, b, tile * TILE_SIZE, TileLen(g.Pixels(), tile))
    ensures FirstTasksOk(tasks, g, spec, b + 1, tiles)
  {
    forall b', tile | 0 <= b' < b + 1 && 0 <= tile < tiles
      ensures 0 <= Pos(b', tiles, tile) < |tasks|
              && TaskOk(tasks[Pos(b', tiles, tile)], g, spec, b', tile * TILE_SIZE, TileLen(g.Pixels(), tile))
    {
      Bound(b', b + 1, tile, tiles);
      if b' < b {
        assert tasks[Pos(b', tiles, tile)] == before[Pos(b', tiles, tile)];
      } else {
        assert At2(tasks, Pos(b, tiles, tile)) == tasks[Pos(b, tiles, tile)];
      }
    }
  }

  /** The tiled convolution: whatever order the stores of all tiles are made in, the output
      is the convolution. */
  method Conv2dTiled(p: ParamsConv2D, inp: seq<int>, inpL: Layout, k: seq<int>, kL: Layout, numThreads: nat)
          returns (r: Result<seq<int>>)
    requires |inpL.strides| == 4 && |kL.strides| == 4 && Fits(p, ViewOf(inp, inpL), ViewOf(k, kL))
    ensures if inpL.start <= |inp| && kL.start <= |k|
            then r.Ok? && IsConv(r.value, p.Geom(), ViewOf(inp, inpL), ViewOf(k, kL), None) else r == Err(OutOfBounds)
  {
    if inpL.start > |inp| || kL.start > |k| {
      return Err(OutOfBounds);
    }
    var out := TiledOnViews(p.Geom(), ViewOf(inp, inpL), ViewOf(k, kL), numThreads);
    r := Ok(out);
  }

  method TiledOnViews(g: Geometry, x: View4, k: View4, numThreads: nat) returns (out: seq<int>)
    requires Inside(x, g.batch, g.cInG, g.h, g.w) && Inside(k, g.cOutG, g.cInG, g.kH, g.kW) && g.groups == 1
    requires g.wOut >= 1
    ensures IsConv(out, g, x, k, None)
  {
    ghost var spec := Conv(g, x, k, None);
    ConvIsConv(g, x, k, None);
    var cont := ToNhwc(g, x);
    var flat := FlattenKernel(g, k);
    var tasks := AllTasks(g, x, k, cont, flat, numThreads, spec);
    TasksFaithful(tasks, g, x, k, spec);
    TasksCover(tasks, g, spec);
    TasksDisjoint(tasks, g, x, k, spec);
    var dst := new int[OutCount(g)](_ => 0);
    RunInterleaved(tasks, dst, spec);
    out := dst[..];
  }

  function OutCount(g: Geometry): (n: nat)
    ensures n == OutLen(g)
  {
    (g.batch * g.groups) * g.cOutG * (g.hOut * g.wOut)
  }
}
