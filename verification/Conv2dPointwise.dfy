/** 1x1 convolutions with unit stride and dilation and no padding: one matrix product per
    batch entry, batch entries in parallel. */
module Conv2dPointwise {
  import opened Sums
  import opened Radix
  import opened Wrappers
  import opened Tables
  import opened Schedule
  import opened ConvSpec
  import opened Gemm
  import opened Conv2dShapes

  /** The parameters that select this kernel. */
  predicate Plain(g: Geometry) {
    && g.groups == 1 && g.kH == 1 && g.kW == 1 && g.strideH == 1 && g.strideW == 1 && g.padH == 0 && g.padW == 0
    && g.hOut == g.h && g.wOut == g.w
  }

  /** The kernel as a matrix `[cOut, cIn]`. */
  ghost predicate IsKernelMatrix(kr: seq<int>, g: Geometry, k: View4) {
    && |kr| == g.cOutG * g.cInG
    && forall co, ci :: 0 <= co < g.cOutG && 0 <= ci < g.cInG
         ==> 0 <= Pos(co, g.cInG, ci) < |kr| && kr[Pos(co, g.cInG, ci)] == k.Get(co, ci, 0, 0)
  }

  /** A packed kernel is used where it lies; any other is gathered row by row. */
  method ReshapeKernel(g: Geometry, k: View4) returns (kr: seq<int>)
    requires Inside(k, g.cOutG, g.cInG, 1, 1) && 0 <= k.start <= |k.data|
    ensures IsKernelMatrix(kr, g, k)
  {
    if k.s0 == g.cInG && k.s1 == 1 {
      PackedKernel(g, k);
      kr := k.data[k.start..k.start + g.cOutG * g.cInG];
    } else {
      kr := [];
      for co := 0 to g.cOutG
        invariant |kr| == co * g.cInG
        invariant forall co', ci :: 0 <= co' < co && 0 <= ci < g.cInG
                    ==> 0 <= Pos(co', g.cInG, ci) < |kr| && kr[Pos(co', g.cInG, ci)] == k.Get(co', ci, 0, 0)
      {
        kr := KernelRow(g, k, co, kr);
      }
    }
  }

  lemma PackedKernel(g: Geometry, k: View4)
    requires Inside(k, g.cOutG, g.cInG, 1, 1) && 0 <= k.start <= |k.data| && k.s0 == g.cInG && k.s1 == 1
    ensures k.start + g.cOutG * g.cInG <= |k.data|
    ensures IsKernelMatrix(k.data[k.start..k.start + g.cOutG * g.cInG], g, k)
  {
    var n := g.cOutG * g.cInG;
    if g.cOutG > 0 && g.cInG > 0 {
      assert 0 <= ReadPos(k, g.cOutG - 1, g.cInG - 1, 0, 0) < |k.data|;
      Dist(g.cOutG - 1, 1, g.cInG);
    }
    forall co, ci | 0 <= co < g.cOutG && 0 <= ci < g.cInG
      ensures 0 <= Pos(co, g.cInG, ci) < n && k.data[k.start..k.start + n][Pos(co, g.cInG, ci)] == k.Get(co, ci, 0, 0)
    {
      Bound(co, g.cOutG, ci, g.cInG);
    }
  }

  method KernelRow(g: Geometry, k: View4, co: nat, done: seq<int>) returns (kr: seq<int>)
    requires Inside(k, g.cOutG, g.cInG, 1, 1) && co < g.cOutG && |done| == co * g.cInG
    ensures |kr| == (co + 1) * g.cInG && done <= kr
    ensures forall ci :: 0 <= ci < g.cInG
              ==> 0 <= Pos(co, g.cInG, ci) < |kr| && kr[Pos(co, g.cInG, ci)] == k.Get(co, ci, 0, 0)
  {
    kr := done;
    for ci := 0 to g.cInG
      invariant |kr| == co * g.cInG + ci && done <= kr
      invariant forall c :: 0 <= c < ci ==> kr[Pos(co, g.cInG, c)] == k.Get(co, c, 0, 0)
    {
      var idx := ReadPos(k, co, ci, 0, 0);
      kr := kr + [k.data[idx]];
    }
    Dist(co, 1, g.cInG);
  }

  ghost function Channels(x: View4, b: int): (int, int, int, int) -> int {
    (z, c, y, w) => x.Get(b, c, y, w)
  }

  /** One batch entry as `[cIn, h * w]`. */
  method ReshapeInput(g: Geometry, x: View4, b: nat) returns (ir: seq<int>)
    requires Inside(x, g.batch, g.cInG, g.h, g.w) && b < g.batch
    ensures IsTable(ir, 1, g.cInG, g.h, g.w, Channels(x, b))
  {
    TableIsTable(1, g.cInG, g.h, g.w, Channels(x, b));
    ir := InputLoops(g, x, b, Table(1, g.cInG, g.h, g.w, Channels(x, b)));
  }

  method InputLoops(g: Geometry, x: View4, b: nat, ghost spec: seq<int>) returns (ir: seq<int>)
    requires Inside(x, g.batch, g.cInG, g.h, g.w) && b < g.batch
    requires IsTable(spec, 1, g.cInG, g.h, g.w, Channels(x, b))
    ensures ir == spec
  {
    ir := [];
    for c := 0 to g.cInG
      invariant ir <= spec && |ir| == Pos4(0, c, 0, 0, g.cInG, g.h, g.w)
    {
      for y := 0 to g.h
        invariant ir <= spec && |ir| == Pos4(0, c, y, 0, g.cInG, g.h, g.w)
      {
        for w := 0 to g.w
          invariant ir <= spec && |ir| == Pos4(0, c, y, w, g.cInG, g.h, g.w)
        {
          var idx := ReadPos(x, b, c, y, w);
          assert spec[Pos4(0, c, y, w, g.cInG, g.h, g.w)] == Channels(x, b)(0, c, y, w);
          ir := ir + [x.data[idx]];
        }
        Next4(0, c, y, g.cInG, g.h, g.w);
      }
      Next4(0, c, 0, g.cInG, g.h, g.w);
    }
    Next4(0, 0, 0, g.cInG, g.h, g.w);
  }

  /** With a single tap per channel the convolution is a product of matrices. */
  lemma PointwiseDot(g: Geometry, x: View4, k: View4, kr: seq<int>, ir: seq<int>, b: int, co: int, oy: int, ox: int)
    requires Plain(g) && IsKernelMatrix(kr, g, k) && IsTable(ir, 1, g.cInG, g.h, g.w, Channels(x, b))
    requires 0 <= co < g.cOutG && 0 <= oy < g.hOut && 0 <= ox < g.wOut
    ensures DotAt(kr, co * g.cInG, 1, ir, oy * g.wOut + ox, g.Pixels(), g.cInG) == ConvAt(g, x, k, b, 0, co, oy, ox)
  {
    var tap := Tap(g, x, k, b, 0, co, oy, ox);
    var f := DotTerm(kr, co * g.cInG, 1, ir, oy * g.wOut + ox, g.Pixels());
    forall ci | 0 <= ci < g.cInG ensures tap(ci, 0, 0) == f(ci) {
      PointwiseTap(g, x, k, kr, ir, b, co, oy, ox, ci);
    }
    SumThin(g.cInG, f, tap);
  }

  lemma PointwiseTap(g: Geometry, x: View4, k: View4, kr: seq<int>, ir: seq<int>, b: int, co: int, oy: int, ox: int,
          ci: int)
    requires Plain(g) && IsKernelMatrix(kr, g, k) && IsTable(ir, 1, g.cInG, g.h, g.w, Channels(x, b))
    requires 0 <= co < g.cOutG && 0 <= oy < g.hOut && 0 <= ox < g.wOut && 0 <= ci < g.cInG
    ensures Tap(g, x, k, b, 0, co, oy, ox)(ci, 0, 0)
            == DotTerm(kr, co * g.cInG, 1, ir, oy * g.wOut + ox, g.Pixels())(ci)
  {
    assert kr[Pos(co, g.cInG, ci)] == k.Get(co, ci, 0, 0);
    assert ir[Pos4(0, ci, oy, ox, g.cInG, g.h, g.w)] == Channels(x, b)(0, ci, oy, ox);
    Horner3(ci, oy, ox, g.h, g.w);
  }

  // ---------------------------------------------------------------- one task per batch entry

  /** Task `b` copies its product to its own stretch of the output. */
  ghost predicate TasksOk(tasks: seq<seq<Write>>, spec: seq<int>, n: int, len: int) {
    && |tasks| == n
    && forall b :: 0 <= b < n ==> TaskOk(tasks[b], spec, b * len, len)
  }

  ghost predicate TaskOk(w: seq<Write>, spec: seq<int>, start: int, len: int) {
    |w| == len && forall i :: 0 <= i < len ==> w[i] == Write(start + i, At(spec, start + i))
  }

  lemma StretchIsConv(g: Geometry, x: View4, k: View4, kr: seq<int>, ir: seq<int>, result: seq<int>, spec: seq<int>,
          b: int, i: int)
    requires Plain(g) && IsKernelMatrix(kr, g, k) && IsTable(ir, 1, g.cInG, g.h, g.w, Channels(x, b))
    requires IsProd(result, kr, ir, g.cOutG, g.Pixels(), g.cInG) && IsConv(spec, g, x, k, None)
    requires 0 <= b < g.batch && 0 <= i < |result|
    ensures result[i] == At(spec, b * (g.cOutG * g.Pixels()) + i)
  {
    var n := g.Pixels();
    assert n > 0;
    DivBound(i, g.cOutG, n);
    var co, pix := Hi(i, n), Lo(i, n);
    DivBound(pix, g.hOut, g.wOut);
    var oy, ox := Hi(pix, g.wOut), Lo(pix, g.wOut);
    assert Pixel(g, b, 0, co, oy, ox);
    PointwiseDot(g, x, k, kr, ir, b, co, oy, ox);
    assert i == Pos(co, n, pix);
    StretchPos(g, b, co, oy, ox, pix, i);
  }

  lemma StretchPos(g: Geometry, b: int, co: int, oy: int, ox: int, pix: int, i: int)
    requires g.groups == 1 && pix == oy * g.wOut + ox && i == co * g.Pixels() + pix
    ensures b * (g.cOutG * g.Pixels()) + i == OutPos(g, b, 0, co, oy, ox)
  {
    Horner3(b, co, pix, g.cOutG, g.Pixels());
  }

  /** The product of one batch entry and its copy to the output. */
  method EntryTask(g: Geometry, x: View4, ghost k: View4, kr: seq<int>, b: nat, numThreads: nat, ghost spec: seq<int>)
    returns (w: seq<Write>)
    requires Plain(g) && IsKernelMatrix(kr, g, k) && Inside(x, g.batch, g.cInG, g.h, g.w)
    requires IsConv(spec, g, x, k, None) && b < g.batch
    ensures TaskOk(w, spec, b * (g.cOutG * g.Pixels()), g.cOutG * g.Pixels())
  {
    var ir := ReshapeInput(g, x, b);
    Mul3(g.cInG, g.h, g.w);
    var result := MatMulContiguous(g.cOutG, g.Pixels(), g.cInG, kr, ir, numThreads);
    var outOffset := b * (g.cOutG * g.Pixels());
    w := [];
    for i := 0 to |result|
      invariant |w| == i
      invariant forall j :: 0 <= j < i ==> w[j] == Write(outOffset + j, At(spec, outOffset + j))
    {
      StretchIsConv(g, x, k, kr, ir, result, spec, b, i);
      w := w + [Write(outOffset + i, result[i])];
    }
  }

  lemma StretchesTile(tasks: seq<seq<Write>>, spec: seq<int>, n: nat, len: nat)
    requires TasksOk(tasks, spec, n, len) && |spec| == n * len
    ensures Faithful(tasks, spec) && Disjoint(tasks) && Covers(tasks, |spec|)
  {
    forall t, j | 0 <= t < |tasks| && 0 <= j < |tasks[t]|
      ensures 0 <= tasks[t][j].index < |spec| && tasks[t][j].value == spec[tasks[t][j].index]
    {
      assert TaskOk(tasks[t], spec, t * len, len);
      Bound(t, n, j, len);
    }
    forall t, j, t', j' | 0 <= t < |tasks| && 0 <= j < |tasks[t]| && 0 <= t' < |tasks| && 0 <= j' < |tasks[t']|
                          && tasks[t][j].index == tasks[t'][j'].index
      ensures t == t'
    {
      assert TaskOk(tasks[t], spec, t * len, len) && TaskOk(tasks[t'], spec, t' * len, len);
      PosInjective(t, j, t', j', len);
    }
    forall p | 0 <= p < |spec| ensures Reached(tasks, p) {
      assert len > 0;
      DivBound(p, n, len);
      var t, j := Hi(p, len), Lo(p, len);
      assert TaskOk(tasks[t], spec, t * len, len);
      assert tasks[t][j].index == p;
    }
  }

  /** The pointwise convolution, its batch entries interleaved in any way. */
  method Conv2d1x1(g: Geometry, x: View4, k: View4, numThreads: nat) returns (r: Result<seq<int>>)
    requires Plain(g) && Inside(x, g.batch, g.cInG, g.h, g.w) && Inside(k, g.cOutG, g.cInG, 1, 1)
    requires 0 <= x.start && 0 <= k.start
    ensures if x.start <= |x.data| && k.start <= |k.data| then r.Ok? && IsConv(r.value, g, x, k, None)
            else r == Err(OutOfBounds)
  {
    if x.start > |x.data| || k.start > |k.data| {
      return Err(OutOfBounds);
    }
    ghost var spec := Conv(g, x, k, None);
    ConvIsConv(g, x, k, None);
    var kr := ReshapeKernel(g, k);
    var out := RunEntries(g, x, k, kr, numThreads, spec);
    r := Ok(out);
  }

  method RunEntries(g: Geometry, x: View4, ghost k: View4, kr: seq<int>, numThreads: nat,
          ghost spec: seq<int>) returns (out: seq<int>)
    requires Plain(g) && IsKernelMatrix(kr, g, k) && Inside(x, g.batch, g.cInG, g.h, g.w) && IsConv(spec, g, x, k, None)
    ensures out == spec
  {
    var len := g.cOutG * g.Pixels();
    var tasks := [];
    for b := 0 to g.batch
      invariant TasksOk(tasks, spec, b, len)
    {
      var w := EntryTask(g, x, k, kr, b, numThreads, spec);
      tasks := tasks + [w];
    }
    Mul3(g.batch, g.cOutG, g.hOut * g.wOut);
    StretchesTile(tasks, spec, g.batch, len);
    var dst := new int[g.batch * len](_ => 0);
    RunInterleaved(tasks, dst, spec);
    out := dst[..];
  }
}
