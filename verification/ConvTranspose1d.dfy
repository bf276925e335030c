/** `ConvTranspose1D`: every input position is spread over the output through every tap. */
module ConvTranspose1d {
  import opened Wrappers
  import opened Sums
  import opened Tables
  import opened Conv1dSpec
  import opened Conv1dAccumulate

  /** What input `l` sends through tap `t`. */
  ghost function Sent(g: Geometry1, y: View3, k: View3, b: int, co: int, t: int, l: int): int -> int {
    ci => y.Get(b, ci, l) * k.Get(ci, co, t)
  }

  ghost function AtTarget(g: Geometry1, y: View3, k: View3, b: int, co: int, o: int): (int, int) -> int {
    (t, l) => if Reach1(g, l, t) - g.padding == o then Sum(g.cIn, Sent(g, y, k, b, co, t, l)) else 0
  }

  ghost function SpreadTurns(g: Geometry1, y: View3, k: View3): Contribution {
    (b, co, o) => AtTarget(g, y, k, b, co, o)
  }

  /** Channel `ci` of what arrives, in the order of the loops. */
  ghost function Arrivals(g: Geometry1, y: View3, k: View3, b: int, co: int, o: int): (int, int, int) -> int {
    (t, l, ci) => Hit1(g, y, k, b, co, o, ci)(t, l)
  }

  lemma TurnByChannel(g: Geometry1, y: View3, k: View3, b: int, co: int, o: int, t: int, l: int, h: int -> int)
    requires forall ci :: h(ci) == Hit1(g, y, k, b, co, o, ci)(t, l)
    ensures AtTarget(g, y, k, b, co, o)(t, l) == Sum(g.cIn, h)
  {
    if Reach1(g, l, t) - g.padding == o {
      forall ci ensures h(ci) == Sent(g, y, k, b, co, t, l)(ci) {
        assert h(ci) == Hit1(g, y, k, b, co, o, ci)(t, l);
      }
      SumExt(g.cIn, h, Sent(g, y, k, b, co, t, l));
    } else {
      SumZero(g.cIn, h);
    }
  }

  /** Adding turn by turn sums, for each input channel, all that reaches the cell. */
  lemma TurnsSumUp(g: Geometry1, y: View3, k: View3, b: int, co: int, o: int)
    ensures Partial(SpreadTurns(g, y, k)(b, co, o), g.kSize, g.lIn, 0) == ConvT1At(g, y, k, b, co, o)
  {
    var f, a := AtTarget(g, y, k, b, co, o), Arrivals(g, y, k, b, co, o);
    var G := (t, l) => Sum(g.cIn, Row(Plane(a, t), l));
    forall t, l | 0 <= t < g.kSize && 0 <= l < g.lIn ensures f(t, l) == G(t, l) {
      TurnByChannel(g, y, k, b, co, o, t, l, Row(Plane(a, t), l));
    }
    Sum2Ext(g.kSize, g.lIn, f, G);
    ChannelsOutward(g, y, k, b, co, o, G);
  }

  lemma ChannelsOutward(g: Geometry1, y: View3, k: View3, b: int, co: int, o: int, G: (int, int) -> int)
    requires forall t, l :: G(t, l) == Sum(g.cIn, Row(Plane(Arrivals(g, y, k, b, co, o), t), l))
    ensures Sum2(g.kSize, g.lIn, G) == ConvT1At(g, y, k, b, co, o)
  {
    var a := Arrivals(g, y, k, b, co, o);
    var r := (ci, t, l) => a(t, l, ci);
    Sum3As2(g.kSize, g.lIn, g.cIn, a, G);
    Sum3Ext(g.kSize, g.lIn, g.cIn, a, Rotate(r));
    SumRotate(g.cIn, g.kSize, g.lIn, r);
    var P, Q := ci => Sum2(g.kSize, g.lIn, Plane(r, ci)), HitsOf(g, y, k, b, co, o);
    forall ci | 0 <= ci < g.cIn ensures P(ci) == Q(ci) {
      Sum2Ext(g.kSize, g.lIn, Plane(r, ci), Hit1(g, y, k, b, co, o, ci));
    }
    SumExt(g.cIn, P, Q);
  }

  /** `k_cont`: the kernel of one output channel and tap, by input channel. */
  method KernelColumn(g: Geometry1, k: View3, co: nat, t: nat) returns (col: seq<int>)
    requires Inside3(k, g.cIn, g.cOut, g.kSize) && co < g.cOut && t < g.kSize
    ensures |col| == g.cIn && forall ci :: 0 <= ci < g.cIn ==> col[ci] == k.Get(ci, co, t)
  {
    col := [];
    for ci := 0 to g.cIn
      invariant |col| == ci && forall j :: 0 <= j < ci ==> col[j] == k.Get(j, co, t)
    {
      col := col + [k.data[k.Idx(ci, co, t)]];
    }
  }

  /** One turn of a task: one input position of one batch entry. */
  method Spread(g: Geometry1, ghost y: View3, ghost k: View3, cont: seq<int>, col: seq<int>, t: nat, dc: nat,
          bi: nat, l: nat, dst: array<int>, ghost at: seq<Turn>)
    requires IsChannelsLast(cont, g, y) && |col| == g.cIn
    requires forall ci :: 0 <= ci < g.cIn ==> col[ci] == k.Get(ci, dc, t)
    requires bi < g.batch && dc < g.cOut && l < g.lIn
    requires Accumulated(dst[..], g, g.lIn, SpreadTurns(g, y, k), t, at) && at[dc] == Turn(bi, l)
    modifies dst
    ensures Accumulated(dst[..], g, g.lIn, SpreadTurns(g, y, k), t, at[dc := Turn(bi, l + 1)])
  {
    var reach := l * g.stride + t * g.dilation;
    if reach < g.padding || reach - g.padding >= g.lOut {
      SkipTurn(dst[..], g, g.lIn, SpreadTurns(g, y, k), t, at, dc);
    } else {
      var d := VecDot(g, y, cont, col, bi, l);
      SumExt(g.cIn, ColumnTerm(y, col, bi, l), Sent(g, y, k, bi, dc, t, l));
      Add(dst, g, reach - g.padding, d, g.lIn, SpreadTurns(g, y, k), t, at, dc, bi);
    }
  }

  ghost predicate IsColumn(col: seq<int>, g: Geometry1, k: View3, co: int, t: int) {
    |col| == g.cIn && forall ci :: 0 <= ci < g.cIn ==> col[ci] == k.Get(ci, co, t)
  }

  method KernelColumns(g: Geometry1, k: View3, t: nat) returns (cols: seq<seq<int>>)
    requires Inside3(k, g.cIn, g.cOut, g.kSize) && t < g.kSize
    ensures |cols| == g.cOut && forall co :: 0 <= co < g.cOut ==> IsColumn(cols[co], g, k, co, t)
  {
    cols := [];
    for co := 0 to g.cOut
      invariant |cols| == co && forall c :: 0 <= c < co ==> IsColumn(cols[c], g, k, c, t)
    {
      var col := KernelColumn(g, k, co, t);
      cols := cols + [col];
    }
  }

  /** One tap: the channel tasks run turn by turn, interleaved in any way. */
  method AllChannels(g: Geometry1, ghost y: View3, k: View3, cont: seq<int>, t: nat, dst: array<int>)
    requires IsChannelsLast(cont, g, y) && Inside3(k, g.cIn, g.cOut, g.kSize) && t < g.kSize
    requires Accumulated(dst[..], g, g.lIn, SpreadTurns(g, y, k), t, AtStart(g.cOut))
    modifies dst
    ensures Accumulated(dst[..], g, g.lIn, SpreadTurns(g, y, k), t + 1, AtStart(g.cOut))
  {
    var cols := KernelColumns(g, k, t);
    var at, pending := AtStart(g.cOut), AllTurns(g.cOut, g.batch, g.lIn);
    while pending != {}
      invariant Accumulated(dst[..], g, g.lIn, SpreadTurns(g, y, k), t, at)
      invariant IsPending(pending, at, g.cOut, g.batch, g.lIn)
      decreases pending
    {
      var pick :| pick in pending;
      NextIsPending(pending, at, g.cOut, g.batch, g.lIn, pick);
      var dc := pick.0;
      var bi, l := at[dc].b, at[dc].l;
      assert IsColumn(cols[dc], g, k, dc, t);
      Spread(g, y, k, cont, cols[dc], t, dc, bi, l, dst, at);
      TurnDone(dst[..], g, g.lIn, SpreadTurns(g, y, k), t, at, dc);
      TurnTaken(pending, at, g.cOut, g.batch, g.lIn, dc);
      at := at[dc := Advanced(at[dc], g.lIn)];
      pending := pending - {(dc, bi, l)};
    }
    TapDone(dst[..], g, g.lIn, SpreadTurns(g, y, k), t, at, pending);
  }

  method SpreadLoops(g: Geometry1, y: View3, k: View3) returns (out: seq<int>)
    requires Inside3(y, g.batch, g.cIn, g.lIn) && Inside3(k, g.cIn, g.cOut, g.kSize)
    ensures IsConvT1d(out, g, y, k)
  {
    var dst := new int[g.batch * g.cOut * g.lOut](_ => 0);
    var cont := ToChannelsLast(g, y);
    Start(dst[..], g, g.lIn, SpreadTurns(g, y, k));
    for t := 0 to g.kSize
      invariant Accumulated(dst[..], g, g.lIn, SpreadTurns(g, y, k), t, AtStart(g.cOut))
    {
      AllChannels(g, y, k, cont, t, dst);
    }
    out := dst[..];
    AllTapsTaken(out, g, y, k);
  }

  lemma AllTapsTaken(out: seq<int>, g: Geometry1, y: View3, k: View3)
    requires Accumulated(out, g, g.lIn, SpreadTurns(g, y, k), g.kSize, AtStart(g.cOut))
    ensures IsConvT1d(out, g, y, k)
  {
    forall b, co, o | Cell1(g, b, co, o) ensures out[Pos3(b, co, o, g.cOut, g.lOut)] == ConvT1At(g, y, k, b, co, o) {
      TurnsSumUp(g, y, k, b, co, o);
    }
  }

  /** `ConvTranspose1D::f`. */
  method ConvTranspose1D(p: ParamsConvTranspose1D, y: View3, k: View3) returns (r: Result<seq<int>>)
    requires p.Valid() && Inside3(y, p.bSize, p.cIn, p.lIn) && Inside3(k, p.cIn, p.cOut, p.kSize)
    ensures if y.start <= |y.data| && k.start <= |k.data| then r.Ok? && IsConvT1d(r.value, p.Geom(), y, k)
            else r == Err(OutOfBounds)
  {
    if y.start > |y.data| || k.start > |k.data| {
      return Err(OutOfBounds);
    }
    var out := SpreadLoops(p.Geom(), y, k);
    r := Ok(out);
  }
}
