/** `Conv1D`: taps from the outside in, output channels in parallel. */
module Conv1d {
  import opened Sums
  import opened Wrappers
  import opened Tables
  import opened Conv1dSpec
  import opened Conv1dAccumulate

  /** What tap `t` adds to output `l`. */
  ghost function TapDot(g: Geometry1, x: View3, k: View3, b: int, co: int, l: int, t: int): int {
    Sum(g.cIn, Row(Swap(Tap1(g, x, k, b, co, l)), t))
  }

  ghost function AtOutput(g: Geometry1, x: View3, k: View3, b: int, co: int, o: int): (int, int) -> int {
    (t, l) => if l == o then TapDot(g, x, k, b, co, l, t) else 0
  }

  ghost function ConvTurns(g: Geometry1, x: View3, k: View3): Contribution {
    (b, co, o) => AtOutput(g, x, k, b, co, o)
  }

  /** Adding the taps one by one sums the window. */
  lemma TapsSumUp(g: Geometry1, x: View3, k: View3, b: int, co: int, o: int)
    requires 0 <= o < g.lOut
    ensures Partial(ConvTurns(g, x, k)(b, co, o), g.kSize, g.lOut, 0) == Conv1At(g, x, k, b, co, o)
  {
    var f, tap := AtOutput(g, x, k, b, co, o), Swap(Tap1(g, x, k, b, co, o));
    var F, G := t => Sum(g.lOut, Row(f, t)), t => Sum(g.cIn, Row(tap, t));
    forall t | 0 <= t < g.kSize ensures F(t) == G(t) {
      SumSingle(g.lOut, o, Row(f, t));
    }
    SumExt(g.kSize, F, G);
    SumSwap(g.cIn, g.kSize, Tap1(g, x, k, b, co, o));
  }

  /** `k_cont` for one output channel and tap. */
  method KernelColumn(g: Geometry1, k: View3, co: nat, t: nat) returns (col: seq<int>)
    requires Inside3(k, g.cOut, g.cIn, g.kSize) && co < g.cOut && t < g.kSize
    ensures |col| == g.cIn && forall ci :: 0 <= ci < g.cIn ==> col[ci] == k.Get(co, ci, t)
  {
    col := [];
    for ci := 0 to g.cIn
      invariant |col| == ci && forall j :: 0 <= j < ci ==> col[j] == k.Get(co, j, t)
    {
      col := col + [k.data[k.Idx(co, ci, t)]];
    }
  }

  lemma DotIsTap(g: Geometry1, x: View3, k: View3, col: seq<int>, b: int, co: int, l: int, t: int)
    requires |col| == g.cIn && forall ci :: 0 <= ci < g.cIn ==> col[ci] == k.Get(co, ci, t)
    ensures var pos := Reach1(g, l, t);
            TapDot(g, x, k, b, co, l, t)
            == if g.padding <= pos < g.padding + g.lIn then Sum(g.cIn, ColumnTerm(x, col, b, pos - g.padding)) else 0
  {
    var pos, f := Reach1(g, l, t), Row(Swap(Tap1(g, x, k, b, co, l)), t);
    if g.padding <= pos < g.padding + g.lIn {
      SumExt(g.cIn, f, ColumnTerm(x, col, b, pos - g.padding));
    } else {
      SumZero(g.cIn, f);
    }
  }

  /** What a turn adds where: the dot product at its own output, nothing elsewhere. */
  lemma TurnAdds(g: Geometry1, x: View3, k: View3, col: seq<int>, b: int, co: int, l: int, t: int)
    requires |col| == g.cIn && forall ci :: 0 <= ci < g.cIn ==> col[ci] == k.Get(co, ci, t)
    ensures var pos := Reach1(g, l, t);
            var d := if g.padding <= pos < g.padding + g.lIn then Sum(g.cIn, ColumnTerm(x, col, b, pos - g.padding))
                     else 0;
            forall o :: ConvTurns(g, x, k)(b, co, o)(t, l) == if o == l then d else 0
  {
    DotIsTap(g, x, k, col, b, co, l, t);
    forall o ensures ConvTurns(g, x, k)(b, co, o)(t, l) == AtOutput(g, x, k, b, co, o)(t, l) {}
  }

  /** The dot product of a turn; none where the padding is. */
  method TurnValue(g: Geometry1, ghost x: View3, ghost k: View3, cont: seq<int>, col: seq<int>, t: nat, dc: nat,
          bi: nat, l: nat)
    returns (d: Option<int>)
    requires IsChannelsLast(cont, g, x) && |col| == g.cIn && bi < g.batch
    requires forall ci :: 0 <= ci < g.cIn ==> col[ci] == k.Get(dc, ci, t)
    ensures forall o :: ConvTurns(g, x, k)(bi, dc, o)(t, l) == if o == l && d.Some? then d.value else 0
  {
    TurnAdds(g, x, k, col, bi, dc, l, t);
    var srcL := l * g.stride + t * g.dilation;
    assert srcL == Reach1(g, l, t);
    if srcL < g.padding || srcL >= g.padding + g.lIn {
      return None;
    }
    var v := VecDot(g, x, cont, col, bi, srcL - g.padding);
    d := Some(v);
  }

  /** One turn of a task: one output position of one batch entry. */
  method AddTap(g: Geometry1, ghost x: View3, ghost k: View3, cont: seq<int>, col: seq<int>, t: nat, dc: nat,
          bi: nat, l: nat, dst: array<int>, ghost at: seq<Turn>)
    requires IsChannelsLast(cont, g, x) && |col| == g.cIn
    requires forall ci :: 0 <= ci < g.cIn ==> col[ci] == k.Get(dc, ci, t)
    requires Cell1(g, bi, dc, l) && Accumulated(dst[..], g, g.lOut, ConvTurns(g, x, k), t, at) && at[dc] == Turn(bi, l)
    modifies dst
    ensures Accumulated(dst[..], g, g.lOut, ConvTurns(g, x, k), t, at[dc := Turn(bi, l + 1)])
  {
    var d := TurnValue(g, x, k, cont, col, t, dc, bi, l);
    if d.None? {
      SkipTurn(dst[..], g, g.lOut, ConvTurns(g, x, k), t, at, dc);
    } else {
      Add(dst, g, l, d.value, g.lOut, ConvTurns(g, x, k), t, at, dc, bi);
    }
  }

  method KernelColumns(g: Geometry1, k: View3, t: nat) returns (cols: seq<seq<int>>)
    requires Inside3(k, g.cOut, g.cIn, g.kSize) && t < g.kSize
    ensures |cols| == g.cOut && forall co :: 0 <= co < g.cOut ==> IsColumn(cols[co], g, k, co, t)
  {
    cols := [];
    for co := 0 to g.cOut
      invariant |cols| == co && forall c :: 0 <= c < co ==> IsColumn(cols[c], g, k, c, t)
    {
      var col := KernelColumn(g, k, co, t);
      cols := cols + [col];
    }
  }

  ghost predicate IsColumn(col: seq<int>, g: Geometry1, k: View3, co: int, t: int) {
    |col| == g.cIn && forall ci :: 0 <= ci < g.cIn ==> col[ci] == k.Get(co, ci, t)
  }

  /** One tap: the channel tasks run turn by turn, interleaved in any way. */
  method AllChannels(g: Geometry1, ghost x: View3, k: View3, cont: seq<int>, t: nat, dst: array<int>)
    requires IsChannelsLast(cont, g, x) && Inside3(k, g.cOut, g.cIn, g.kSize) && t < g.kSize
    requires Accumulated(dst[..], g, g.lOut, ConvTurns(g, x, k), t, AtStart(g.cOut))
    modifies dst
    ensures Accumulated(dst[..], g, g.lOut, ConvTurns(g, x, k), t + 1, AtStart(g.cOut))
  {
    var cols := KernelColumns(g, k, t);
    var at, pending := AtStart(g.cOut), AllTurns(g.cOut, g.batch, g.lOut);
    while pending != {}
      invariant Accumulated(dst[..], g, g.lOut, ConvTurns(g, x, k), t, at)
      invariant IsPending(pending, at, g.cOut, g.batch, g.lOut)
      decreases pending
    {
      var pick :| pick in pending;
      NextIsPending(pending, at, g.cOut, g.batch, g.lOut, pick);
      var dc := pick.0;
      var bi, l := at[dc].b, at[dc].l;
      assert IsColumn(cols[dc], g, k, dc, t);
      AddTap(g, x, k, cont, cols[dc], t, dc, bi, l, dst, at);
      TurnDone(dst[..], g, g.lOut, ConvTurns(g, x, k), t, at, dc);
      TurnTaken(pending, at, g.cOut, g.batch, g.lOut, dc);
      at := at[dc := Advanced(at[dc], g.lOut)];
      pending := pending - {(dc, bi, l)};
    }
    TapDone(dst[..], g, g.lOut, ConvTurns(g, x, k), t, at, pending);
  }

  method ConvLoops(g: Geometry1, x: View3, k: View3) returns (out: seq<int>)
    requires Inside3(x, g.batch, g.cIn, g.lIn) && Inside3(k, g.cOut, g.cIn, g.kSize)
    ensures IsConv1d(out, g, x, k)
  {
    var dst := new int[g.batch * g.cOut * g.lOut](_ => 0);
    var cont := ToChannelsLast(g, x);
    Start(dst[..], g, g.lOut, ConvTurns(g, x, k));
    for t := 0 to g.kSize
      invariant Accumulated(dst[..], g, g.lOut, ConvTurns(g, x, k), t, AtStart(g.cOut))
    {
      AllChannels(g, x, k, cont, t, dst);
    }
    out := dst[..];
    AllTapsTaken(out, g, x, k);
  }

  lemma AllTapsTaken(out: seq<int>, g: Geometry1, x: View3, k: View3)
    requires Accumulated(out, g, g.lOut, ConvTurns(g, x, k), g.kSize, AtStart(g.cOut))
    ensures IsConv1d(out, g, x, k)
  {
    forall b, co, l | Cell1(g, b, co, l) ensures out[Pos3(b, co, l, g.cOut, g.lOut)] == Conv1At(g, x, k, b, co, l) {
      TapsSumUp(g, x, k, b, co, l);
    }
  }

  /** `Conv1D::f`. */
  method Conv1D(p: ParamsConv1D, x: View3, k: View3) returns (r: Result<seq<int>>)
    requires p.Valid() && Inside3(x, p.bSize, p.cIn, p.lIn) && Inside3(k, p.cOut, p.cIn, p.kSize)
    ensures if x.start <= |x.data| && k.start <= |k.data| then r.Ok? && IsConv1d(r.value, p.Geom(), x, k)
            else r == Err(OutOfBounds)
  {
    if x.start > |x.data| || k.start > |k.data| {
      return Err(OutOfBounds);
    }
    var out := ConvLoops(p.Geom(), x, k);
    r := Ok(out);
  }
}
