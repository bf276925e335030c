/** The loops `Conv1D` and `ConvTranspose1D` share: a copy of the input with channels last, and
    an output every tap is added to, channel by channel in any order. */
module Conv1dAccumulate {
  import opened Sums
  import opened Tables
  import opened Conv1dSpec

  // ---------------------------------------------------------------- inp_cont

  ghost function ChannelsLast(x: View3): (int, int, int, int) -> int { (_, b, l, c) => x.Get(b, c, l) }

  ghost predicate IsChannelsLast(cont: seq<int>, g: Geometry1, x: View3) {
    IsTable(cont, 1, g.batch, g.lIn, g.cIn, ChannelsLast(x))
  }

  method ChannelsLastLoops(g: Geometry1, x: View3, ghost spec: seq<int>) returns (cont: seq<int>)
    requires Inside3(x, g.batch, g.cIn, g.lIn) && IsChannelsLast(spec, g, x)
    ensures cont == spec
  {
    cont := [];
    for b := 0 to g.batch
      invariant cont <= spec && |cont| == Pos4(0, b, 0, 0, g.batch, g.lIn, g.cIn)
    {
      for l := 0 to g.lIn
        invariant cont <= spec && |cont| == Pos4(0, b, l, 0, g.batch, g.lIn, g.cIn)
      {
        for c := 0 to g.cIn
          invariant cont <= spec && |cont| == Pos4(0, b, l, c, g.batch, g.lIn, g.cIn)
        {
          assert spec[Pos4(0, b, l, c, g.batch, g.lIn, g.cIn)] == ChannelsLast(x)(0, b, l, c);
          cont := cont + [x.data[x.Idx(b, c, l)]];
        }
        Next4(0, b, l, g.batch, g.lIn, g.cIn);
      }
      Next4(0, b, 0, g.batch, g.lIn, g.cIn);
    }
    Next4(0, 0, 0, g.batch, g.lIn, g.cIn);
  }

  /** `inp_cont`: the input, channels last. */
  method ToChannelsLast(g: Geometry1, x: View3) returns (cont: seq<int>)
    requires Inside3(x, g.batch, g.cIn, g.lIn)
    ensures IsChannelsLast(cont, g, x)
  {
    TableIsTable(1, g.batch, g.lIn, g.cIn, ChannelsLast(x));
    cont := ChannelsLastLoops(g, x, Table(1, g.batch, g.lIn, g.cIn, ChannelsLast(x)));
  }

  // ---------------------------------------------------------------- vec_dot

  /** `vec_dot` of one input position and `k_cont`, the kernel column of one tap. */
  method VecDot(g: Geometry1, ghost x: View3, cont: seq<int>, col: seq<int>, b: nat, l: nat) returns (d: int)
    requires IsChannelsLast(cont, g, x) && |col| == g.cIn && b < g.batch && l < g.lIn
    ensures d == Sum(g.cIn, ColumnTerm(x, col, b, l))
  {
    d := 0;
    for c := 0 to g.cIn
      invariant d == Sum(c, ColumnTerm(x, col, b, l))
    {
      assert cont[Pos4(0, b, l, c, g.batch, g.lIn, g.cIn)] == ChannelsLast(x)(0, b, l, c);
      d := d + cont[(b * g.lIn + l) * g.cIn + c] * col[c];
    }
  }

  ghost function ColumnTerm(x: View3, col: seq<int>, b: int, l: int): int -> int { c => x.Get(b, c, l) * At(col, c) }

  // ---------------------------------------------------------------- dst

  /** What turn `(tap, position)` of the loops adds to cell `(b, co, o)`. */
  type Contribution = (int, int, int) -> (int, int) -> int

  /** A cell after `n` taps and the first `seen` positions of the next. */
  ghost function Partial(f: (int, int) -> int, n: nat, len: nat, seen: nat): int {
    Sum2(n, len, f) + Sum(seen, Row(f, n))
  }

  lemma PartialNext(f: (int, int) -> int, n: nat, len: nat, seen: nat)
    ensures Partial(f, n, len, seen + 1) == Partial(f, n, len, seen) + f(n, seen)
    ensures Partial(f, n, len, len) == Partial(f, n + 1, len, 0)
  {
    Sum2Next(n, len, f);
  }

  /** Where a channel's task stands: the batch entry and the position of its next turn. */
  datatype Turn = Turn(b: nat, l: nat)

  /** How many positions of batch entry `b` a task has been through. */
  ghost function Seen(b: int, at: Turn, len: nat): nat { if b < at.b then len else if b == at.b then at.l else 0 }

  /** Every channel has taken `t` taps, and the part of the next that its task has got to. */
  ghost predicate Accumulated(dst: seq<int>, g: Geometry1, len: nat, c: Contribution, t: nat, at: seq<Turn>) {
    && |dst| == g.batch * g.cOut * g.lOut && |at| == g.cOut
    && forall b, co, o :: Cell1(g, b, co, o)
         ==> 0 <= Pos3(b, co, o, g.cOut, g.lOut) < |dst|
             && dst[Pos3(b, co, o, g.cOut, g.lOut)] == Partial(c(b, co, o), t, len, Seen(b, at[co], len))
  }

  function AtStart(n: nat): seq<Turn> { seq(n, _ => Turn(0, 0)) }

  lemma Start(dst: seq<int>, g: Geometry1, len: nat, c: Contribution)
    requires |dst| == g.batch * g.cOut * g.lOut && forall p :: 0 <= p < |dst| ==> dst[p] == 0
    ensures Accumulated(dst, g, len, c, 0, AtStart(g.cOut))
  {
    forall b, co, o | Cell1(g, b, co, o)
      ensures 0 <= Pos3(b, co, o, g.cOut, g.lOut) < |dst|
      ensures dst[Pos3(b, co, o, g.cOut, g.lOut)] == Partial(c(b, co, o), 0, len, 0)
    {
      Pos3Bound(b, co, o, g.batch, g.cOut, g.lOut);
    }
  }

  /** A turn that adds nothing. */
  lemma SkipTurn(dst: seq<int>, g: Geometry1, len: nat, c: Contribution, t: nat, at: seq<Turn>, dc: int)
    requires Accumulated(dst, g, len, c, t, at) && 0 <= dc < g.cOut
    requires forall o :: 0 <= o < g.lOut ==> c(at[dc].b, dc, o)(t, at[dc].l) == 0
    ensures Accumulated(dst, g, len, c, t, at[dc := Turn(at[dc].b, at[dc].l + 1)])
  {
    forall b, co, o | Cell1(g, b, co, o)
      ensures dst[Pos3(b, co, o, g.cOut, g.lOut)]
              == Partial(c(b, co, o), t, len, Seen(b, at[dc := Turn(at[dc].b, at[dc].l + 1)][co], len))
    {
      PartialNext(c(b, co, o), t, len, at[dc].l);
    }
  }

  /** A turn that adds `d` to one cell, which no other channel has. */
  lemma AddTurn(dst: seq<int>, g: Geometry1, target: nat, d: int, len: nat, c: Contribution, t: nat, at: seq<Turn>,
                dc: nat, idx: nat)
    requires Accumulated(dst, g, len, c, t, at) && dc < g.cOut && Cell1(g, at[dc].b, dc, target)
    requires idx == Pos3(at[dc].b, dc, target, g.cOut, g.lOut) < |dst|
    requires forall o :: 0 <= o < g.lOut ==> c(at[dc].b, dc, o)(t, at[dc].l) == if o == target then d else 0
    ensures Accumulated(dst[idx := dst[idx] + d], g, len, c, t, at[dc := Turn(at[dc].b, at[dc].l + 1)])
  {
    var dst', at' := dst[idx := dst[idx] + d], at[dc := Turn(at[dc].b, at[dc].l + 1)];
    forall b, co, o | Cell1(g, b, co, o)
      ensures dst'[Pos3(b, co, o, g.cOut, g.lOut)] == Partial(c(b, co, o), t, len, Seen(b, at'[co], len))
    {
      PartialNext(c(b, co, o), t, len, at[dc].l);
      if Pos3(b, co, o, g.cOut, g.lOut) == idx {
        Pos3Injective(b, co, o, at[dc].b, dc, target, g.cOut, g.lOut);
      }
    }
  }

  /** `*ptr += d`. */
  method Add(dst: array<int>, g: Geometry1, target: nat, d: int, ghost len: nat, ghost c: Contribution, ghost t: nat,
             ghost at: seq<Turn>, dc: nat, bi: nat)
    requires Accumulated(dst[..], g, len, c, t, at) && Cell1(g, bi, dc, target) && at[dc].b == bi
    requires forall o :: 0 <= o < g.lOut ==> c(bi, dc, o)(t, at[dc].l) == if o == target then d else 0
    modifies dst
    ensures Accumulated(dst[..], g, len, c, t, at[dc := Turn(bi, at[dc].l + 1)])
  {
    var idx := (bi * g.cOut + dc) * g.lOut + target;
    assert idx == Pos3(bi, dc, target, g.cOut, g.lOut);
    AddTurn(dst[..], g, target, d, len, c, t, at, dc, idx);
    ghost var after := dst[..][idx := dst[idx] + d];
    dst[idx] := dst[idx] + d;
    assert dst[..] == after;
  }

  /** The last position of an entry is the first of the next. */
  lemma NextEntry(dst: seq<int>, g: Geometry1, len: nat, c: Contribution, t: nat, at: seq<Turn>, dc: int)
    requires Accumulated(dst, g, len, c, t, at) && 0 <= dc < g.cOut && at[dc].l == len
    ensures Accumulated(dst, g, len, c, t, at[dc := Turn(at[dc].b + 1, 0)])
  {
    forall b ensures Seen(b, at[dc], len) == Seen(b, Turn(at[dc].b + 1, 0), len) {}
  }

  /** When all tasks of a tap are through, every channel has one more tap. */
  lemma NextTap(dst: seq<int>, g: Geometry1, len: nat, c: Contribution, t: nat, at: seq<Turn>)
    requires Accumulated(dst, g, len, c, t, at)
    requires forall co, b :: 0 <= co < g.cOut && 0 <= b < g.batch ==> Seen(b, at[co], len) == len
    ensures Accumulated(dst, g, len, c, t + 1, AtStart(g.cOut))
  {
    forall b, co, o | Cell1(g, b, co, o)
      ensures dst[Pos3(b, co, o, g.cOut, g.lOut)] == Partial(c(b, co, o), t + 1, len, 0)
    {
      PartialNext(c(b, co, o), t, len, 0);
      assert Seen(b, at[co], len) == len;
    }
  }

  // ---------------------------------------------------------------- the scheduler

  /** All turns of one tap: channel, batch entry, position. */
  function AllTurns(channels: nat, batch: nat, len: nat): set<(nat, nat, nat)> {
    set co: nat, b: nat, l: nat | 0 <= co < channels && 0 <= b < batch && 0 <= l < len :: (co, b, l)
  }

  /** The turns the tasks have still to take. */
  ghost predicate IsPending(pending: set<(nat, nat, nat)>, at: seq<Turn>, channels: nat, batch: nat, len: nat) {
    && |at| == channels && (forall co :: 0 <= co < channels ==> at[co].l < len || at[co] == Turn(0, 0))
    && forall co: nat, b: nat, l: nat :: (co, b, l) in pending
         <==> co < channels && b < batch && l < len && (b > at[co].b || (b == at[co].b && l >= at[co].l))
  }

  /** A task with a turn left has its next turn left. */
  lemma NextIsPending(pending: set<(nat, nat, nat)>, at: seq<Turn>, channels: nat, batch: nat, len: nat,
          p: (nat, nat, nat))
    requires IsPending(pending, at, channels, batch, len) && p in pending
    ensures p.0 < channels && at[p.0].b < batch && at[p.0].l < len && (p.0, at[p.0].b, at[p.0].l) in pending
  {
    assert (p.0, p.1, p.2) in pending;
  }

  function Advanced(at: Turn, len: nat): Turn { if at.l + 1 >= len then Turn(at.b + 1, 0) else Turn(at.b, at.l + 1) }

  lemma TurnTaken(pending: set<(nat, nat, nat)>, at: seq<Turn>, channels: nat, batch: nat, len: nat, dc: nat)
    requires IsPending(pending, at, channels, batch, len) && dc < channels && at[dc].l < len
    ensures IsPending(pending - {(dc, at[dc].b, at[dc].l)}, at[dc := Advanced(at[dc], len)], channels, batch, len)
  {}

  lemma NonePending(pending: set<(nat, nat, nat)>, at: seq<Turn>, channels: nat, batch: nat, len: nat, co: nat, b: nat)
    requires IsPending(pending, at, channels, batch, len) && pending == {} && co < channels && b < batch
    ensures Seen(b, at[co], len) == len
  {
    assert (co, b, 0) !in pending;
    assert (co, b, at[co].l) !in pending;
  }

  /** All tasks through: the tap is done. */
  lemma TapDone(dst: seq<int>, g: Geometry1, len: nat, c: Contribution, t: nat, at: seq<Turn>,
          pending: set<(nat, nat, nat)>)
    requires Accumulated(dst, g, len, c, t, at) && IsPending(pending, at, g.cOut, g.batch, len) && pending == {}
    ensures Accumulated(dst, g, len, c, t + 1, AtStart(g.cOut))
  {
    forall co, b | 0 <= co < g.cOut && 0 <= b < g.batch ensures Seen(b, at[co], len) == len {
      NonePending(pending, at, g.cOut, g.batch, len, co, b);
    }
    NextTap(dst, g, len, c, t, at);
  }

  /** After a turn the task stands at the next position, or at the next entry. */
  lemma TurnDone(dst: seq<int>, g: Geometry1, len: nat, c: Contribution, t: nat, at: seq<Turn>, dc: nat)
    requires dc < g.cOut == |at| && at[dc].l < len
    requires Accumulated(dst, g, len, c, t, at[dc := Turn(at[dc].b, at[dc].l + 1)])
    ensures Accumulated(dst, g, len, c, t, at[dc := Advanced(at[dc], len)])
  {
    var at' := at[dc := Turn(at[dc].b, at[dc].l + 1)];
    if at[dc].l + 1 >= len {
      NextEntry(dst, g, len, c, t, at', dc);
      assert at'[dc := Turn(at'[dc].b + 1, 0)] == at[dc := Advanced(at[dc], len)];
    }
  }
}
