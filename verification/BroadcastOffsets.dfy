/** `Layout::offsets_b`: a contiguous run, repeated as a whole and element by element. */
module BroadcastOffsets {
  import opened Radix
  import opened Wrappers
  import opened Layouts
  import opened Tables

  /** `len` elements from `start` on, each `right` times in a row, all of it `left` times. */
  datatype Broadcast = Broadcast(start: nat, len: nat, left: nat, right: nat)

  ghost predicate IsBroadcast(l: Layout, ob: Broadcast)
    requires l.Valid()
  {
    && l.Count() == ob.left * ob.len * ob.right
    && forall a, b, c :: 0 <= a < ob.left && 0 <= b < ob.len && 0 <= c < ob.right
         ==> 0 <= Pos3(a, b, c, ob.len, ob.right) < l.Count()
             && l.Offset(Pos3(a, b, c, ob.len, ob.right)) == ob.start + b
  }

  ghost predicate AllZero(strides: seq<int>) { forall k :: 0 <= k < |strides| ==> strides[k] == 0 }

  lemma {:induction false} DotZero(c: seq<int>, strides: seq<int>)
    requires |c| == |strides| && AllZero(strides)
    ensures Dot(c, strides) == 0
  {
    if |c| > 0 {
      DotZero(Init(c), Init(strides));
    }
  }

  // ---------------------------------------------------------------- three runs of axes

  /** Axes with stride 0, then a contiguous run, then axes with stride 0. */
  ghost predicate Sandwich(lo: seq<nat>, mid: seq<nat>, hi: seq<nat>, sl: seq<int>, sm: seq<int>, sh: seq<int>) {
    |lo| == |sl| && |mid| == |sm| && |hi| == |sh| && AllZero(sl) && AllZero(sh) && Exact(mid, sm, 1)
  }

  lemma RavelThree(lo: seq<nat>, mid: seq<nat>, hi: seq<nat>, cl: seq<int>, cm: seq<int>, ch: seq<int>)
    requires |lo| == |cl| && |mid| == |cm| && |hi| == |ch|
    ensures Ravel(lo + mid + hi, cl + cm + ch)
            == Pos3(Ravel(lo, cl), Ravel(mid, cm), Ravel(hi, ch), Prod(mid), Prod(hi))
  {
    RavelConcat(lo, mid, cl, cm);
    RavelConcat(lo + mid, hi, cl + cm, ch);
    MulEq(Ravel(lo + mid, cl + cm), Ravel(lo, cl) * Prod(mid) + Ravel(mid, cm), Prod(hi));
  }

  lemma ProdThree(lo: seq<nat>, mid: seq<nat>, hi: seq<nat>)
    ensures Prod(lo + mid + hi) == Prod(lo) * Prod(mid) * Prod(hi)
  {
    ProdConcat(lo, mid);
    ProdConcat(lo + mid, hi);
    MulEq(Prod(lo + mid), Prod(lo) * Prod(mid), Prod(hi));
  }

  lemma DotThree(lo: seq<nat>, mid: seq<nat>, hi: seq<nat>, sl: seq<int>, sm: seq<int>, sh: seq<int>, cl: seq<int>,
          cm: seq<int>, ch: seq<int>)
    requires Sandwich(lo, mid, hi, sl, sm, sh) && |cl| == |lo| && |ch| == |hi| && InRange(mid, cm)
    ensures Dot(cl + cm + ch, sl + sm + sh) == Ravel(mid, cm)
  {
    DotConcat(cl, cm, sl, sm);
    DotConcat(cl + cm, ch, sl + sm, sh);
    DotZero(cl, sl);
    DotZero(ch, sh);
    ExactIsRowMajor(mid, sm, 1);
    RowMajorDot(mid, sm, 1, cm);
  }

  lemma SandwichOffset(lo: seq<nat>, mid: seq<nat>, hi: seq<nat>, sl: seq<int>, sm: seq<int>, sh: seq<int>, start: nat,
          a: int, b: int, c: int)
    requires Sandwich(lo, mid, hi, sl, sm, sh) && 0 <= a < Prod(lo) && 0 <= b < Prod(mid) && 0 <= c < Prod(hi)
    ensures var l := Layout(lo + mid + hi, sl + sm + sh, start);
            && 0 <= Pos3(a, b, c, Prod(mid), Prod(hi)) < l.Count()
            && l.Offset(Pos3(a, b, c, Prod(mid), Prod(hi))) == start + b
  {
    var cl, cm, ch := Unravel(lo, a), Unravel(mid, b), Unravel(hi, c);
    InRangeThree(lo, mid, hi, cl, cm, ch);
    RavelThree(lo, mid, hi, cl, cm, ch);
    UnravelIs(lo + mid + hi, cl + cm + ch);
    DotThree(lo, mid, hi, sl, sm, sh, cl, cm, ch);
  }

  lemma InRangeThree(lo: seq<nat>, mid: seq<nat>, hi: seq<nat>, cl: seq<int>, cm: seq<int>, ch: seq<int>)
    requires InRange(lo, cl) && InRange(mid, cm) && InRange(hi, ch)
    ensures InRange(lo + mid + hi, cl + cm + ch)
  {}

  lemma SandwichIsBroadcast(lo: seq<nat>, mid: seq<nat>, hi: seq<nat>, sl: seq<int>, sm: seq<int>, sh: seq<int>,
          start: nat)
    requires Sandwich(lo, mid, hi, sl, sm, sh)
    ensures IsBroadcast(Layout(lo + mid + hi, sl + sm + sh, start), Broadcast(start, Prod(mid), Prod(lo), Prod(hi)))
  {
    ProdThree(lo, mid, hi);
    var l, ob := Layout(lo + mid + hi, sl + sm + sh, start), Broadcast(start, Prod(mid), Prod(lo), Prod(hi));
    forall a, b, c | 0 <= a < ob.left && 0 <= b < ob.len && 0 <= c < ob.right
      ensures 0 <= Pos3(a, b, c, ob.len, ob.right) < l.Count()
      ensures l.Offset(Pos3(a, b, c, ob.len, ob.right)) == ob.start + b
    {
      SandwichOffset(lo, mid, hi, sl, sm, sh, start, a, b, c);
    }
  }

  // ---------------------------------------------------------------- an empty run

  lemma {:induction false} OnlyOnes(dims: seq<nat>)
    requires Prod(dims) == 1
    ensures forall k :: 0 <= k < |dims| ==> dims[k] == 1
  {
    if |dims| > 0 {
      Factor(Prod(Init(dims)), Last(dims));
      OnlyOnes(Init(dims));
    }
  }

  lemma Factor(a: nat, b: nat)
    requires a * b == 1
    ensures a == 1 && b == 1
  {
    MulMono(2, a, b);
    MulMono(2, b, a);
  }

  lemma {:induction false} RowMajorThenOnes(d: seq<nat>, s: seq<int>, hi: seq<nat>, sh: seq<int>, acc: int)
    requires |d| == |s| && |hi| == |sh| && (forall k :: 0 <= k < |hi| ==> hi[k] == 1)
    ensures RowMajorFrom(d + hi, s + sh, acc) == RowMajorFrom(d, s, acc)
  {
    if |hi| == 0 {
      assert d + hi == d && s + sh == s;
    } else {
      assert Init(d + hi) == d + Init(hi) && Init(s + sh) == s + Init(sh);
      RowMajorThenOnes(d, s, Init(hi), Init(sh), acc);
    }
  }

  lemma {:induction false} RowMajorJoin(d: seq<nat>, s: seq<int>, mid: seq<nat>, sm: seq<int>, acc: int)
    requires |d| == |s| && |mid| == |sm| && RowMajorFrom(mid, sm, acc)
    ensures RowMajorFrom(d + mid, s + sm, acc) == RowMajorFrom(d, s, acc * Prod(mid))
  {
    if |mid| == 0 {
      assert d + mid == d && s + sm == s;
    } else {
      assert Init(d + mid) == d + Init(mid) && Init(s + sm) == s + Init(sm);
      RowMajorJoin(d, s, Init(mid), Init(sm), acc * Last(mid));
      Mul3(acc, Last(mid), Prod(Init(mid)));
      assert Last(mid) * Prod(Init(mid)) == Prod(Init(mid)) * Last(mid);
    }
  }

  lemma {:induction false} ZeroStridesOfNone(d: seq<nat>, s: seq<int>)
    requires |d| == |s| && AllZero(s)
    ensures RowMajorFrom(d, s, 0)
  {
    if |d| > 0 {
      ZeroStridesOfNone(Init(d), Init(s));
    }
  }

  /** An empty run that is not repeated element by element is contiguous, so nobody asks. */
  lemma EmptyRunIsContiguous(lo: seq<nat>, mid: seq<nat>, hi: seq<nat>, sl: seq<int>, sm: seq<int>, sh: seq<int>)
    requires Sandwich(lo, mid, hi, sl, sm, sh) && Prod(mid) == 0 && Prod(hi) == 1
    ensures RowMajorFrom(lo + mid + hi, sl + sm + sh, 1)
  {
    OnlyOnes(hi);
    RowMajorThenOnes(lo + mid, sl + sm, hi, sh, 1);
    ExactIsRowMajor(mid, sm, 1);
    RowMajorJoin(lo, sl, mid, sm, 1);
    ZeroStridesOfNone(lo, sl);
  }

  // ---------------------------------------------------------------- offsets_b

  ghost predicate ZeroOutside(strides: seq<int>, s: int, e: int) {
    forall k :: 0 <= k < |strides| && (k < s || e <= k) ==> strides[k] == 0
  }

  /** The axes from the first to the last with a stride, or none at the end. */
  ghost predicate Cut(strides: seq<int>, s: int, e: int) {
    && 0 <= s <= e <= |strides| && ZeroOutside(strides, s, e)
    && (if s == |strides| then e == s else s < e && strides[s] != 0 && strides[e - 1] != 0)
  }

  lemma CutExists(strides: seq<int>)
    ensures exists s, e :: Cut(strides, s, e)
  {
    var s, e := 0, |strides|;
    while s < |strides| && strides[s] == 0
      invariant 0 <= s <= |strides| && ZeroOutside(strides, s, e)
    {
      s := s + 1;
    }
    while s < |strides| && strides[e - 1] == 0
      invariant s <= e <= |strides| && (s < |strides| ==> s < e && strides[s] != 0) && ZeroOutside(strides, s, e)
      invariant s == |strides| ==> e == s
      decreases e
    {
      e := e - 1;
    }
    assert Cut(strides, s, e);
  }

  /** The run that a layout repeats, if the axes of its cut are packed. */
  ghost function Run(l: Layout): Option<Broadcast>
    requires l.Valid()
  {
    CutExists(l.strides);
    var s, e :| Cut(l.strides, s, e);
    RunBetween(l, s, e)
  }

  ghost function RunBetween(l: Layout, s: int, e: int): Option<Broadcast>
    requires l.Valid() && 0 <= s <= e <= |l.dims|
  {
    if Exact(l.dims[s..e], l.strides[s..e], 1)
    then Some(Broadcast(l.start, Prod(l.dims[s..e]), Prod(l.dims[..s]), Prod(l.dims[e..]))) else None
  }

  /** There is one cut only. */
  lemma RunIs(l: Layout, s: int, e: int)
    requires l.Valid() && Cut(l.strides, s, e)
    ensures Run(l) == RunBetween(l, s, e)
  {}

  /** No other choice of axes would do: strides of 0, a packed run, strides of 0, wherever they
      are cut, are recognised. */
  lemma RunComplete(l: Layout, s: nat, e: nat)
    requires l.Valid() && s <= e <= |l.dims| && ZeroOutside(l.strides, s, e)
    requires Exact(l.dims[s..e], l.strides[s..e], 1)
    ensures Run(l).Some?
  {
    CutExists(l.strides);
    var s', e' :| Cut(l.strides, s', e');
    RunIs(l, s', e');
    if s' < e' {
      LastOfRun(l, s, e);
      ExactWithin(l, s, e, s');
    }
  }

  lemma LastOfRun(l: Layout, s: nat, e: nat)
    requires l.Valid() && s <= e <= |l.dims| && Exact(l.dims[s..e], l.strides[s..e], 1)
    ensures s < e ==> l.strides[e - 1] == 1
  {
    if s < e {
      assert l.strides[s..e][e - 1 - s] == 1 * Prod(l.dims[s..e][e - s..]);
      assert l.dims[s..e][e - s..] == [];
    }
  }

  lemma ExactWithin(l: Layout, s: nat, e: nat, s': nat)
    requires l.Valid() && s <= s' <= e <= |l.dims| && Exact(l.dims[s..e], l.strides[s..e], 1)
    ensures Exact(l.dims[s'..e], l.strides[s'..e], 1)
  {
    forall j | 0 <= j < e - s' ensures l.strides[s'..e][j] == 1 * Prod(l.dims[s'..e][j + 1..]) {
      assert l.strides[s..e][s' - s + j] == 1 * Prod(l.dims[s..e][s' - s + j + 1..]);
      assert l.dims[s..e][s' - s + j + 1..] == l.dims[s'..e][j + 1..];
    }
  }

  /** The axes with stride 0 at the front. */
  method LeadingZeros(dims: seq<nat>, strides: seq<int>) returns (s: nat, left: nat)
    requires |dims| == |strides|
    ensures s <= |dims| && left == Prod(dims[..s]) && AllZero(strides[..s]) && (s < |dims| ==> strides[s] != 0)
  {
    s, left := 0, 1;
    while s < |dims| && strides[s] == 0
      invariant s <= |dims| && left == Prod(dims[..s]) && AllZero(strides[..s])
    {
      assert Init(dims[..s + 1]) == dims[..s];
      left := left * dims[s];
      s := s + 1;
    }
  }

  /** The axes with stride 0 at the back. */
  method TrailingZeros(dims: seq<nat>, strides: seq<int>, s: nat) returns (e: nat, right: nat)
    requires |dims| == |strides| && s < |dims| && strides[s] != 0
    ensures s < e <= |dims| && right == Prod(dims[e..]) && AllZero(strides[e..]) && strides[e - 1] != 0
  {
    e, right := |dims|, 1;
    while strides[e - 1] == 0
      invariant s < e <= |dims| && right == Prod(dims[e..|dims|]) && AllZero(strides[e..])
      decreases e
    {
      ProdCons(dims, e - 1, |dims|);
      right := right * dims[e - 1];
      e := e - 1;
    }
    assert dims[e..|dims|] == dims[e..];
  }

  lemma ProdCons(dims: seq<nat>, k: nat, e: nat)
    requires k < e <= |dims|
    ensures Prod(dims[k..e]) == Prod(dims[k + 1..e]) * dims[k]
  {
    var head, tail: seq<nat> := [dims[k]], dims[k + 1..e];
    ProdConcat(head, tail);
    assert Init(head) == [];
    assert head + tail == dims[k..e];
  }

  /** The run between them, if each stride is the size of what follows. */
  method RunLength(dims: seq<nat>, strides: seq<int>, s: nat, e: nat) returns (len: Option<nat>)
    requires |dims| == |strides| && s < e <= |dims|
    ensures len == if Exact(dims[s..e], strides[s..e], 1) then Some(Prod(dims[s..e])) else None
  {
    var n: nat, k := 1, e;
    while k > s
      invariant s <= k <= e && n == Prod(dims[k..e]) && forall j :: k <= j < e ==> strides[j] == Prod(dims[j + 1..e])
    {
      if strides[k - 1] != n {
        assert dims[s..e][k - s..] == dims[k..e];
        assert strides[s..e][k - 1 - s] != 1 * Prod(dims[s..e][k - s..]);
        return None;
      }
      ProdCons(dims, k - 1, e);
      n := n * dims[k - 1];
      k := k - 1;
    }
    forall j | 0 <= j < e - s ensures strides[s..e][j] == 1 * Prod(dims[s..e][j + 1..]) {
      assert dims[s..e][j + 1..] == dims[s + j + 1..e];
      assert strides[s + j] == Prod(dims[s + j + 1..e]);
    }
    len := Some(n);
  }

  lemma Thirds<T>(x: seq<T>, s: nat, e: nat)
    requires s <= e <= |x|
    ensures x[..s] + x[s..e] + x[e..] == x
  {}

  /** `Layout::offsets_b`. */
  method OffsetsB(l: Layout) returns (r: Option<Broadcast>)
    requires l.Valid()
    ensures r == Run(l)
    ensures r.Some? ==> IsBroadcast(l, r.value)
    ensures r.Some? && r.value.right == 1 && r.value.len == 0 ==> RowMajorFrom(l.dims, l.strides, 1)
  {
    var s, left := LeadingZeros(l.dims, l.strides);
    if s == |l.dims| {
      assert l.dims[..s] == l.dims && l.strides[..s] == l.strides;
      SandwichIsBroadcast(l.dims, [], [], l.strides, [], [], l.start);
      assert l.dims + [] + [] == l.dims && l.strides + [] + [] == l.strides;
      RunIs(l, s, s);
      return Some(Broadcast(l.start, 1, left, 1));
    }
    var e, right := TrailingZeros(l.dims, l.strides, s);
    var len := RunLength(l.dims, l.strides, s, e);
    RunIs(l, s, e);
    if len.None? {
      return None;
    }
    Found(l, s, e);
    r := Some(Broadcast(l.start, len.value, left, right));
  }

  lemma Found(l: Layout, s: nat, e: nat)
    requires l.Valid() && s < e <= |l.dims| && AllZero(l.strides[..s]) && AllZero(l.strides[e..])
    requires Exact(l.dims[s..e], l.strides[s..e], 1)
    ensures IsBroadcast(l, Broadcast(l.start, Prod(l.dims[s..e]), Prod(l.dims[..s]), Prod(l.dims[e..])))
    ensures Prod(l.dims[s..e]) == 0 && Prod(l.dims[e..]) == 1 ==> RowMajorFrom(l.dims, l.strides, 1)
  {
    Thirds(l.dims, s, e);
    Thirds(l.strides, s, e);
    SandwichIsBroadcast(l.dims[..s], l.dims[s..e], l.dims[e..], l.strides[..s], l.strides[s..e], l.strides[e..],
        l.start);
    if Prod(l.dims[s..e]) == 0 && Prod(l.dims[e..]) == 1 {
      EmptyRunIsContiguous(l.dims[..s], l.dims[s..e], l.dims[e..], l.strides[..s], l.strides[s..e], l.strides[e..]);
    }
  }
}
