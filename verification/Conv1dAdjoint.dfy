/** `ConvTranspose1D` is the adjoint of `Conv1D`: `<conv(x, k), y> == <x, convT(y, k)>`. */
module Conv1dAdjoint {
  import opened Sums
  import opened Radix
  import opened Tables
  import opened Conv1dSpec

  // ---------------------------------------------------------------- one pair of channels

  /** Output `l` of channel `co` against `y`, through input channel `ci` only. */
  ghost function Forward(g: Geometry1, x: View3, y: View3, k: View3, b: int, co: int, ci: int): (int, int) -> int {
    (l, t) => y.Get(b, co, l) * (Padded(g, x, b, ci, Reach1(g, l, t)) * k.Get(co, ci, t))
  }

  /** Input `i` of channel `ci` against what comes back from channel `co` only. */
  ghost function Backward(g: Geometry1, x: View3, y: View3, k: View3, b: int, co: int, ci: int): (int, int,
          int) -> int {
    (i, t, l) => x.Get(b, ci, i) * Hit1(g.Transposed(), y, k, b, ci, i, co)(t, l)
  }

  ghost function Paired(g: Geometry1, x: View3, y: View3, k: View3, b: int): (int, int) -> int {
    (co, ci) => Sum2(g.lOut, g.kSize, Forward(g, x, y, k, b, co, ci))
  }

  lemma BackwardTerm(g: Geometry1, x: View3, y: View3, k: View3, b: int, co: int, ci: int, i: int, t: int, l: int)
    ensures Backward(g, x, y, k, b, co, ci)(i, t, l)
            == if i == Reach1(g, l, t) - g.padding then y.Get(b, co, l) * (x.Get(b, ci, i) * k.Get(co, ci, t)) else 0
  {
    var h := Hit1(g.Transposed(), y, k, b, ci, i, co)(t, l);
    assert h == if i == Reach1(g, l, t) - g.padding then y.Get(b, co, l) * k.Get(co, ci, t) else 0;
    assert Backward(g, x, y, k, b, co, ci)(i, t, l) == x.Get(b, ci, i) * h;
    MulEq(h, if i == Reach1(g, l, t) - g.padding then y.Get(b, co, l) * k.Get(co, ci, t) else 0, x.Get(b, ci, i));
    Product3(x.Get(b, ci, i), y.Get(b, co, l), k.Get(co, ci, t));
  }

  /** Of all inputs, tap `t` of output `l` meets the one it reaches, or none. */
  lemma MeetsOne(g: Geometry1, x: View3, y: View3, k: View3, b: int, co: int, ci: int, t: int, l: int, f: int -> int)
    requires forall i :: f(i) == Backward(g, x, y, k, b, co, ci)(i, t, l)
    ensures Sum(g.lIn, f) == Forward(g, x, y, k, b, co, ci)(l, t)
  {
    var e := Reach1(g, l, t) - g.padding;
    forall i ensures f(i) == if i == e then y.Get(b, co, l) * (x.Get(b, ci, i) * k.Get(co, ci, t)) else 0 {
      BackwardTerm(g, x, y, k, b, co, ci, i, t, l);
    }
    SumSingle(g.lIn, e, f);
  }

  lemma Product3(a: int, b: int, c: int)
    ensures a * (b * c) == b * (a * c)
  {}

  lemma PairAgrees(g: Geometry1, x: View3, y: View3, k: View3, b: int, co: int, ci: int)
    ensures Sum3(g.lIn, g.kSize, g.lOut, Backward(g, x, y, k, b, co, ci)) == Paired(g, x, y, k, b)(co, ci)
  {
    var f, h := Forward(g, x, y, k, b, co, ci), Backward(g, x, y, k, b, co, ci);
    SumRotate(g.lIn, g.kSize, g.lOut, h);
    var P, Q := t => Sum2(g.lOut, g.lIn, Plane(Rotate(h), t)), t => Sum(g.lOut, Row(Swap(f), t));
    forall t | 0 <= t < g.kSize ensures P(t) == Q(t) {
      var r := Plane(Rotate(h), t);
      var U, V := l => Sum(g.lIn, Row(r, l)), Row(Swap(f), t);
      forall l | 0 <= l < g.lOut ensures U(l) == V(l) {
        MeetsOne(g, x, y, k, b, co, ci, t, l, Row(r, l));
      }
      SumExt(g.lOut, U, V);
    }
    SumExt(g.kSize, P, Q);
    SumSwap(g.lOut, g.kSize, f);
  }

  // ---------------------------------------------------------------- all channels

  /** `y` against one channel of the convolution, split by input channel. */
  lemma ForwardByChannel(g: Geometry1, x: View3, y: View3, k: View3, b: int, co: int, f: int -> int)
    requires forall l :: 0 <= l < g.lOut ==> f(l) == y.Get(b, co, l) * Conv1At(g, x, k, b, co, l)
    ensures Sum(g.lOut, f) == Sum(g.cIn, Row(Paired(g, x, y, k, b), co))
  {
    var h := (l, ci) => Sum(g.kSize, Row(Forward(g, x, y, k, b, co, ci), l));
    var U, V := f, l => Sum(g.cIn, Row(h, l));
    forall l | 0 <= l < g.lOut ensures U(l) == V(l) {
      OutputByChannel(g, x, y, k, b, co, l, Row(h, l));
    }
    SumExt(g.lOut, U, V);
    SumSwap(g.lOut, g.cIn, h);
    var P, Q := ci => Sum(g.lOut, Row(Swap(h), ci)), Row(Paired(g, x, y, k, b), co);
    forall ci | 0 <= ci < g.cIn ensures P(ci) == Q(ci) {
      SumExt(g.lOut, Row(Swap(h), ci), l => Sum(g.kSize, Row(Forward(g, x, y, k, b, co, ci), l)));
    }
    SumExt(g.cIn, P, Q);
  }

  lemma OutputByChannel(g: Geometry1, x: View3, y: View3, k: View3, b: int, co: int, l: int, h: int -> int)
    requires forall ci :: h(ci) == Sum(g.kSize, Row(Forward(g, x, y, k, b, co, ci), l))
    ensures y.Get(b, co, l) * Conv1At(g, x, k, b, co, l) == Sum(g.cIn, h)
  {
    var tap := Tap1(g, x, k, b, co, l);
    var F := ci => Sum(g.kSize, Row(tap, ci));
    forall ci | 0 <= ci < g.cIn ensures h(ci) == y.Get(b, co, l) * F(ci) {
      SumScale(g.kSize, y.Get(b, co, l), Row(tap, ci), Row(Forward(g, x, y, k, b, co, ci), l));
    }
    SumScale(g.cIn, y.Get(b, co, l), F, h);
  }

  /** `x` against one channel of what comes back, split by output channel. */
  lemma BackwardByChannel(g: Geometry1, x: View3, y: View3, k: View3, b: int, ci: int, f: int -> int)
    requires forall i :: 0 <= i < g.lIn ==> f(i) == x.Get(b, ci, i) * ConvT1At(g.Transposed(), y, k, b, ci, i)
    ensures Sum(g.lIn, f) == Sum(g.cOut, Row(Swap(Paired(g, x, y, k, b)), ci))
  {
    var h := (i, co) => Sum2(g.kSize, g.lOut, Plane(Backward(g, x, y, k, b, co, ci), i));
    var U, V := f, i => Sum(g.cOut, Row(h, i));
    forall i | 0 <= i < g.lIn ensures U(i) == V(i) {
      InputByChannel(g, x, y, k, b, ci, i, Row(h, i));
    }
    SumExt(g.lIn, U, V);
    SumSwap(g.lIn, g.cOut, h);
    var P, Q := co => Sum(g.lIn, Row(Swap(h), co)), Row(Swap(Paired(g, x, y, k, b)), ci);
    forall co | 0 <= co < g.cOut ensures P(co) == Q(co) {
      SumExt(g.lIn, Row(Swap(h), co), i => Sum2(g.kSize, g.lOut, Plane(Backward(g, x, y, k, b, co, ci), i)));
      PairAgrees(g, x, y, k, b, co, ci);
    }
    SumExt(g.cOut, P, Q);
  }

  lemma InputByChannel(g: Geometry1, x: View3, y: View3, k: View3, b: int, ci: int, i: int, h: int -> int)
    requires forall co :: h(co) == Sum2(g.kSize, g.lOut, Plane(Backward(g, x, y, k, b, co, ci), i))
    ensures x.Get(b, ci, i) * ConvT1At(g.Transposed(), y, k, b, ci, i) == Sum(g.cOut, h)
  {
    var F := HitsOf(g.Transposed(), y, k, b, ci, i);
    forall co | 0 <= co < g.cOut ensures h(co) == x.Get(b, ci, i) * F(co) {
      Sum2Scale(g.kSize, g.lOut, x.Get(b, ci, i), Hit1(g.Transposed(), y, k, b, ci, i, co),
          Plane(Backward(g, x, y, k, b, co, ci), i));
    }
    SumScale(g.cOut, x.Get(b, ci, i), F, h);
  }

  lemma Sum2Scale(n: nat, m: nat, c: int, f: (int, int) -> int, g: (int, int) -> int)
    requires forall i, j :: g(i, j) == c * f(i, j)
    ensures Sum2(n, m, g) == c * Sum2(n, m, f)
  {
    var F, G := i => Sum(m, Row(f, i)), i => Sum(m, Row(g, i));
    forall i | 0 <= i < n ensures G(i) == c * F(i) {
      SumScale(m, c, Row(f, i), Row(g, i));
    }
    SumScale(n, c, F, G);
  }

  // ---------------------------------------------------------------- the theorem

  /** A row-major buffer `[_, channels, len]` against a tensor of the same shape. */
  ghost function Against(out: seq<int>, v: View3, channels: int, len: int): (int, int, int) -> int {
    (b, c, l) => v.Get(b, c, l) * At(out, Pos3(b, c, l, channels, len))
  }

  ghost function InnerView(out: seq<int>, v: View3, batch: nat, channels: nat, len: nat): int {
    Sum3(batch, channels, len, Against(out, v, channels, len))
  }

  lemma Adjoint(g: Geometry1, x: View3, y: View3, k: View3, out: seq<int>, back: seq<int>)
    requires IsConv1d(out, g, x, k) && IsConvT1d(back, g.Transposed(), y, k)
    ensures InnerView(out, y, g.batch, g.cOut, g.lOut) == InnerView(back, x, g.batch, g.cIn, g.lIn)
  {
    var F, B := Against(out, y, g.cOut, g.lOut), Against(back, x, g.cIn, g.lIn);
    var P, Q := b => Sum2(g.cOut, g.lOut, Plane(F, b)), b => Sum2(g.cIn, g.lIn, Plane(B, b));
    forall b | 0 <= b < g.batch ensures P(b) == Q(b) {
      ForwardEntry(g, x, y, k, out, b);
      BackwardEntry(g, x, y, k, back, b);
      SumSwap(g.cOut, g.cIn, Paired(g, x, y, k, b));
    }
    SumExt(g.batch, P, Q);
  }

  lemma ForwardEntry(g: Geometry1, x: View3, y: View3, k: View3, out: seq<int>, b: int)
    requires IsConv1d(out, g, x, k) && 0 <= b < g.batch
    ensures Sum2(g.cOut, g.lOut, Plane(Against(out, y, g.cOut, g.lOut), b))
            == Sum2(g.cOut, g.cIn, Paired(g, x, y, k, b))
  {
    var F, pair := Plane(Against(out, y, g.cOut, g.lOut), b), Paired(g, x, y, k, b);
    var P, Q := co => Sum(g.lOut, Row(F, co)), co => Sum(g.cIn, Row(pair, co));
    forall co | 0 <= co < g.cOut ensures P(co) == Q(co) {
      var f := Row(F, co);
      forall l | 0 <= l < g.lOut ensures f(l) == y.Get(b, co, l) * Conv1At(g, x, k, b, co, l) {
        assert Cell1(g, b, co, l);
      }
      ForwardByChannel(g, x, y, k, b, co, f);
    }
    SumExt(g.cOut, P, Q);
  }

  lemma BackwardEntry(g: Geometry1, x: View3, y: View3, k: View3, back: seq<int>, b: int)
    requires IsConvT1d(back, g.Transposed(), y, k) && 0 <= b < g.batch
    ensures Sum2(g.cIn, g.lIn, Plane(Against(back, x, g.cIn, g.lIn), b))
            == Sum2(g.cIn, g.cOut, Swap(Paired(g, x, y, k, b)))
  {
    var B, pair := Plane(Against(back, x, g.cIn, g.lIn), b), Swap(Paired(g, x, y, k, b));
    var P, Q := ci => Sum(g.lIn, Row(B, ci)), ci => Sum(g.cOut, Row(pair, ci));
    forall ci | 0 <= ci < g.cIn ensures P(ci) == Q(ci) {
      var f := Row(B, ci);
      forall i | 0 <= i < g.lIn ensures f(i) == x.Get(b, ci, i) * ConvT1At(g.Transposed(), y, k, b, ci, i) {
        assert Cell1(g.Transposed(), b, ci, i);
      }
      BackwardByChannel(g, x, y, k, b, ci, f);
    }
    SumExt(g.cIn, P, Q);
  }

  /** The same for buffers: the inner products of the two kernels' results agree, with the
      parameters of the way back that `LengthsMatch` gives. */
  lemma AdjointBuffers(p: ParamsConv1D, x: seq<int>, y: seq<int>, k: View3, out: seq<int>, back: seq<int>)
    requires p.Valid() && |x| == p.bSize * p.cIn * p.lIn && |y| == p.bSize * p.cOut * p.LOut()
    requires IsConv1d(out, p.Geom(), RowMajor3(x, p.cIn, p.lIn), k)
    requires IsConvT1d(back, p.Geom().Transposed(), RowMajor3(y, p.cOut, p.LOut()), k)
    ensures |out| == |y| && |back| == |x| && Inner(out, y) == Inner(x, back)
  {
    var g := p.Geom();
    Adjoint(g, RowMajor3(x, p.cIn, p.lIn), RowMajor3(y, p.cOut, p.LOut()), k, out, back);
    InnerIsView(out, y, g.batch, g.cOut, g.lOut);
    InnerIsView(back, x, g.batch, g.cIn, g.lIn);
    InnerSymmetric(x, back);
  }

  function RowMajor3(data: seq<int>, channels: int, len: int): View3 { View3(data, 0, channels * len, len, 1) }

  lemma InnerIsView(out: seq<int>, y: seq<int>, batch: nat, channels: nat, len: nat)
    requires |out| == |y| == batch * channels * len
    ensures Inner(out, y) == InnerView(out, RowMajor3(y, channels, len), batch, channels, len)
  {
    var f, h := i => At(out, i) * At(y, i), Against(out, RowMajor3(y, channels, len), channels, len);
    forall b, c, l | 0 <= b < batch && 0 <= c < channels && 0 <= l < len
      ensures h(b, c, l) == f((b * channels + c) * len + l)
    {
      Horner3(b, c, l, channels, len);
    }
    SumFlatten3(batch, channels, len, f, h);
    assert Inner(out, y) == Sum(|out|, f);
  }

  lemma InnerSymmetric(a: seq<int>, b: seq<int>)
    requires |a| == |b|
    ensures Inner(a, b) == Inner(b, a)
  {
    SumExt(|a|, i => At(a, i) * At(b, i), i => At(b, i) * At(a, i));
  }
}
