/** What the one-dimensional convolutions compute, on strided operands. */
module Conv1dSpec {
  import opened Sums
  import opened Radix
  import opened Wrappers
  import opened Layouts
  import opened Tables
  import opened ConvSpec

  /** A tensor of rank three read through its strides. */
  datatype View3 = View3(data: seq<int>, start: int, s0: int, s1: int, s2: int) {
    function Idx(a: int, b: int, c: int): int { start + a * s0 + b * s1 + c * s2 }
    function Get(a: int, b: int, c: int): int { At(data, Idx(a, b, c)) }
  }

  ghost predicate Inside3(v: View3, d0: int, d1: int, d2: int) {
    forall a, b, c :: 0 <= a < d0 && 0 <= b < d1 && 0 <= c < d2 ==> 0 <= v.Idx(a, b, c) < |v.data|
  }

  /** The sizes of one convolution, in either direction. */
  datatype Geometry1 = Geometry1(
    batch: nat, cIn: nat, cOut: nat, lIn: nat, lOut: nat, kSize: nat, padding: nat, stride: nat, dilation: nat)
  {
    /** The geometry of the convolution in the other direction. */
    function Transposed(): Geometry1 {
      Geometry1(batch, cOut, cIn, lOut, lIn, kSize, padding, stride, dilation)
    }
  }

  // ---------------------------------------------------------------- convolution

  /** Where tap `t` of output `l` falls in the padded input. */
  function Reach1(g: Geometry1, l: int, t: int): int { l * g.stride + t * g.dilation }

  /** The padded input. */
  function Padded(g: Geometry1, x: View3, b: int, ci: int, pos: int): int {
    if g.padding <= pos < g.padding + g.lIn then x.Get(b, ci, pos - g.padding) else 0
  }

  ghost function Tap1(g: Geometry1, x: View3, k: View3, b: int, co: int, l: int): (int, int) -> int {
    (ci, t) => Padded(g, x, b, ci, Reach1(g, l, t)) * k.Get(co, ci, t)
  }

  ghost function Conv1At(g: Geometry1, x: View3, k: View3, b: int, co: int, l: int): int {
    Sum2(g.cIn, g.kSize, Tap1(g, x, k, b, co, l))
  }

  predicate Cell1(g: Geometry1, b: int, co: int, l: int) { 0 <= b < g.batch && 0 <= co < g.cOut && 0 <= l < g.lOut }

  ghost predicate IsConv1d(out: seq<int>, g: Geometry1, x: View3, k: View3) {
    && |out| == g.batch * g.cOut * g.lOut
    && forall b, co, l :: Cell1(g, b, co, l)
         ==> 0 <= Pos3(b, co, l, g.cOut, g.lOut) < |out|
             && out[Pos3(b, co, l, g.cOut, g.lOut)] == Conv1At(g, x, k, b, co, l)
  }

  lemma Conv1dUnique(out: seq<int>, out': seq<int>, g: Geometry1, x: View3, k: View3)
    requires IsConv1d(out, g, x, k) && IsConv1d(out', g, x, k)
    ensures out == out'
  {
    forall p | 0 <= p < |out| ensures out[p] == out'[p] {
      Some3(p, g.batch, g.cOut, g.lOut);
      var b, co, l := Pos3Of(p, g.batch, g.cOut, g.lOut);
    }
  }

  // ---------------------------------------------------------------- transposed convolution

  /** Input `l` through tap `t` reaches output `o`, or not. */
  ghost function Hit1(g: Geometry1, y: View3, k: View3, b: int, co: int, o: int, ci: int): (int, int) -> int {
    (t, l) => if Reach1(g, l, t) - g.padding == o then y.Get(b, ci, l) * k.Get(ci, co, t) else 0
  }

  ghost function HitsOf(g: Geometry1, y: View3, k: View3, b: int, co: int, o: int): int -> int {
    ci => Sum2(g.kSize, g.lIn, Hit1(g, y, k, b, co, o, ci))
  }

  ghost function ConvT1At(g: Geometry1, y: View3, k: View3, b: int, co: int, o: int): int {
    Sum(g.cIn, HitsOf(g, y, k, b, co, o))
  }

  ghost predicate IsConvT1d(out: seq<int>, g: Geometry1, y: View3, k: View3) {
    && |out| == g.batch * g.cOut * g.lOut
    && forall b, co, o :: Cell1(g, b, co, o)
         ==> 0 <= Pos3(b, co, o, g.cOut, g.lOut) < |out|
             && out[Pos3(b, co, o, g.cOut, g.lOut)] == ConvT1At(g, y, k, b, co, o)
  }

  // ---------------------------------------------------------------- parameters

  datatype ParamsConv1D = ParamsConv1D(
    bSize: nat, lIn: nat, cOut: nat, cIn: nat, kSize: nat, padding: nat, stride: nat, dilation: nat)
  {
    predicate Valid() { stride >= 1 && kSize >= 1 && lIn + 2 * padding >= dilation * (kSize - 1) + 1 }

    /** What the last window leaves over. */
    function Slack(): nat requires Valid() { lIn + 2 * padding - dilation * (kSize - 1) - 1 }

    function LOut(): nat requires Valid() { Slack() / stride + 1 }

    function Geom(): Geometry1 requires Valid() {
      Geometry1(bSize, cIn, cOut, lIn, LOut(), kSize, padding, stride, dilation)
    }
  }

  datatype ParamsConvTranspose1D = ParamsConvTranspose1D(
    bSize: nat, lIn: nat, cOut: nat, cIn: nat, kSize: nat, padding: nat, outputPadding: nat, stride: nat, dilation: nat)
  {
    function Span(): int { (lIn - 1) * stride - 2 * padding + dilation * (kSize - 1) + outputPadding + 1 }

    predicate Valid() { lIn >= 1 && kSize >= 1 && Span() >= 0 }

    function LOut(): nat requires Valid() { Span() }

    /** A checked build stops at a product or a sum that does not fit a word and at a negative
        difference. */
    predicate Checks(word: nat)
      requires lIn >= 1 && kSize >= 1
    {
      && (lIn - 1) * stride < word && 2 * padding < word && 2 * padding <= (lIn - 1) * stride
      && dilation * (kSize - 1) < word && Span() < word
    }

    /** The length as a machine of `word` values computes it; an unchecked build wraps. */
    function LOutMachine(word: nat, checked: bool): Result<nat>
      requires lIn >= 1 && kSize >= 1 && word > 0
    {
      var first := (lIn - 1) * stride - 2 * padding;
      if checked && !Checks(word) then Err(Overflow)
      else Ok((first % word + dilation * (kSize - 1) + outputPadding + 1) % word)
    }

    function Geom(): Geometry1 requires Valid() {
      Geometry1(bSize, cIn, cOut, lIn, LOut(), kSize, padding, stride, dilation)
    }
  }

  // ---------------------------------------------------------------- what the parameters mean

  lemma ValidIff(p: ParamsConv1D)
    ensures p.Valid() <==> p.stride > 0 && FirstWindowFits(p.lIn, p.padding, p.dilation, p.kSize)
  {}

  lemma OutputsAreWindows(p: ParamsConv1D)
    requires p.Valid()
    ensures Windows(p.Geom().lOut, p.lIn, p.padding, p.dilation * (p.kSize - 1) + 1, p.stride)
  {
    WindowsFit(p.lIn, p.padding, p.dilation * (p.kSize - 1) + 1, p.stride);
  }

  ghost function InputAt(lIn: nat, x: View3, b: int, c: int, i: int): int {
    if 0 <= i < lIn then At(x.data, x.start + b * x.s0 + c * x.s1 + i * x.s2) else 0
  }

  ghost function KernelAt(k: View3, a: int, b: int, t: int): int {
    At(k.data, k.start + a * k.s0 + b * k.s1 + t * k.s2)
  }

  ghost function TermOf(p: ParamsConv1D, x: View3, k: View3, b: int, co: int, l: int): (int, int) -> int {
    (ci, t) => InputAt(p.lIn, x, b, ci, l * p.stride + t * p.dilation - p.padding) * KernelAt(k, co, ci, t)
  }

  /** What both one-dimensional kernels leave, from the parameters and strides alone. */
  lemma ConvMeans(p: ParamsConv1D, x: View3, k: View3, out: seq<int>, lOut: nat, b: int, co: int, l: int)
    requires p.Valid() && IsConv1d(out, p.Geom(), x, k)
    requires Windows(lOut, p.lIn, p.padding, p.dilation * (p.kSize - 1) + 1, p.stride)
    requires 0 <= b < p.bSize && 0 <= co < p.cOut && 0 <= l < lOut
    ensures |out| == p.bSize * p.cOut * lOut
    ensures var q := Ravel([p.bSize, p.cOut, lOut], [b, co, l]);
            0 <= q < |out| && out[q] == Sum2(p.cIn, p.kSize, TermOf(p, x, k, b, co, l))
  {
    var g := p.Geom();
    OutputsAreWindows(p);
    WindowsUnique(g.lOut, lOut, p.lIn, p.padding, p.dilation * (p.kSize - 1) + 1, p.stride);
    Ravel3([p.bSize, p.cOut, lOut], [b, co, l]);
    assert Cell1(g, b, co, l);
    SumMeans(p, x, k, b, co, l);
  }

  lemma SumMeans(p: ParamsConv1D, x: View3, k: View3, b: int, co: int, l: int)
    requires p.Valid()
    ensures Conv1At(p.Geom(), x, k, b, co, l) == Sum2(p.cIn, p.kSize, TermOf(p, x, k, b, co, l))
  {
    var tap, term := Tap1(p.Geom(), x, k, b, co, l), TermOf(p, x, k, b, co, l);
    forall ci, t ensures tap(ci, t) == term(ci, t) {
      assert Reach1(p.Geom(), l, t) == l * p.stride + t * p.dilation;
    }
    Sum2Ext(p.cIn, p.kSize, tap, term);
  }

  ghost function ArrivalOf(p: ParamsConvTranspose1D, y: View3, k: View3, b: int, co: int, o: int, ci: int)
    : (int, int) -> int
  {
    (t, l) => if l * p.stride + t * p.dilation - p.padding != o then 0
              else InputAt(p.lIn, y, b, ci, l) * KernelAt(k, ci, co, t)
  }

  ghost function ArrivalsOf(p: ParamsConvTranspose1D, y: View3, k: View3, b: int, co: int, o: int): int -> int {
    ci => Sum2(p.kSize, p.lIn, ArrivalOf(p, y, k, b, co, o, ci))
  }

  /** The output of the transposed convolution ends `outputPadding` cells after the last that is
      reached, less the padding on both sides. */
  lemma TransposedLength(p: ParamsConvTranspose1D)
    requires p.Valid()
    ensures p.padding + p.Geom().lOut + p.padding
            == ((p.lIn - 1) * p.stride + (p.kSize - 1) * p.dilation) + 1 + p.outputPadding
  {}

  /** What the transposed kernel leaves, from the parameters and strides alone. */
  lemma TransposedMeans(p: ParamsConvTranspose1D, y: View3, k: View3, out: seq<int>, lOut: nat, b: int, co: int, o: int)
    requires p.Valid() && IsConvT1d(out, p.Geom(), y, k)
    requires lOut + 2 * p.padding == (p.lIn - 1) * p.stride + (p.kSize - 1) * p.dilation + 1 + p.outputPadding
    requires 0 <= b < p.bSize && 0 <= co < p.cOut && 0 <= o < lOut
    ensures |out| == p.bSize * p.cOut * lOut
    ensures var q := Ravel([p.bSize, p.cOut, lOut], [b, co, o]);
            0 <= q < |out| && out[q] == Sum(p.cIn, ArrivalsOf(p, y, k, b, co, o))
  {
    var g := p.Geom();
    TransposedLength(p);
    Ravel3([p.bSize, p.cOut, lOut], [b, co, o]);
    assert Cell1(g, b, co, o);
    var hits, arrivals := HitsOf(g, y, k, b, co, o), ArrivalsOf(p, y, k, b, co, o);
    forall ci | 0 <= ci < p.cIn ensures hits(ci) == arrivals(ci) {
      var hit, arrival := Hit1(g, y, k, b, co, o, ci), ArrivalOf(p, y, k, b, co, o, ci);
      forall t, l | 0 <= t < p.kSize && 0 <= l < p.lIn ensures hit(t, l) == arrival(t, l) {}
      Sum2Ext(p.kSize, p.lIn, hit, arrival);
    }
    SumExt(p.cIn, hits, arrivals);
  }

  // ---------------------------------------------------------------- lengths

  /** A length that fits a word is computed, unless a checked build stops on the way to it. */
  lemma LOutOfMachine(p: ParamsConvTranspose1D, word: nat, checked: bool)
    requires p.Valid() && p.LOut() < word
    ensures p.LOutMachine(word, checked)
            == if checked && !(2 * p.padding <= (p.lIn - 1) * p.stride < word) then Err(Overflow) else Ok(p.LOut())
  {
    MulMono(0, p.dilation, p.kSize - 1);
    Unwrapped((p.lIn - 1) * p.stride - 2 * p.padding, p.dilation * (p.kSize - 1) + p.outputPadding + 1, word);
  }

  lemma Unwrapped(a: int, b: int, word: int)
    requires 0 <= a + b < word
    ensures (a % word + b) % word == a + b
  {
    var q := -(a / word);
    Euclid(q, a + b, word);
  }

  /** One element, a kernel of three and a padding of one: the length is one, and a checked
      build does not get there. */
  lemma LOutStops(word: nat)
    requires word > 0
    ensures var p := ParamsConvTranspose1D(1, 1, 1, 1, 3, 1, 0, 1, 1);
            p.Valid() && p.LOut() == 1 && p.LOutMachine(word, true) == Err(Overflow)
  {}

  /** A product that fills a word: the length fits, and a checked build does not get there. */
  lemma LOutOverflows(h: nat)
    requires h > 0
    ensures var p, word := ParamsConvTranspose1D(1, 3, 1, 1, 1, h, 0, 2 * h, 1), 4 * h;
            p.Valid() && p.LOut() == 2 * h + 1 < word && p.LOutMachine(word, true) == Err(Overflow)
  {}

  /** The parameters of the way back. */
  function Back(p: ParamsConv1D, outputPadding: nat): ParamsConvTranspose1D
    requires p.Valid()
  {
    ParamsConvTranspose1D(p.bSize, p.LOut(), p.cIn, p.cOut, p.kSize, p.padding, outputPadding, p.stride, p.dilation)
  }

  /** The way back has the length of the input for exactly one output padding: what the last
      window left over. A checked build stops on the way exactly when the unpadded input is
      shorter than the window and that remainder. */
  lemma LengthsMatch(p: ParamsConv1D, outputPadding: nat)
    requires p.Valid()
    ensures Back(p, outputPadding).Span() == p.lIn <==> outputPadding == p.Slack() % p.stride
    ensures Back(p, outputPadding).Span() == p.lIn ==>
              Back(p, outputPadding).Valid() && Back(p, outputPadding).Geom() == p.Geom().Transposed()
    ensures (p.LOut() - 1) * p.stride < 2 * p.padding
            <==> p.lIn < p.dilation * (p.kSize - 1) + 1 + p.Slack() % p.stride
  {
    assert p.Slack() == p.Slack() / p.stride * p.stride + p.Slack() % p.stride;
  }
}
