/** Fixtures from consensus, and validation against them. */
module Fixtures {
  import opened Sorting
  import opened Medians
  import opened Consensus

  /** `f64::MIN_POSITIVE`. */
  const F64_MIN: real := 1.0 / Pow2(1022)

  const EPSILON: real := 0.001

  datatype ToleranceBand = ToleranceBand(maxRelative: real, maxAbsolute: real)

  // ---------------------------------------------------------------- validation

  /** No drift at one element: nothing is asked of an expected NaN or infinity; otherwise the
      relative or the absolute error must be in the band. */
  predicate Within(e: Elem, a: Elem, band: ToleranceBand, floor: real)
    requires floor > 0.0
  {
    e.NonFinite? || (a.Finite? && (RelErr(e.x, a.x, floor) <= band.maxRelative || Abs(e.x - a.x) <= band.maxAbsolute))
  }

  datatype Drift = Pass | LengthMismatch | NonFiniteAt(index: nat) | OutOfTolerance(index: nat)

  /** `validate_f32` from element `i` on. */
  function DriftFrom(expected: seq<Elem>, actual: seq<Elem>, band: ToleranceBand, floor: real, i: nat): Drift
    requires |expected| == |actual| && i <= |expected| && floor > 0.0
    decreases |expected| - i
  {
    if i == |expected| then Pass
    else if actual[i].NonFinite? && expected[i].Finite? then NonFiniteAt(i)
    else if expected[i].Finite? && RelErr(expected[i].x, actual[i].x, floor) > band.maxRelative
            && Abs(expected[i].x - actual[i].x) > band.maxAbsolute then OutOfTolerance(i)
    else DriftFrom(expected, actual, band, floor, i + 1)
  }

  /** `validate_against_fixture` for `f32`. */
  function Validate(expected: seq<Elem>, actual: seq<Elem>, band: ToleranceBand, floor: real): Drift
    requires floor > 0.0
  {
    if |actual| != |expected| then LengthMismatch else DriftFrom(expected, actual, band, floor, 0)
  }

  /** Every element before the reported one is within the band, and that one is not. */
  lemma {:induction false} FirstDrift(expected: seq<Elem>, actual: seq<Elem>, band: ToleranceBand, floor: real, i: nat)
    requires |expected| == |actual| && i <= |expected| && floor > 0.0
    ensures match DriftFrom(expected, actual, band, floor, i)
            case Pass => forall k :: i <= k < |expected| ==> Within(expected[k], actual[k], band, floor)
            case NonFiniteAt(j) =>
              i <= j < |expected| && actual[j].NonFinite? && !Within(expected[j], actual[j], band, floor)
              && forall k :: i <= k < j ==> Within(expected[k], actual[k], band, floor)
            case OutOfTolerance(j) =>
              i <= j < |expected| && actual[j].Finite? && !Within(expected[j], actual[j], band, floor)
              && forall k :: i <= k < j ==> Within(expected[k], actual[k], band, floor)
            case LengthMismatch => false
    decreases |expected| - i
  {
    if i < |expected| {
      FirstDrift(expected, actual, band, floor, i + 1);
    }
  }

  lemma PassIff(expected: seq<Elem>, actual: seq<Elem>, band: ToleranceBand, floor: real)
    requires floor > 0.0
    ensures Validate(expected, actual, band, floor) == Pass
            <==> && |actual| == |expected|
                 && forall k :: 0 <= k < |expected| ==> Within(expected[k], actual[k], band, floor)
  {
    if |actual| == |expected| {
      FirstDrift(expected, actual, band, floor, 0);
    }
  }

  /** An output passes if and only if it has the length and, wherever a number is expected, a number
      that is off by no more than the absolute bound, or than the relative bound times the larger of
      the two or the floor. */
  lemma ValidateIff(expected: seq<Elem>, actual: seq<Elem>, band: ToleranceBand, floor: real)
    requires floor > 0.0
    ensures Validate(expected, actual, band, floor) == Pass
            <==> && |actual| == |expected|
                 && forall k :: 0 <= k < |expected| && expected[k].Finite? ==>
                      && actual[k].Finite?
                      && (|| Near(expected[k].x, actual[k].x, band.maxAbsolute)
                          || (band.maxRelative >= 0.0
                              && InProportion(expected[k].x, actual[k].x, floor, band.maxRelative)))
  {
    PassIff(expected, actual, band, floor);
    if |actual| == |expected| {
      forall k | 0 <= k < |expected| && expected[k].Finite? && actual[k].Finite?
        ensures Within(expected[k], actual[k], band, floor)
                <==> || Near(expected[k].x, actual[k].x, band.maxAbsolute)
                     || (band.maxRelative >= 0.0 && InProportion(expected[k].x, actual[k].x, floor, band.maxRelative))
      {
        RelErrIff(expected[k].x, actual[k].x, floor, band.maxRelative);
      }
    }
  }

  // ---------------------------------------------------------------- the median

  predicate HasNumber(o: seq<Elem>, i: int) { 0 <= i < |o| && o[i].Finite? }

  /** Element `i` of every member. */
  ghost function Column(outputs: seq<seq<Elem>>, i: int): seq<real>
    requires forall k :: 0 <= k < |outputs| ==> HasNumber(outputs[k], i)
  {
    seq(|outputs|, k requires 0 <= k < |outputs| => assert HasNumber(outputs[k], i); outputs[k][i].x)
  }

  ghost predicate AllFinite(outputs: seq<seq<Elem>>) {
    forall k, i :: 0 <= k < |outputs| && 0 <= i < |outputs[k]| ==> outputs[k][i].Finite?
  }

  ghost predicate SameLength(outputs: seq<seq<Elem>>, len: nat) {
    forall k :: 0 <= k < |outputs| ==> |outputs[k]| == len
  }

  ghost predicate IsMedianOf(result: seq<Elem>, outputs: seq<seq<Elem>>)
    requires AllFinite(outputs) && SameLength(outputs, |result|)
  {
    forall i :: 0 <= i < |result| ==> result[i].Finite? && IsLowerMedian(result[i].x, Column(outputs, i))
  }

  /** One element: `scratch`, sorted, and its lower middle. */
  method MedianAt(outputs: seq<seq<Elem>>, i: nat) returns (m: real)
    requires |outputs| > 0 && forall k :: 0 <= k < |outputs| ==> HasNumber(outputs[k], i)
    ensures IsLowerMedian(m, Column(outputs, i))
  {
    var scratch: seq<real> := [];
    for k := 0 to |outputs|
      invariant |scratch| == k && forall q :: 0 <= q < k ==> scratch[q] == outputs[q][i].x
    {
      scratch := scratch + [outputs[k][i].x];
    }
    assert scratch == Column(outputs, i);
    var s := SortReals(scratch);
    assert |s| == |multiset(s)| == |multiset(scratch)| == |scratch|;
    m := s[(|s| - 1) / 2];
  }

  /** A column of numbers has its lower median. In any other the comparison falls back to calling
      elements equal, so that the sort promises no order, and some element of it is taken. */
  ghost predicate IsMiddle(v: Elem, outputs: seq<seq<Elem>>, i: int)
    requires 0 <= i && forall k :: 0 <= k < |outputs| ==> i < |outputs[k]|
  {
    if forall k :: 0 <= k < |outputs| ==> HasNumber(outputs[k], i)
    then v.Finite? && IsLowerMedian(v.x, Column(outputs, i))
    else exists k :: 0 <= k < |outputs| && v == outputs[k][i]
  }

  /** `elementwise_median_f32`. */
  method ElementwiseMedian(outputs: seq<seq<Elem>>) returns (result: seq<Elem>)
    ensures |outputs| == 0 || !SameLength(outputs, |outputs[0]|) ==> result == []
    ensures |outputs| > 0 && SameLength(outputs, |outputs[0]|) ==>
              |result| == |outputs[0]| && forall i :: 0 <= i < |result| ==> IsMiddle(result[i], outputs, i)
  {
    result := [];
    if |outputs| == 0 {
      return;
    }
    var len := |outputs[0]|;
    if k :| 0 <= k < |outputs| && |outputs[k]| != len {
      return;
    }
    for i := 0 to len
      invariant |result| == i && forall j :: 0 <= j < i ==> IsMiddle(result[j], outputs, j)
    {
      var v := MiddleAt(outputs, i);
      result := result + [v];
    }
  }

  method MiddleAt(outputs: seq<seq<Elem>>, i: nat) returns (v: Elem)
    requires |outputs| > 0 && forall k :: 0 <= k < |outputs| ==> i < |outputs[k]|
    ensures IsMiddle(v, outputs, i)
  {
    if k :| 0 <= k < |outputs| && !HasNumber(outputs[k], i) {
      var any :| 0 <= any < |outputs|;
      v := outputs[any][i];
    } else {
      var m := MedianAt(outputs, i);
      v := Finite(m);
    }
  }

  // ---------------------------------------------------------------- the decision

  datatype Decision = Fixture(expected: seq<Elem>) | InsufficientPeers(backendCount: nat)
      | NoMajority(backendCount: nat, clusterSize: nat)

  predicate Numbers(c: seq<nat>, n: nat) { forall q :: 0 <= q < |c| ==> c[q] < n }

  ghost function Chosen(outputs: seq<seq<Elem>>, c: seq<nat>): seq<seq<Elem>>
    requires Numbers(c, |outputs|)
  {
    seq(|c|, q requires 0 <= q < |c| => outputs[c[q]])
  }

  /** Members of a cluster of two or more have one length and are finite. */
  lemma ClusterIsFinite(outputs: seq<seq<Elem>>, c: seq<nat>)
    requires |c| >= 2 && Distinct(c) && IsClique(Agreement(outputs, EPSILON), c) && Numbers(c, |outputs|)
    ensures AllFinite(Chosen(outputs, c)) && SameLength(Chosen(outputs, c), |outputs[c[0]]|)
  {
    var ch: seq<seq<Elem>> := Chosen(outputs, c);
    forall q | 0 <= q < |ch| ensures |ch[q]| == |ch[0]| && (forall i: int :: 0 <= i < |ch[q]| ==> ch[q][i].Finite?) {
      var p := if q == 0 then 1 else 0;
      assert c[q] in c && c[p] in c && c[0] in c;
      assert Agreement(outputs, EPSILON)(c[q], c[p]) && Agreement(outputs, EPSILON)(c[q], c[0]);
    }
  }

  ghost predicate IsFixture(expected: seq<Elem>, outputs: seq<seq<Elem>>, c: seq<nat>) {
    && Numbers(c, |outputs|)
    && AllFinite(Chosen(outputs, c)) && SameLength(Chosen(outputs, c), |expected|)
       && IsMedianOf(expected, Chosen(outputs, c))
  }

  /** `fixture_from_consensus`: a strict majority, or the reason why not. */
  method FixtureFromConsensus(outputs: seq<seq<Elem>>) returns (d: Decision, ghost c: seq<nat>)
    ensures |outputs| < 2 ==> d == InsufficientPeers(|outputs|)
    ensures |outputs| >= 2 ==> IsSorted(c, Best(Agreement(outputs, EPSILON), |outputs|, |outputs|))
    ensures |outputs| >= 2 && 2 * |c| <= |outputs| ==> d == NoMajority(|outputs|, |c|)
    ensures |outputs| >= 2 && 2 * |c| > |outputs| ==> d.Fixture? && IsFixture(d.expected, outputs, c)
  {
    c := [];
    var n := |outputs|;
    if n < 2 {
      return InsufficientPeers(n), c;
    }
    var consensus := ComputePairwiseConsensus(outputs, EPSILON);
    c := consensus;
    AgreementIsTolerance(outputs, EPSILON);
    BestIsMaximal(Agreement(outputs, EPSILON), n);
    if |consensus| * 2 <= n {
      return NoMajority(n, |consensus|), c;
    }
    assert Numbers(consensus, n) by {
      forall q | 0 <= q < |consensus| ensures consensus[q] < n { assert consensus[q] in consensus; }
    }
    ClusterIsFinite(outputs, consensus);
    var consensusOutputs := seq(|consensus|, q requires 0 <= q < |consensus| => outputs[consensus[q]]);
    assert consensusOutputs == Chosen(outputs, consensus);
    var median := ElementwiseMedian(consensusOutputs);
    forall i | 0 <= i < |median| ensures median[i].Finite? && IsLowerMedian(median[i].x, Column(consensusOutputs, i)) {
      assert IsMiddle(median[i], consensusOutputs, i);
    }
    d := Fixture(median);
  }

  // ---------------------------------------------------------------- members validate

  /** The bands that admit every member of every cluster. */
  predicate Admissible(band: ToleranceBand, floor32: real) {
    band.maxRelative >= EPSILON && (band.maxAbsolute >= EPSILON * floor32 || band.maxRelative >= 2.0)
  }

  lemma DivAtMost(d: real, m: real, c: real)
    requires m > 0.0
    ensures d / m <= c <==> d <= c * m
  {
    DivLess(-d, m, -c);
    assert -d / m == -(d / m);
    assert -c * m == -(c * m);
    DivLess(d, m, c);
  }

  /** Close under the one floor is within the band under the other. */
  lemma CloseIsWithin(x: real, y: real, band: ToleranceBand, floor32: real, floor64: real)
    requires 0.0 < floor64 <= floor32 && RelErr(x, y, floor32) < EPSILON && Admissible(band, floor32)
    ensures RelErr(x, y, floor64) <= band.maxRelative || Abs(x - y) <= band.maxAbsolute
  {
    var d, m := Abs(x - y), Max(Abs(x), Abs(y));
    DivLess(d, Max(m, floor32), EPSILON);
    if m >= floor32 {
      DivLess(d, Max(m, floor64), EPSILON);
    } else if band.maxAbsolute < EPSILON * floor32 {
      assert d <= 2.0 * m;
      DivAtMost(d, Max(m, floor64), 2.0);
    }
  }

  lemma ZeroError(x: real, floor: real)
    requires floor > 0.0
    ensures RelErr(x, x, floor) == 0.0
  {
    assert Abs(x - x) == 0.0;
  }

  /** Every member of the cluster validates against the fixture built from it. */
  lemma MembersValidate(outputs: seq<seq<Elem>>, c: seq<nat>, expected: seq<Elem>, band: ToleranceBand, floor64: real,
          k: nat)
    requires IsClique(Agreement(outputs, EPSILON), c) && IsFixture(expected, outputs, c)
    requires 0.0 < floor64 <= F32_MIN && Admissible(band, F32_MIN) && k in c && k < |outputs|
    ensures Validate(expected, outputs[k], band, floor64) == Pass
  {
    var ch := Chosen(outputs, c);
    var p :| 0 <= p < |c| && c[p] == k;
    assert ch[p] == outputs[k];
    forall i | 0 <= i < |expected| ensures Within(expected[i], outputs[k][i], band, floor64) {
      MedianIsMember(expected[i].x, Column(ch, i));
      var q :| 0 <= q < |ch| && ch[q][i].x == expected[i].x;
      assert c[q] in c;
      assert Agreement(outputs, EPSILON)(c[q], k);
      if c[q] == k {
        ZeroError(expected[i].x, floor64);
      } else {
        CloseIsWithin(expected[i].x, outputs[k][i].x, band, F32_MIN, floor64);
      }
    }
    PassIff(expected, outputs[k], band, floor64);
  }

  // ---------------------------------------------------------------- and only then

  /** A fixture as `FixtureFromConsensus` makes them. */
  ghost predicate MajorityFixture(outputs: seq<seq<Elem>>, c: seq<nat>, expected: seq<Elem>) {
    && |outputs| >= 2 && IsSorted(c, Best(Agreement(outputs, EPSILON), |outputs|, |outputs|)) && 2 * |c| > |outputs|
    && IsFixture(expected, outputs, c)
  }

  ghost predicate AdmitsEveryMember(band: ToleranceBand, floor64: real)
    requires floor64 > 0.0
  {
    forall outputs, c, expected, k :: MajorityFixture(outputs, c, expected) && k in c && k < |outputs|
      ==> Validate(expected, outputs[k], band, floor64) == Pass
  }

  /** Two close outputs of one element: the fixture is the lower one. */
  lemma PairFixture(x: real, y: real)
    requires x <= y && RelErr(x, y, F32_MIN) < EPSILON
    ensures MajorityFixture([[Finite(x)], [Finite(y)]], [0, 1], [Finite(x)])
  {
    var outputs := [[Finite(x)], [Finite(y)]];
    PairAgrees(x, y);
    PairCluster(Agreement(outputs, EPSILON));
    var ch := Chosen(outputs, [0, 1]);
    assert ch == outputs;
    assert Column(ch, 0) == [x, y];
    assert IsLowerMedian(x, [x, y]) by { assert SortedReals([x, y]); }
  }

  lemma PairAgrees(x: real, y: real)
    requires RelErr(x, y, F32_MIN) < EPSILON
    ensures Agreement([[Finite(x)], [Finite(y)]], EPSILON)(0, 1) && Agreement([[Finite(x)], [Finite(y)]], EPSILON)(1, 0)
  {
    var outputs := [[Finite(x)], [Finite(y)]];
    assert Close(outputs[0], outputs[1], EPSILON);
    CloseSymmetric(outputs[0], outputs[1], EPSILON);
  }

  lemma PairCluster(r: Relation)
    requires r(0, 1) && r(1, 0)
    ensures IsSorted([0, 1], Best(r, 2, 2))
  {
    assert Grown(r, 0, 1) == [0];
    assert Grown(r, 0, 2) == [0, 1];
    assert Grown(r, 1, 1) == [1, 0];
    assert Grown(r, 1, 2) == [1, 0];
    assert Best(r, 2, 1) == [0, 1];
  }

  /** The higher of two close outputs, outside both bounds, is turned away. */
  lemma PairRejected(x: real, y: real, band: ToleranceBand, floor64: real)
    requires x <= y && RelErr(x, y, F32_MIN) < EPSILON && floor64 > 0.0
    requires RelErr(x, y, floor64) > band.maxRelative && Abs(x - y) > band.maxAbsolute
    ensures !AdmitsEveryMember(band, floor64)
  {
    var outputs, c, expected := [[Finite(x)], [Finite(y)]], [0, 1], [Finite(x)];
    PairFixture(x, y);
    PassIff(expected, outputs[1], band, floor64);
    assert !Within(expected[0], outputs[1][0], band, floor64);
    assert 1 in c && MajorityFixture(outputs, c, expected);
  }

  /** A relative bound below epsilon turns away a pair of large numbers. */
  lemma RelativeNeeded(band: ToleranceBand, floor64: real)
    requires 0.0 < floor64 <= F32_MIN <= 1.0 && band.maxRelative < EPSILON
    ensures !AdmitsEveryMember(band, floor64)
  {
    var rel := (Max(band.maxRelative, 0.0) + EPSILON) / 2.0;
    var size := Max(1.0, (Abs(band.maxAbsolute) + 1.0) / rel);
    var x, y := size - rel * size, size;
    DivAtMost(Abs(band.maxAbsolute) + 1.0, rel, size);
    Scaled(rel, size, F32_MIN);
    Scaled(rel, size, floor64);
    assert rel * size >= Abs(band.maxAbsolute) + 1.0;
    assert Abs(x - y) == rel * size;
    PairRejected(x, y, band, floor64);
  }

  lemma Scaled(rel: real, size: real, floor: real)
    requires 0.0 < rel < 1.0 && size >= 1.0 && 0.0 < floor <= 1.0
    ensures RelErr(size - rel * size, size, floor) == rel
  {
    MulLess(0.0, rel, size);
    MulLess(rel, 1.0, size);
    assert Max(Max(Abs(size - rel * size), Abs(size)), floor) == size;
    assert rel * size / size == rel;
  }

  /** An absolute bound below the floor turns away a pair around zero, unless the relative bound
      admits everything. */
  lemma AbsoluteNeeded(band: ToleranceBand, floor64: real)
    requires 0.0 < 4000.0 * floor64 <= F32_MIN && band.maxRelative < 2.0 && band.maxAbsolute < EPSILON * F32_MIN
    ensures !AdmitsEveryMember(band, floor64)
  {
    var d := (Max(band.maxAbsolute, 0.0) + EPSILON * F32_MIN) / 2.0;
    AroundZero(d, F32_MIN, floor64);
    PairRejected(-d / 2.0, d / 2.0, band, floor64);
  }

  lemma AroundZero(d: real, floor32: real, floor64: real)
    requires floor64 > 0.0 && 0.0 < 2.0 * floor64 <= d < EPSILON * floor32
    ensures RelErr(-d / 2.0, d / 2.0, floor32) < EPSILON && RelErr(-d / 2.0, d / 2.0, floor64) == 2.0
    ensures Abs(-d / 2.0 - d / 2.0) == d
  {
    assert Max(Max(Abs(-d / 2.0), Abs(d / 2.0)), floor32) == floor32;
    DivLess(d, floor32, EPSILON);
    assert Max(Max(Abs(-d / 2.0), Abs(d / 2.0)), floor64) == d / 2.0;
    OverItsHalf(d);
  }

  lemma OverItsHalf(d: real)
    requires d > 0.0
    ensures d / (d / 2.0) == 2.0
  {
    var h := d / 2.0;
    assert d == 2.0 * h;
  }

  lemma {:induction false} Pow2Grows(a: nat, b: nat)
    requires a <= b
    ensures Pow2(a) <= Pow2(b)
  {
    if a < b {
      Pow2Grows(a, b - 1);
    }
  }

  lemma Pow2By12(a: nat)
    ensures Pow2(a + 12) == 4096.0 * Pow2(a)
  {
    assert Pow2(a + 4) == 16.0 * Pow2(a) by {
      assert Pow2(a + 2) == 4.0 * Pow2(a);
    }
    assert Pow2(a + 8) == 16.0 * Pow2(a + 4) by {
      assert Pow2(a + 6) == 4.0 * Pow2(a + 4);
    }
    assert Pow2(a + 12) == 16.0 * Pow2(a + 8) by {
      assert Pow2(a + 10) == 4.0 * Pow2(a + 8);
    }
  }

  /** The two floors are far apart. */
  lemma FloorsApart(a: nat, b: nat)
    requires b >= a + 12
    ensures 0.0 < 4000.0 * (1.0 / Pow2(b)) <= 1.0 / Pow2(a) <= 1.0
  {
    Pow2By12(a);
    Pow2Grows(a + 12, b);
    Reciprocals(Pow2(a), Pow2(b));
  }

  lemma Reciprocals(p: real, s: real)
    requires p >= 1.0 && s >= 1.0
    ensures s >= 4000.0 * p ==> 0.0 < 4000.0 * (1.0 / s) <= 1.0 / p
    ensures 1.0 / p <= 1.0
  {
    DivAtMost(1.0, p, 1.0);
    if s >= 4000.0 * p {
      var u := 1.0 / s;
      assert u * s == 1.0;
      DivAtMost(4000.0, s, 1.0 / p);
      assert (1.0 / p) * s >= 4000.0 by {
        var v := 1.0 / p;
        assert v * p == 1.0;
        assert v * s >= v * (4000.0 * p) by { MulAtLeast(s, 4000.0 * p, v); }
        assert v * (4000.0 * p) == 4000.0 * (v * p);
      }
      assert 4000.0 / s == 4000.0 * u;
    }
  }

  lemma MulAtLeast(a: real, b: real, v: real)
    requires a >= b && v > 0.0
    ensures v * a >= v * b
  {}

  /** The bands that admit every member of every majority cluster, exactly. */
  lemma BandIff(band: ToleranceBand)
    ensures AdmitsEveryMember(band, 1.0 / Pow2(1022))
            <==> band.maxRelative >= 0.001 && (band.maxAbsolute >= 0.001 / Pow2(126) || band.maxRelative >= 2.0)
  {
    FloorsApart(126, 1022);
    assert EPSILON * F32_MIN == 0.001 / Pow2(126);
    if Admissible(band, F32_MIN) {
      forall outputs, c, expected, k | MajorityFixture(outputs, c, expected) && k in c && k < |outputs|
        ensures Validate(expected, outputs[k], band, F64_MIN) == Pass
      {
        AgreementIsTolerance(outputs, EPSILON);
        BestIsMaximal(Agreement(outputs, EPSILON), |outputs|);
        MembersValidate(outputs, c, expected, band, F64_MIN, k);
      }
    } else if band.maxRelative < EPSILON {
      RelativeNeeded(band, F64_MIN);
    } else {
      AbsoluteNeeded(band, F64_MIN);
    }
  }

  /** In particular the usual band does: 1e-3 relative and 1e-6 absolute. */
  lemma UsualBand(band: ToleranceBand)
    requires band.maxRelative >= 0.001 && band.maxAbsolute >= 0.000001
    ensures AdmitsEveryMember(band, 1.0 / Pow2(1022))
  {
    BandIff(band);
    SmallFloor();
  }

  lemma SmallFloor()
    ensures EPSILON * F32_MIN <= 0.000001
  {
    FloorsApart(0, 126);
    assert Pow2(0) == 1.0;
  }
}
