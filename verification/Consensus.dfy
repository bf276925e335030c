/** `compute_pairwise_consensus`: greedy clusters of outputs that agree pairwise. */
module Consensus {
  import opened Sorting

  // ---------------------------------------------------------------- agreement

  /** An `f32`: a number, or NaN or an infinity. */
  datatype Elem = Finite(x: real) | NonFinite

  function Pow2(n: nat): (r: real)
    ensures r >= 1.0
  {
    if n == 0 then 1.0 else 2.0 * Pow2(n - 1)
  }

  /** `f32::MIN_POSITIVE`. */
  const F32_MIN: real := 1.0 / Pow2(126)

  function Abs(x: real): real { if x < 0.0 then -x else x }
  function Max(x: real, y: real): real { if x < y then y else x }

  /** The relative error of two elements, with a floor under the denominator. */
  function RelErr(x: real, y: real, floor: real): real
    requires floor > 0.0
  {
    Abs(x - y) / Max(Max(Abs(x), Abs(y)), floor)
  }

  /** Off by no more than `limit`. */
  predicate Near(x: real, y: real, limit: real) { -limit <= x - y <= limit }

  /** Off by no more than `rel` times one of the two, whatever its sign, or times the floor. */
  predicate InProportion(x: real, y: real, floor: real, rel: real) {
    || Near(x, y, rel * x) || Near(x, y, -(rel * x)) || Near(x, y, rel * y) || Near(x, y, -(rel * y))
    || Near(x, y, rel * floor)
  }

  lemma ScaleGrows(rel: real, a: real, b: real)
    requires rel >= 0.0 && a <= b
    ensures rel * a <= rel * b
  {}

  /** What a bound on the relative error means, without a quotient. */
  lemma RelErrIff(x: real, y: real, floor: real, rel: real)
    requires floor > 0.0
    ensures RelErr(x, y, floor) <= rel <==> rel >= 0.0 && InProportion(x, y, floor, rel)
  {
    var m := Max(Max(Abs(x), Abs(y)), floor);
    QuotientAtMost(Abs(x - y), m, rel);
    if rel >= 0.0 {
      LargestScale(x, y, floor, rel, Abs(x), Abs(y), m);
    }
  }

  lemma NegScale(rel: real, a: real)
    ensures rel * -a == -(rel * a)
  {}

  lemma Dominated(x: real, y: real, rel: real, a: real, m: real)
    requires rel >= 0.0 && a <= m && -a <= m
    ensures Near(x, y, rel * a) || Near(x, y, -(rel * a)) ==> Near(x, y, rel * m)
  {
    ScaleGrows(rel, a, m);
    ScaleGrows(rel, -a, m);
    NegScale(rel, a);
  }

  lemma Attained(x: real, y: real, rel: real, a: real, m: real)
    requires (m == a || m == -a) && Near(x, y, rel * m)
    ensures Near(x, y, rel * a) || Near(x, y, -(rel * a))
  {
    if m == -a {
      NegScale(rel, a);
    }
  }

  /** The largest of the three in size gives the widest bound. */
  lemma LargestScale(x: real, y: real, floor: real, rel: real, ax: real, ay: real, m: real)
    requires rel >= 0.0 && floor > 0.0 && (ax == x || ax == -x) && (ay == y || ay == -y)
    requires x <= ax <= m && -x <= ax && y <= ay <= m && -y <= ay && floor <= m && (m == ax || m == ay || m == floor)
    ensures InProportion(x, y, floor, rel) <==> Near(x, y, rel * m)
  {
    Dominated(x, y, rel, x, m);
    Dominated(x, y, rel, y, m);
    Dominated(x, y, rel, floor, m);
    if Near(x, y, rel * m) {
      if m == ax {
        Attained(x, y, rel, x, m);
      } else if m == ay {
        Attained(x, y, rel, y, m);
      }
    }
  }

  lemma QuotientAtMost(d: real, m: real, rel: real)
    requires m > 0.0 && d >= 0.0
    ensures d / m <= rel <==> rel >= 0.0 && d <= rel * m
  {
    var q := d / m;
    assert q * m == d;
    if q <= rel {
      assert q >= 0.0;
      ScaleGrows(m, q, rel);
    } else if rel >= 0.0 {
      Strictly(m, rel, q);
    }
  }

  lemma Strictly(m: real, a: real, b: real)
    requires m > 0.0 && a < b
    ensures m * a < m * b
  {}

  /** `max_rel_err`, which is infinite for different lengths and for NaN and infinities. */
  datatype Worst = Infinite | Worst(err: real) {
    predicate Below(epsilon: real) { Worst? && err < epsilon }
  }

  ghost predicate Close(a: seq<Elem>, b: seq<Elem>, epsilon: real) {
    && |a| == |b| && epsilon > 0.0
    && forall i :: 0 <= i < |a| ==> a[i].Finite? && b[i].Finite? && RelErr(a[i].x, b[i].x, F32_MIN) < epsilon
  }

  lemma CloseSymmetric(a: seq<Elem>, b: seq<Elem>, epsilon: real)
    ensures Close(a, b, epsilon) <==> Close(b, a, epsilon)
  {
    assert forall i :: 0 <= i < |a| && |a| == |b| && a[i].Finite? && b[i].Finite?
                   ==> RelErr(a[i].x, b[i].x, F32_MIN) == RelErr(b[i].x, a[i].x, F32_MIN);
  }

  method MaxRelErr(a: seq<Elem>, b: seq<Elem>) returns (worst: Worst)
    ensures forall epsilon :: worst.Below(epsilon) <==> Close(a, b, epsilon)
  {
    if |a| != |b| {
      return Infinite;
    }
    var w := 0.0;
    for i := 0 to |a|
      invariant forall k :: 0 <= k < i ==> a[k].Finite? && b[k].Finite? && RelErr(a[k].x, b[k].x, F32_MIN) <= w
      invariant w >= 0.0 && (w > 0.0 ==> exists k :: 0 <= k < i && RelErr(a[k].x, b[k].x, F32_MIN) == w)
    {
      if a[i].NonFinite? || b[i].NonFinite? {
        return Infinite;
      }
      var rel := RelErr(a[i].x, b[i].x, F32_MIN);
      if rel > w {
        w := rel;
      }
    }
    worst := Worst(w);
  }

  // ---------------------------------------------------------------- greedy growth

  /** Agreement of outputs by number. */
  type Relation = (int, int) -> bool

  ghost function Agreement(outputs: seq<seq<Elem>>, epsilon: real): Relation {
    (i, j) => i == j || (0 <= i < |outputs| && 0 <= j < |outputs| && Close(outputs[i], outputs[j], epsilon))
  }

  ghost predicate Tolerance(r: Relation) { (forall i :: r(i, i)) && forall i, j :: r(i, j) == r(j, i) }

  ghost predicate Transitive(r: Relation, n: nat) {
    forall i, j, k :: 0 <= i < n && 0 <= j < n && 0 <= k < n && r(i, j) && r(j, k) ==> r(i, k)
  }

  ghost predicate AgreesWithAll(r: Relation, j: int, c: seq<nat>) { forall k :: k in c ==> r(j, k) }

  /** The cluster of start `i` once the candidates before `j` have had their turn. */
  ghost function Grown(r: Relation, i: nat, j: nat): (c: seq<nat>)
    ensures |c| > 0 && c[0] == i
  {
    if j == 0 then [i]
    else
      var c := Grown(r, i, j - 1);
      if j - 1 != i && AgreesWithAll(r, j - 1, c) then c + [j - 1] else c
  }

  /** The longest cluster of the starts before `m`, the earliest of equals. */
  ghost function Best(r: Relation, n: nat, m: nat): seq<nat> {
    if m == 0 then [0]
    else
      var best, c := Best(r, n, m - 1), Grown(r, m - 1, n);
      if |c| > |best| then c else best
  }

  ghost predicate IsClique(r: Relation, c: seq<nat>) { forall a, b :: a in c && b in c ==> r(a, b) }

  /** Nobody outside agrees with everybody inside. */
  ghost predicate IsMaximal(r: Relation, n: nat, c: seq<nat>) {
    forall j :: 0 <= j < n && j !in c ==> exists k :: k in c && !r(j, k)
  }

  lemma {:induction false} GrownMembers(r: Relation, i: nat, j: nat)
    ensures Distinct(Grown(r, i, j)) && forall k :: k in Grown(r, i, j) ==> k == i || k < j
  {
    if j > 0 {
      GrownMembers(r, i, j - 1);
      var c := Grown(r, i, j - 1);
      if j - 1 != i && AgreesWithAll(r, j - 1, c) {
        assert j - 1 !in c;
      }
    }
  }

  lemma {:induction false} GrownIsClique(r: Relation, i: nat, j: nat)
    requires Tolerance(r)
    ensures IsClique(r, Grown(r, i, j))
  {
    if j > 0 {
      GrownIsClique(r, i, j - 1);
      var c, c' := Grown(r, i, j - 1), Grown(r, i, j);
      forall a, b | a in c' && b in c' ensures r(a, b) {
        assert (a in c || a == j - 1) && (b in c || b == j - 1);
        if b !in c && a in c {
          assert r(b, a);
        }
      }
    }
  }

  /** A candidate turned away disagrees with somebody who stays. */
  lemma {:induction false} GrownIsMaximal(r: Relation, i: nat, j: nat, k: nat)
    requires k < j && k !in Grown(r, i, j)
    ensures exists q :: q in Grown(r, i, j) && !r(k, q)
  {
    var c, c' := Grown(r, i, j - 1), Grown(r, i, j);
    assert c'[0] == i && i in c';
    if k == j - 1 {
      assert j - 1 != i;
      assert !AgreesWithAll(r, k, c);
    } else {
      GrownIsMaximal(r, i, j - 1, k);
      var q :| q in c && !r(k, q);
      assert q in c';
    }
  }

  /** The result is the cluster of the first start that does as well. */
  lemma {:induction false} FirstStart(r: Relation, n: nat, m: nat) returns (i: nat)
    requires 0 < n && 0 < m <= n
    ensures i < m && Best(r, n, m) == Grown(r, i, n) && forall k: nat :: k < i ==> |Grown(r, k, n)| < |Best(r, n, m)|
  {
    if m == 1 {
      var c := Grown(r, 0, n);
      if |c| == 1 {
        assert c == [c[0]];
      }
      i := 0;
    } else {
      i := FirstStart(r, n, m - 1);
      if |Grown(r, m - 1, n)| > |Best(r, n, m - 1)| {
        i := m - 1;
        forall k: nat | k < i ensures |Grown(r, k, n)| < |Best(r, n, m)| {
          BestIsLongest(r, n, m - 1, k);
        }
      }
    }
  }

  lemma {:induction false} BestIsLongest(r: Relation, n: nat, m: nat, i: nat)
    requires 0 < n && i < m <= n
    ensures |Best(r, n, m)| >= |Grown(r, i, n)|
  {
    if i < m - 1 {
      BestIsLongest(r, n, m - 1, i);
    }
  }

  /** A duplicate-free clique that no further output can join. */
  lemma BestIsMaximal(r: Relation, n: nat)
    requires Tolerance(r) && 0 < n
    ensures var c := Best(r, n, n);
            && |c| >= 1 && IsClique(r, c) && Distinct(c) && IsMaximal(r, n, c) && forall k :: k in c ==> k < n
  {
    var i := FirstStart(r, n, n);
    GrownMembers(r, i, n);
    GrownIsClique(r, i, n);
    forall j | 0 <= j < n && j !in Grown(r, i, n) ensures exists k :: k in Grown(r, i, n) && !r(j, k) {
      GrownIsMaximal(r, i, n, j);
    }
  }

  // ---------------------------------------------------------------- transitive agreement

  /** Under transitive agreement a cluster is everybody who agrees with its start. */
  lemma {:induction false} GrownIsClass(r: Relation, i: nat, j: nat, n: nat, k: nat)
    requires Tolerance(r) && Transitive(r, n) && i < n && j <= n
    ensures k in Grown(r, i, j) <==> k == i || (k < j && r(k, i))
  {
    if j > 0 {
      GrownIsClass(r, i, j - 1, n, k);
      var c := Grown(r, i, j - 1);
      assert c[0] == i && i in c;
      if k == j - 1 != i && r(k, i) {
        forall q | q in c ensures r(k, q) {
          GrownIsClass(r, i, j - 1, n, q);
          GrownMembers(r, i, j - 1);
          assert r(i, q);
        }
      }
    }
  }

  function Members(c: seq<nat>): set<nat> { set k | k in c }

  lemma CliqueInClass(r: Relation, n: nat, s: set<nat>, k: nat)
    requires Tolerance(r) && Transitive(r, n) && k in s
    requires (forall q :: q in s ==> q < n) && forall a, b :: a in s && b in s ==> r(a, b)
    ensures |s| <= |Grown(r, k, n)|
  {
    forall q | q in s ensures q in Members(Grown(r, k, n)) {
      GrownIsClass(r, k, n, n, q);
    }
    SubsetSize(s, Members(Grown(r, k, n)));
    GrownMembers(r, k, n);
    DistinctSize(Grown(r, k, n));
  }

  /** ... and then no clique is larger than the result. */
  lemma LargestWhenTransitive(r: Relation, n: nat, s: set<nat>)
    requires Tolerance(r) && Transitive(r, n) && 0 < n
    requires (forall k :: k in s ==> k < n) && forall a, b :: a in s && b in s ==> r(a, b)
    ensures |s| <= |Best(r, n, n)|
  {
    if s != {} {
      var i :| i in s;
      CliqueInClass(r, n, s, i);
      BestIsLongest(r, n, n, i);
    }
  }

  /** A member of a cluster starts one that is as large. */
  lemma StartOfClass(r: Relation, n: nat, i: nat, k: nat)
    requires Tolerance(r) && Transitive(r, n) && i < n && k in Grown(r, i, n)
    ensures |Grown(r, k, n)| >= |Grown(r, i, n)|
  {
    GrownMembers(r, i, n);
    GrownIsClique(r, i, n);
    DistinctSize(Grown(r, i, n));
    CliqueInClass(r, n, Members(Grown(r, i, n)), k);
  }

  /** Ties go to the lowest start: no clique of that size has a member before it. */
  lemma TiesGoToLowest(r: Relation, n: nat, s: set<nat>)
    requires Tolerance(r) && Transitive(r, n) && 0 < n && |s| == |Best(r, n, n)|
    requires (forall k :: k in s ==> k < n) && forall a, b :: a in s && b in s ==> r(a, b)
    ensures exists i :: && i in Best(r, n, n) && (forall k :: k in Best(r, n, n) ==> i <= k)
                        && forall k :: k in s ==> i <= k
  {
    var i := FirstStart(r, n, n);
    var best := Best(r, n, n);
    forall k | k in best ensures i <= k {
      StartOfClass(r, n, i, k);
    }
    forall k | k in s ensures i <= k {
      CliqueInClass(r, n, s, k);
    }
    assert best[0] == i && i in best;
  }

  lemma {:induction false} SubsetSize(s: set<nat>, t: set<nat>)
    requires s <= t
    ensures |s| <= |t|
  {
    if s != {} {
      var x :| x in s;
      SubsetSize(s - {x}, t - {x});
    }
  }

  lemma {:induction false} DistinctSize(c: seq<nat>)
    requires Distinct(c)
    ensures |Members(c)| == |c|
  {
    if |c| > 0 {
      var rest := c[..|c| - 1];
      DistinctSize(rest);
      assert Members(c) == Members(rest) + {c[|c| - 1]};
    }
  }

  // ---------------------------------------------------------------- exactly when it is the largest

  ghost predicate IsCliqueSet(r: Relation, n: nat, s: set<nat>) {
    (forall k :: k in s ==> k < n) && forall a, b :: a in s && b in s ==> r(a, b)
  }

  ghost predicate IsLargest(r: Relation, n: nat, size: nat) { forall s :: IsCliqueSet(r, n, s) ==> |s| <= size }

  /** Everybody outside disagrees with `i`, or with a member that comes earlier. */
  ghost predicate TurnedAway(r: Relation, n: nat, s: set<nat>, i: nat) {
    forall j: nat :: j < n && j !in s ==> Blocked(r, s, i, j)
  }

  ghost predicate Blocked(r: Relation, s: set<nat>, i: nat, j: nat) {
    exists k :: k in s && (k == i || k < j) && !r(j, k)
  }

  lemma JoinsIff(r: Relation, n: nat, s: set<nat>, i: nat, k: nat, c: seq<nat>)
    requires IsCliqueSet(r, n, s) && i in s && TurnedAway(r, n, s, i) && k < n
    requires forall q: nat :: q in c <==> q == i || (q < k && q in s)
    ensures AgreesWithAll(r, k, c) <==> k in s
  {
    if k !in s {
      assert Blocked(r, s, i, k);
    }
  }

  /** From a member of such a clique, greedy growth finds the clique. */
  lemma {:induction false} GrowsInto(r: Relation, n: nat, s: set<nat>, i: nat, j: nat, k: nat)
    requires IsCliqueSet(r, n, s) && i in s && TurnedAway(r, n, s, i) && j <= n
    ensures k in Grown(r, i, j) <==> k == i || (k < j && k in s)
    decreases j
  {
    if j > 0 {
      GrowsInto(r, n, s, i, j - 1, k);
      var c := Grown(r, i, j - 1);
      if k == j - 1 != i {
        forall q: nat ensures q in c <==> q == i || (q < j - 1 && q in s) {
          GrowsInto(r, n, s, i, j - 1, q);
        }
        JoinsIff(r, n, s, i, k, c);
      }
    }
  }

  /** And what greedy growth finds is such a clique. */
  lemma {:induction false} GrownTurnsAway(r: Relation, i: nat, j: nat, k: nat)
    requires k < j && k !in Grown(r, i, j)
    ensures Blocked(r, Members(Grown(r, i, j)), i, k)
  {
    var c, c' := Grown(r, i, j - 1), Grown(r, i, j);
    assert c'[0] == i;
    if k == j - 1 {
      assert !AgreesWithAll(r, k, c);
      var q :| q in c && !r(k, q);
      GrownMembers(r, i, j - 1);
      assert q in Members(c');
    } else {
      GrownTurnsAway(r, i, j - 1, k);
      var q :| q in Members(c) && (q == i || q < k) && !r(k, q);
      assert q in Members(c');
    }
  }

  /** The result is a largest cluster if and only if some largest cluster has a member `i` such
      that everybody outside disagrees with `i` or with an earlier member. */
  lemma LargestIff(r: Relation, n: nat)
    requires Tolerance(r) && 0 < n
    ensures IsLargest(r, n, |Best(r, n, n)|)
            <==> exists s, i :: i in s && IsCliqueSet(r, n, s) && IsLargest(r, n, |s|) && TurnedAway(r, n, s, i)
  {
    if IsLargest(r, n, |Best(r, n, n)|) {
      var i := FirstStart(r, n, n);
      var c := Grown(r, i, n);
      GrownMembers(r, i, n);
      GrownIsClique(r, i, n);
      DistinctSize(c);
      forall j: nat | j < n && j !in Members(c) ensures Blocked(r, Members(c), i, j) {
        GrownTurnsAway(r, i, n, j);
      }
      assert c[0] == i && i in Members(c) && IsCliqueSet(r, n, Members(c));
    }
    if s, i :| i in s && IsCliqueSet(r, n, s) && IsLargest(r, n, |s|) && TurnedAway(r, n, s, i) {
      var c := Grown(r, i, n);
      forall k: nat ensures k in Members(c) <==> k in s {
        GrowsInto(r, n, s, i, n, k);
      }
      assert Members(c) == s;
      GrownMembers(r, i, n);
      DistinctSize(c);
      BestIsLongest(r, n, n, i);
    }
  }

  // ---------------------------------------------------------------- the loops

  lemma AgreementIsTolerance(outputs: seq<seq<Elem>>, epsilon: real)
    ensures Tolerance(Agreement(outputs, epsilon))
  {
    forall i, j ensures Agreement(outputs, epsilon)(i, j) == Agreement(outputs, epsilon)(j, i) {
      if 0 <= i < |outputs| && 0 <= j < |outputs| {
        CloseSymmetric(outputs[i], outputs[j], epsilon);
      }
    }
  }

  /** Rows before `i`, and their mirror images, are filled in. */
  ghost predicate FilledRows(agree: array2<bool>, r: Relation, n: nat, i: nat)
    reads agree
  {
    && agree.Length0 == agree.Length1 == n
    && forall a, b :: 0 <= a < n && 0 <= b < n && (a < i || b < i) ==> agree[a, b] == r(a, b)
  }

  /** One row of the matrix, and its mirror image. */
  method FillRow(agree: array2<bool>, outputs: seq<seq<Elem>>, epsilon: real, i: nat)
    requires i < |outputs| && FilledRows(agree, Agreement(outputs, epsilon), |outputs|, i)
    modifies agree
    ensures FilledRows(agree, Agreement(outputs, epsilon), |outputs|, i + 1)
  {
    ghost var r, n := Agreement(outputs, epsilon), |outputs|;
    AgreementIsTolerance(outputs, epsilon);
    agree[i, i] := true;
    for j := i + 1 to |outputs|
      invariant FilledRows(agree, r, n, i) && agree[i, i]
      invariant forall k :: i < k < j ==> agree[i, k] == r(i, k) && agree[k, i] == r(k, i)
    {
      var worst := MaxRelErr(outputs[i], outputs[j]);
      var close := worst.Below(epsilon);
      assert close == r(i, j) == r(j, i);
      agree[i, j] := close;
      agree[j, i] := close;
    }
  }

  method AgreesWith(agree: array2<bool>, j: nat, c: seq<nat>, ghost r: Relation, ghost n: nat) returns (all: bool)
    requires FilledRows(agree, r, n, n) && j < n && forall k :: k in c ==> k < n
    ensures all == AgreesWithAll(r, j, c)
  {
    for q := 0 to |c|
      invariant forall p :: 0 <= p < q ==> r(j, c[p])
    {
      assert c[q] in c;
      if !agree[j, c[q]] {
        assert !r(j, c[q]);
        return false;
      }
    }
    all := true;
  }

  method GrowCluster(agree: array2<bool>, i: nat, n: nat, ghost r: Relation) returns (cluster: seq<nat>)
    requires FilledRows(agree, r, n, n) && i < n
    ensures cluster == Grown(r, i, n)
  {
    cluster := [i];
    for j := 0 to n
      invariant cluster == Grown(r, i, j)
    {
      GrownMembers(r, i, j);
      if j != i {
        var all := AgreesWith(agree, j, cluster, r, n);
        if all {
          cluster := cluster + [j];
        }
      }
    }
  }

  /** A cluster in ascending order. */
  ghost predicate IsSorted(c: seq<nat>, of: seq<nat>) {
    Ascending(c) && |c| == |of| && forall k :: k in c <==> k in of
  }

  /** `compute_pairwise_consensus`. */
  method ComputePairwiseConsensus(outputs: seq<seq<Elem>>, epsilon: real) returns (best: seq<nat>)
    ensures |outputs| == 0 ==> best == []
    ensures |outputs| > 0 ==> IsSorted(best, Best(Agreement(outputs, epsilon), |outputs|, |outputs|))
    ensures |outputs| > 0 ==>
              IsClique(Agreement(outputs, epsilon), best)
              && IsMaximal(Agreement(outputs, epsilon), |outputs|, best)
  {
    var n := |outputs|;
    if n == 0 {
      return [];
    }
    ghost var r := Agreement(outputs, epsilon);
    AgreementIsTolerance(outputs, epsilon);
    BestIsMaximal(r, n);
    if n == 1 {
      OneOutput(r);
      return [0];
    }
    var agree := new bool[n, n]((_, _) => false);
    for i := 0 to n
      invariant FilledRows(agree, r, n, i)
    {
      FillRow(agree, outputs, epsilon, i);
    }
    best := BestCluster(agree, n, r);
  }

  /** The longest cluster, the earliest of equals. */
  method BestCluster(agree: array2<bool>, n: nat, ghost r: Relation) returns (best: seq<nat>)
    requires FilledRows(agree, r, n, n)
    ensures IsSorted(best, Best(r, n, n))
  {
    best := [0];
    for i := 0 to n
      invariant IsSorted(best, Best(r, n, i))
    {
      var cluster := GrowCluster(agree, i, n, r);
      GrownMembers(r, i, n);
      var sorted := Sort(cluster);
      if |sorted| > |best| {
        best := sorted;
      }
    }
  }

  lemma OneOutput(r: Relation)
    ensures Best(r, 1, 1) == [0]
  {
    assert Grown(r, 0, 0) == [0] && Grown(r, 0, 1) == [0];
    assert Best(r, 1, 0) == [0];
  }

  // ---------------------------------------------------------------- not always the largest

  lemma {:induction false} GrownGrows(r: Relation, i: nat, j: nat, j': nat, k: nat)
    requires j <= j' && k in Grown(r, i, j)
    ensures k in Grown(r, i, j')
  {
    if j < j' {
      GrownGrows(r, i, j, j' - 1, k);
    }
  }

  lemma DivLess(d: real, m: real, c: real)
    requires m > 0.0
    ensures d / m < c <==> d < c * m
  {
    var q := d / m;
    assert q * m == d;
    MulLess(q, c, m);
  }

  lemma MulLess(q: real, c: real, m: real)
    requires m > 0.0
    ensures q < c <==> q * m < c * m
  {}

  /** Away from zero the floor does not matter. */
  lemma CloseNear(x: real, y: real, floor: real)
    requires x >= 1.0 && y >= 1.0 && 0.0 < floor <= 1.0
    ensures RelErr(x, y, floor) < 0.001 <==> Abs(x - y) < 0.001 * Max(x, y)
  {
    DivLess(Abs(x - y), Max(x, y), 0.001);
  }

  lemma FloorBelowOne()
    ensures 0.0 < F32_MIN <= 1.0
  {
    var p := Pow2(126);
    DivLess(1.0, p, 1.0);
    assert 1.0 / p <= 1.0;
  }

  lemma SingletonsClose(x: real, y: real)
    requires x >= 1.0 && y >= 1.0
    ensures Close([Finite(x)], [Finite(y)], 0.001) <==> Abs(x - y) < 0.001 * Max(x, y)
  {
    FloorBelowOne();
    CloseNear(x, y, F32_MIN);
    assert Close([Finite(x)], [Finite(y)], 0.001) <==> RelErr([Finite(x)][0].x, [Finite(y)][0].x, F32_MIN) < 0.001;
  }

  /** Six outputs of one element each. */
  function Drift(i: int): real {
    if i == 0 then 999.5 else if i == 1 then 1001.4 else if i == 2 then 1000.0
    else if i == 3 then 1000.3 else if i == 4 then 1000.6 else 1000.9
  }

  function Drifting(): seq<seq<Elem>> { seq(6, i => [Finite(Drift(i))]) }

  /** The first output drags the early ones of the rest away, the second the late ones. */
  ghost predicate TwoPulls(r: Relation) {
    && Tolerance(r)
    && !r(0, 1) && r(0, 2) && r(0, 3) && !r(0, 4) && !r(0, 5)
    && !r(1, 2) && !r(1, 3) && r(1, 4) && r(1, 5)
    && r(2, 3) && r(2, 4) && r(2, 5) && r(3, 4) && r(3, 5) && r(4, 5)
  }

  lemma DriftingPair(i: int, j: int)
    requires 0 <= i < j < 6
    ensures Agreement(Drifting(), 0.001)(i, j) <==> Abs(Drift(i) - Drift(j)) < 0.001 * Max(Drift(i), Drift(j))
  {
    SingletonsClose(Drift(i), Drift(j));
    assert Drifting()[i] == [Finite(Drift(i))] && Drifting()[j] == [Finite(Drift(j))];
  }

  lemma DriftingPulls()
    ensures TwoPulls(Agreement(Drifting(), 0.001))
  {
    var r := Agreement(Drifting(), 0.001);
    AgreementIsTolerance(Drifting(), 0.001);
    forall i, j | 0 <= i < j < 6 ensures r(i, j) <==> Abs(Drift(i) - Drift(j)) < 0.001 * Max(Drift(i), Drift(j)) {
      DriftingPair(i, j);
    }
  }

  lemma EachCluster(r: Relation, i: nat)
    requires TwoPulls(r) && i < 6
    ensures 0 in Grown(r, i, 6) || 1 in Grown(r, i, 6)
  {
    assert Grown(r, i, 0) == [i];
    if r(0, i) {
      assert 0 in Grown(r, i, 1);
      GrownGrows(r, i, 1, 6, 0);
    } else {
      assert Grown(r, i, 1) == [i];
      assert 1 in Grown(r, i, 2);
      GrownGrows(r, i, 2, 6, 1);
    }
  }

  lemma PulledSize(r: Relation, c: seq<nat>)
    requires TwoPulls(r) && Distinct(c) && IsClique(r, c) && (forall k :: k in c ==> k < 6) && (0 in c || 1 in c)
    ensures |c| <= 3
  {
    DistinctSize(c);
    if 0 in c {
      forall k | k in c ensures k in {0, 2, 3} { assert r(0, k); }
      SubsetSize(Members(c), {0, 2, 3});
    } else {
      forall k | k in c ensures k in {1, 4, 5} { assert r(1, k); }
      SubsetSize(Members(c), {1, 4, 5});
    }
  }

  /** Four of six outputs agree, yet the cluster found has three: no majority is reported. */
  lemma LargestCanBeMissed()
    ensures var r := Agreement(Drifting(), 0.001);
            && (forall a, b :: a in {2, 3, 4, 5} && b in {2, 3, 4, 5} ==> r(a, b))
            && |Best(r, 6, 6)| <= 3
  {
    var r := Agreement(Drifting(), 0.001);
    DriftingPulls();
    var i := FirstStart(r, 6, 6);
    EachCluster(r, i);
    GrownIsClique(r, i, 6);
    GrownMembers(r, i, 6);
    PulledSize(r, Grown(r, i, 6));
  }
}
