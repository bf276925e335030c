/** Two shapes laid over each other. The kernels that move values along an axis index one
    tensor with positions counted in another; this is when that is right. */
module Alignment {
  import opened Radix
  import opened Layouts

  predicate Fits(a: seq<nat>, b: seq<nat>) {
    |a| == |b| && forall k :: 0 <= k < |a| ==> a[k] <= b[k]
  }

  /** `a` fits in `b`, and is as long as `b` on every axis after one that it moves along. */
  predicate Aligned(a: seq<nat>, b: seq<nat>) {
    Fits(a, b) && forall j, k :: 0 <= j < k < |a| && a[j] > 1 ==> a[k] == b[k]
  }

  lemma {:induction false} RavelMono(a: seq<nat>, b: seq<nat>, c: seq<int>)
    requires Fits(a, b) && InRange(a, c)
    ensures InRange(b, c) && 0 <= Ravel(a, c) <= Ravel(b, c)
  {
    if |a| > 0 {
      RavelMono(Init(a), Init(b), Init(c));
      MulMono(0, Ravel(Init(a), Init(c)), Last(a));
      SmallerProduct(Ravel(Init(a), Init(c)), Last(a), Ravel(Init(b), Init(c)), Last(b));
    }
  }

  lemma SmallerProduct(x: nat, d: nat, y: nat, e: nat)
    requires x <= y && d <= e
    ensures x * d <= y * e
    ensures x * d == y * e && 0 < e ==> x == y
    ensures x * d == y * e && 0 < x ==> d == e
  {
    MulMono(x, y, e);
    MulMono(d, e, x);
    if x < y {
      MulMono(x + 1, y, e);
      Dist(x, 1, e);
    }
    if d < e {
      MulMono(d + 1, e, x);
      Dist(d, 1, x);
    }
  }

  /** A position is zero only where every coordinate is. */
  lemma {:induction false} RavelZero(a: seq<nat>, c: seq<int>)
    requires InRange(a, c)
    ensures Ravel(a, c) == 0 <==> forall k :: 0 <= k < |c| ==> c[k] == 0
  {
    if |a| > 0 {
      RavelZero(Init(a), Init(c));
      RavelBound(Init(a), Init(c));
      MulMono(1, Ravel(Init(a), Init(c)), Last(a));
      assert forall k :: 0 <= k < |c| - 1 ==> Init(c)[k] == c[k];
    }
  }

  lemma {:induction false} RavelAligned(a: seq<nat>, b: seq<nat>, c: seq<int>)
    requires Aligned(a, b) && InRange(a, c)
    ensures InRange(b, c) && Ravel(a, c) == Ravel(b, c)
  {
    if |a| > 0 {
      RavelAligned(Init(a), Init(b), Init(c));
      RavelZero(Init(a), Init(c));
      if k :| 0 <= k < |c| - 1 && Init(c)[k] != 0 {
        assert a[k] > 1 && Last(a) == Last(b);
      }
    }
  }

  /** One coordinate of one, the others zero. */
  lemma Unit(a: seq<nat>, j: nat) returns (c: seq<int>)
    requires Prod(a) > 0 && j < |a| && a[j] > 1
    ensures InRange(a, c) && Ravel(a, c) > 0
  {
    var zero := Coords(a, 0);
    c := zero[j := 1];
    RavelZero(a, c);
    RavelBound(a, c);
  }

  lemma AlignedSnoc(a: seq<nat>, b: seq<nat>)
    requires |a| == |b| > 0 && Aligned(Init(a), Init(b)) && Last(a) <= Last(b)
    requires Last(a) == Last(b) || forall j :: 0 <= j < |a| - 1 ==> a[j] <= 1
    ensures Aligned(a, b)
  {
    assert forall k :: 0 <= k < |a| - 1 ==> a[k] == Init(a)[k] && b[k] == Init(b)[k];
  }

  lemma AppendZero(a: seq<nat>, c: seq<int>)
    requires |a| == |c| + 1
    ensures Ravel(a, c + [0]) == Ravel(Init(a), c) * Last(a)
  {
    assert Init(c + [0]) == c;
  }

  lemma AgreeBefore(a: seq<nat>, b: seq<nat>, c: seq<int>)
    requires Fits(a, b) && |a| > 0 && Last(a) > 0 && InRange(Init(a), c) && Ravel(a, c + [0]) == Ravel(b, c + [0])
    ensures Ravel(Init(a), c) == Ravel(Init(b), c) && (Ravel(Init(a), c) > 0 ==> Last(a) == Last(b))
  {
    AppendZero(a, c);
    AppendZero(b, c);
    RavelMono(Init(a), Init(b), c);
    SmallerProduct(Ravel(Init(a), c), Last(a), Ravel(Init(b), c), Last(b));
  }

  /** Where positions agree for every coordinate, the shapes are aligned. */
  lemma {:induction false} AlignedOnlyIf(a: seq<nat>, b: seq<nat>)
    requires Fits(a, b) && Prod(a) > 0
    requires forall c :: InRange(a, c) ==> Ravel(a, c) == Ravel(b, c)
    ensures Aligned(a, b)
  {
    if |a| > 0 {
      assert Last(a) > 0 && Prod(Init(a)) > 0;
      forall c | InRange(Init(a), c)
        ensures Ravel(Init(a), c) == Ravel(Init(b), c)
        ensures Ravel(Init(a), c) > 0 ==> Last(a) == Last(b)
      {
        assert InRange(a, c + [0]);
        AgreeBefore(a, b, c);
      }
      AlignedOnlyIf(Init(a), Init(b));
      if j :| 0 <= j < |a| - 1 && a[j] > 1 {
        var c := Unit(Init(a), j);
      }
      AlignedSnoc(a, b);
    }
  }

  /** Two shapes count positions alike exactly when they are aligned. */
  lemma AlignedIff(a: seq<nat>, b: seq<nat>)
    requires |a| == |b| && Prod(a) > 0
    ensures Aligned(a, b) <==> forall c :: InRange(a, c) ==> InRange(b, c) && Ravel(a, c) == Ravel(b, c)
  {
    if Aligned(a, b) {
      forall c | InRange(a, c) ensures InRange(b, c) && Ravel(a, c) == Ravel(b, c) {
        RavelAligned(a, b, c);
      }
    } else if forall c :: InRange(a, c) ==> InRange(b, c) && Ravel(a, c) == Ravel(b, c) {
      FitsOnlyIf(a, b);
      AlignedOnlyIf(a, b);
    }
  }

  /** A shape whose every coordinate lies in another fits in it. */
  lemma FitsOnlyIf(a: seq<nat>, b: seq<nat>)
    requires |a| == |b| && Prod(a) > 0 && forall c :: InRange(a, c) ==> InRange(b, c)
    ensures Fits(a, b)
  {
    Positive(a);
    var c := seq(|a|, k requires 0 <= k < |a| => a[k] - 1);
    assert InRange(a, c);
    forall k | 0 <= k < |a| ensures a[k] <= b[k] {
      assert c[k] < b[k];
    }
  }

  /** A shape that fits in another of as many elements is that shape. */
  lemma {:induction false} FitsExactly(a: seq<nat>, b: seq<nat>)
    requires Fits(a, b) && Prod(a) == Prod(b) > 0
    ensures a == b
  {
    if |a| > 0 {
      FitsProd(Init(a), Init(b));
      SmallerProduct(Prod(Init(a)), Last(a), Prod(Init(b)), Last(b));
      assert Prod(Init(a)) > 0 && Last(b) > 0;
      FitsExactly(Init(a), Init(b));
      assert a == Init(a) + [Last(a)] && b == Init(b) + [Last(b)];
    }
  }

  lemma {:induction false} FitsProd(a: seq<nat>, b: seq<nat>)
    requires Fits(a, b)
    ensures Prod(a) <= Prod(b)
  {
    if |a| > 0 {
      FitsProd(Init(a), Init(b));
      SmallerProduct(Prod(Init(a)), Last(a), Prod(Init(b)), Last(b));
    }
  }
}
