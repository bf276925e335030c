/** Tensor layouts (`fuel-ir`): dimensions, strides and a start offset, and the row-major
    order in which a layout's elements are visited. */
module Layouts {
  import opened Radix

  function Last<T>(s: seq<T>): T requires |s| > 0 { s[|s| - 1] }
  function Init<T>(s: seq<T>): seq<T> requires |s| > 0 { s[..|s| - 1] }

  /** The number of elements of a shape. */
  function Prod(dims: seq<nat>): nat {
    if |dims| == 0 then 1 else Prod(Init(dims)) * Last(dims)
  }

  ghost predicate InRange(dims: seq<nat>, c: seq<int>) {
    |c| == |dims| && forall k :: 0 <= k < |c| ==> 0 <= c[k] < dims[k]
  }

  /** The row-major position of given coordinates. */
  ghost function Ravel(dims: seq<nat>, c: seq<int>): int
    requires |c| == |dims|
  {
    if |dims| == 0 then 0 else Ravel(Init(dims), Init(c)) * Last(dims) + Last(c)
  }

  /** Coordinates applied to strides. */
  ghost function Dot(c: seq<int>, strides: seq<int>): int
    requires |c| == |strides|
  {
    if |c| == 0 then 0 else Dot(Init(c), Init(strides)) + Last(c) * Last(strides)
  }

  /** The coordinates visited `i`-th in row-major order. */
  ghost function Unravel(dims: seq<nat>, i: int): (c: seq<int>)
    requires 0 <= i < Prod(dims)
    ensures InRange(dims, c) && Ravel(dims, c) == i
  {
    CoordsExist(dims, i);
    var c :| InRange(dims, c) && Ravel(dims, c) == i;
    c
  }

  datatype Layout = Layout(dims: seq<nat>, strides: seq<int>, start: nat) {
    ghost predicate Valid() { |dims| == |strides| }

    function Count(): nat { Prod(dims) }

    /** Where the `i`-th element in row-major order is stored. */
    ghost function Offset(i: int): int
      requires Valid() && 0 <= i < Count()
    {
      start + Dot(Unravel(dims, i), strides)
    }
  }

  // ---------------------------------------------------------------- coordinates and positions

  lemma {:induction false} Coords(dims: seq<nat>, i: int) returns (c: seq<int>)
    requires 0 <= i < Prod(dims)
    ensures InRange(dims, c) && Ravel(dims, c) == i
  {
    if |dims| == 0 {
      c := [];
    } else {
      var d := Last(dims);
      assert d > 0;
      DivBound(i, Prod(Init(dims)), d);
      var c' := Coords(Init(dims), Hi(i, d));
      c := c' + [Lo(i, d)];
      assert Init(c) == c';
    }
  }

  lemma CoordsExist(dims: seq<nat>, i: int)
    requires 0 <= i < Prod(dims)
    ensures exists c :: InRange(dims, c) && Ravel(dims, c) == i
  {
    var c := Coords(dims, i);
  }

  lemma {:induction false} RavelBound(dims: seq<nat>, c: seq<int>)
    requires InRange(dims, c)
    ensures 0 <= Ravel(dims, c) < Prod(dims)
  {
    if |dims| > 0 {
      RavelBound(Init(dims), Init(c));
      Bound(Ravel(Init(dims), Init(c)), Prod(Init(dims)), Last(c), Last(dims));
    }
  }

  /** Distinct coordinates have distinct positions. */
  lemma {:induction false} RavelInjective(dims: seq<nat>, c: seq<int>, c': seq<int>)
    requires InRange(dims, c) && InRange(dims, c') && Ravel(dims, c) == Ravel(dims, c')
    ensures c == c'
  {
    if |dims| > 0 {
      PosInjective(Ravel(Init(dims), Init(c)), Last(c), Ravel(Init(dims), Init(c')), Last(c'), Last(dims));
      RavelInjective(Init(dims), Init(c), Init(c'));
      assert c == Init(c) + [Last(c)] && c' == Init(c') + [Last(c')];
    }
  }

  /** Any coordinates at a position are the ones visited there. */
  lemma UnravelIs(dims: seq<nat>, c: seq<int>)
    requires InRange(dims, c)
    ensures 0 <= Ravel(dims, c) < Prod(dims) && Unravel(dims, Ravel(dims, c)) == c
  {
    RavelBound(dims, c);
    RavelInjective(dims, c, Unravel(dims, Ravel(dims, c)));
  }

  lemma {:induction false} Positive(a: seq<nat>)
    ensures Prod(a) > 0 <==> forall k :: 0 <= k < |a| ==> a[k] > 0
  {
    if |a| > 0 {
      Positive(Init(a));
      MulMono(1, Prod(Init(a)), Last(a));
      assert forall k :: 0 <= k < |a| - 1 ==> Init(a)[k] == a[k];
    }
  }

  lemma {:induction false} ProdConcat(a: seq<nat>, b: seq<nat>)
    ensures Prod(a + b) == Prod(a) * Prod(b)
  {
    if |b| == 0 {
      assert a + b == a;
    } else {
      assert Init(a + b) == a + Init(b);
      ProdConcat(a, Init(b));
      Mul3(Prod(a), Prod(Init(b)), Last(b));
    }
  }

  lemma {:induction false} DotConcat(a: seq<int>, b: seq<int>, sa: seq<int>, sb: seq<int>)
    requires |a| == |sa| && |b| == |sb|
    ensures Dot(a + b, sa + sb) == Dot(a, sa) + Dot(b, sb)
  {
    if |b| == 0 {
      assert a + b == a && sa + sb == sa;
    } else {
      assert Init(a + b) == a + Init(b) && Init(sa + sb) == sa + Init(sb);
      DotConcat(a, Init(b), sa, Init(sb));
    }
  }

  /** Splitting the axes splits a position into a high and a low part. */
  lemma {:induction false} RavelConcat(a: seq<nat>, b: seq<nat>, ca: seq<int>, cb: seq<int>)
    requires |ca| == |a| && |cb| == |b|
    ensures Ravel(a + b, ca + cb) == Ravel(a, ca) * Prod(b) + Ravel(b, cb)
  {
    if |b| == 0 {
      assert a + b == a && ca + cb == ca;
    } else {
      assert Init(a + b) == a + Init(b) && Init(ca + cb) == ca + Init(cb);
      RavelConcat(a, Init(b), ca, Init(cb));
      Horner3(Ravel(a, ca), Ravel(Init(b), Init(cb)), Last(cb), Prod(Init(b)), Last(b));
    }
  }

  lemma UnravelSplit(a: seq<nat>, b: seq<nat>, q: int, r: int)
    requires 0 <= q < Prod(a) && 0 <= r < Prod(b)
    ensures 0 <= q * Prod(b) + r < Prod(a + b)
    ensures Unravel(a + b, q * Prod(b) + r) == Unravel(a, q) + Unravel(b, r)
  {
    RavelConcat(a, b, Unravel(a, q), Unravel(b, r));
    UnravelIs(a + b, Unravel(a, q) + Unravel(b, r));
  }

  // ---------------------------------------------------------------- contiguity

  /** Row-major strides, read from the last axis; axes of size one or zero may carry any stride. */
  ghost predicate RowMajorFrom(dims: seq<nat>, strides: seq<int>, acc: int)
    requires |dims| == |strides|
  {
    |dims| == 0
    || ((Last(dims) <= 1 || Last(strides) == acc) && RowMajorFrom(Init(dims), Init(strides), acc * Last(dims)))
  }

  /** Every stride is the size of what follows, that of an axis of size one included. */
  ghost predicate Exact(dims: seq<nat>, strides: seq<int>, acc: int)
    requires |dims| == |strides|
  {
    forall j :: 0 <= j < |dims| ==> strides[j] == acc * Prod(dims[j + 1..])
  }

  lemma {:induction false} ExactIsRowMajor(dims: seq<nat>, strides: seq<int>, acc: int)
    requires |dims| == |strides| && Exact(dims, strides, acc)
    ensures RowMajorFrom(dims, strides, acc)
  {
    if |dims| > 0 {
      var n := |dims| - 1;
      assert dims[n + 1..] == [];
      forall j | 0 <= j < n ensures Init(strides)[j] == acc * Last(dims) * Prod(Init(dims)[j + 1..]) {
        assert Init(dims[j + 1..]) == Init(dims)[j + 1..];
        Mul3(acc, Last(dims), Prod(Init(dims)[j + 1..]));
        assert Last(dims) * Prod(Init(dims)[j + 1..]) == Prod(Init(dims)[j + 1..]) * Last(dims);
      }
      ExactIsRowMajor(Init(dims), Init(strides), acc * Last(dims));
    }
  }

  /** An axis of two or more has the size of what follows for its stride. */
  ghost predicate AxisPacked(dims: seq<nat>, strides: seq<int>, acc: int, k: int)
    requires |dims| == |strides| && 0 <= k < |dims|
  {
    dims[k] >= 2 ==> strides[k] == acc * Prod(dims[k + 1..])
  }

  /** Without recursion, and whatever the strides of the other axes. */
  lemma {:induction false} RowMajorIff(dims: seq<nat>, strides: seq<int>, acc: int)
    requires |dims| == |strides|
    ensures RowMajorFrom(dims, strides, acc) <==> forall k :: 0 <= k < |dims| ==> AxisPacked(dims, strides, acc, k)
  {
    if |dims| > 0 {
      var n, d, ds, ss := |dims| - 1, Last(dims), Init(dims), Init(strides);
      RowMajorIff(ds, ss, acc * d);
      assert dims[n + 1..] == [];
      assert AxisPacked(dims, strides, acc, n) <==> d <= 1 || Last(strides) == acc;
      forall k | 0 <= k < n ensures AxisPacked(dims, strides, acc, k) <==> AxisPacked(ds, ss, acc * d, k) {
        RestStep(dims, k, acc);
      }
    }
  }

  lemma RestStep(dims: seq<nat>, k: nat, acc: int)
    requires k + 1 < |dims|
    ensures acc * Prod(dims[k + 1..]) == acc * Last(dims) * Prod(Init(dims)[k + 1..])
  {
    assert Init(dims[k + 1..]) == Init(dims)[k + 1..];
    Mul3(acc, Last(dims), Prod(Init(dims)[k + 1..]));
  }

  method IsContiguous(l: Layout) returns (r: bool)
    requires l.Valid()
    ensures r == RowMajorFrom(l.dims, l.strides, 1)
  {
    var acc := 1;
    var k := |l.dims|;
    assert l.dims[..k] == l.dims && l.strides[..k] == l.strides;
    while k > 0
      invariant 0 <= k <= |l.dims|
      invariant RowMajorFrom(l.dims, l.strides, 1) == RowMajorFrom(l.dims[..k], l.strides[..k], acc)
    {
      k := k - 1;
      assert Init(l.dims[..k + 1]) == l.dims[..k] && Init(l.strides[..k + 1]) == l.strides[..k];
      if l.dims[k] > 1 && l.strides[k] != acc {
        return false;
      }
      acc := acc * l.dims[k];
    }
    return true;
  }

  lemma RowMajorStep(acc: int, d: int, q: int, r: int, s: int)
    requires 0 <= r < d && (d <= 1 || s == acc)
    ensures acc * d * q + r * s == acc * (q * d + r)
  {
    calc {
      acc * (q * d + r);
      acc * (q * d) + acc * r;
      { assert q * d == d * q; Mul3(acc, d, q); }
      acc * d * q + acc * r;
      { if d <= 1 { assert r == 0; } }
      acc * d * q + r * s;
    }
  }

  lemma {:induction false} RowMajorDot(dims: seq<nat>, strides: seq<int>, acc: int, c: seq<int>)
    requires |dims| == |strides| && RowMajorFrom(dims, strides, acc) && InRange(dims, c)
    ensures Dot(c, strides) == acc * Ravel(dims, c)
  {
    if |dims| > 0 {
      RowMajorDot(Init(dims), Init(strides), acc * Last(dims), Init(c));
      RowMajorStep(acc, Last(dims), Ravel(Init(dims), Init(c)), Last(c), Last(strides));
    }
  }

  /** A layout the check calls contiguous stores its elements one after another. */
  lemma ContiguousOffset(l: Layout, i: int)
    requires l.Valid() && RowMajorFrom(l.dims, l.strides, 1) && 0 <= i < l.Count()
    ensures l.Offset(i) == l.start + i
  {
    RowMajorDot(l.dims, l.strides, 1, Unravel(l.dims, i));
  }

  /** Conversely, storing the elements one after another forces the strides the check asks
      for: it never refuses a contiguous layout that has an element. */
  lemma {:induction false} ContiguousOnlyIf(dims: seq<nat>, strides: seq<int>, acc: int)
    requires |dims| == |strides| && Prod(dims) > 0
    requires forall c :: InRange(dims, c) ==> Dot(c, strides) == acc * Ravel(dims, c)
    ensures RowMajorFrom(dims, strides, acc)
  {
    if |dims| > 0 {
      var d, ds, ss := Last(dims), Init(dims), Init(strides);
      assert d > 0 && Prod(ds) > 0;
      forall c | InRange(ds, c) ensures Dot(c, ss) == acc * d * Ravel(ds, c) {
        assert Init(c + [0]) == c;
        assert InRange(dims, c + [0]);
        RowMajorStep(acc, d, Ravel(ds, c), 0, acc);
      }
      ContiguousOnlyIf(ds, ss, acc * d);
      if d > 1 {
        var c := Coords(ds, 0);
        assert Init(c + [1]) == c;
        assert InRange(dims, c + [1]);
        RowMajorStep(acc, d, 0, 1, acc);
      }
    }
  }

  // ---------------------------------------------------------------- fixed ranks

  lemma Rank1(d: seq<nat>, c: seq<int>, s: seq<int>)
    requires |d| == |c| == |s| == 1
    ensures Prod(d) == d[0] && Ravel(d, c) == c[0] && Dot(c, s) == c[0] * s[0]
  {
    assert Init(d) == [] && Init(c) == [] && Init(s) == [];
  }

  lemma Rank2(d: seq<nat>, c: seq<int>, s: seq<int>)
    requires |d| == |c| == |s| == 2
    ensures Prod(d) == d[0] * d[1] && Ravel(d, c) == c[0] * d[1] + c[1] && Dot(c, s) == c[0] * s[0] + c[1] * s[1]
  {
    Rank1(Init(d), Init(c), Init(s));
  }

  lemma Rank3(d: seq<nat>, c: seq<int>, s: seq<int>)
    requires |d| == |c| == |s| == 3
    ensures Prod(d) == d[0] * d[1] * d[2] && Ravel(d, c) == (c[0] * d[1] + c[1]) * d[2] + c[2]
    ensures Dot(c, s) == c[0] * s[0] + c[1] * s[1] + c[2] * s[2]
  {
    Prod3(d);
    Ravel3(d, c);
    Dot3(c, s);
  }

  lemma Prod3(d: seq<nat>)
    requires |d| == 3
    ensures Prod(d) == d[0] * d[1] * d[2]
  {
    Rank2(Init(d), [0, 0], [0, 0]);
    MulEq(Prod(Init(d)), d[0] * d[1], d[2]);
  }

  lemma Ravel3(d: seq<nat>, c: seq<int>)
    requires |d| == |c| == 3
    ensures Ravel(d, c) == (c[0] * d[1] + c[1]) * d[2] + c[2]
  {
    Rank2(Init(d), Init(c), [0, 0]);
    MulEq(Ravel(Init(d), Init(c)), c[0] * d[1] + c[1], d[2]);
  }

  lemma Dot3(c: seq<int>, s: seq<int>)
    requires |c| == |s| == 3
    ensures Dot(c, s) == c[0] * s[0] + c[1] * s[1] + c[2] * s[2]
  {
    Rank2([0, 0], Init(c), Init(s));
  }

  lemma Prod4(d: seq<nat>)
    requires |d| == 4
    ensures Prod(d) == d[0] * d[1] * d[2] * d[3]
  {
    Rank3(Init(d), [0, 0, 0], [0, 0, 0]);
  }

  lemma Ravel4(d: seq<nat>, c: seq<int>)
    requires |d| == |c| == 4
    ensures Ravel(d, c) == ((c[0] * d[1] + c[1]) * d[2] + c[2]) * d[3] + c[3]
  {
    Rank3(Init(d), Init(c), [0, 0, 0]);
    MulEq(Ravel(Init(d), Init(c)), (c[0] * d[1] + c[1]) * d[2] + c[2], d[3]);
  }

  lemma Dot4(c: seq<int>, s: seq<int>)
    requires |c| == |s| == 4
    ensures Dot(c, s) == c[0] * s[0] + c[1] * s[1] + c[2] * s[2] + c[3] * s[3]
  {
    Rank3([0, 0, 0], Init(c), Init(s));
  }
}
