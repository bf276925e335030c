/** `StridedIndex` (`fuel-ir`): an odometer that walks a layout without dividing. */
module StridedIndices {
  import opened Radix
  import opened Wrappers
  import opened Layouts

  function Zeros(n: nat): seq<int> { seq(n, _ => 0) }

  lemma {:induction false} ZerosAreFirst(dims: seq<nat>, strides: seq<int>)
    requires |dims| == |strides|
    ensures Ravel(dims, Zeros(|dims|)) == 0 && Dot(Zeros(|dims|), strides) == 0
  {
    if |dims| > 0 {
      assert Init(Zeros(|dims|)) == Zeros(|dims| - 1);
      ZerosAreFirst(Init(dims), Init(strides));
    }
  }

  /** Digits `k..` of `c` are full and have been reset; `next` is the storage position of
      the digits that are left, and the carry stands at axis `k`. */
  ghost predicate Rolling(dims: seq<nat>, strides: seq<int>, c: seq<int>, i: int, k: int, next: int) {
    && 0 <= k <= |dims| == |strides| && InRange(dims, c)
    && i + 1 == (Ravel(dims[..k], c[..k]) + 1) * Prod(dims[k..])
    && next == Dot(c[..k], strides[..k])
  }

  lemma RollStart(dims: seq<nat>, strides: seq<int>, c: seq<int>)
    requires InRange(dims, c) && |strides| == |dims|
    ensures Rolling(dims, strides, c, Ravel(dims, c), |dims|, Dot(c, strides))
  {
    assert dims[..|dims|] == dims && c[..|dims|] == c && strides[..|dims|] == strides;
  }

  lemma RollEnd(dims: seq<nat>, strides: seq<int>, c: seq<int>, i: int, next: int)
    requires Rolling(dims, strides, c, i, 0, next)
    ensures i + 1 == Prod(dims)
  {
    assert dims[0..] == dims;
  }

  /** A full digit rolls over: the carry moves one axis to the left. */
  lemma Carry(dims: seq<nat>, strides: seq<int>, c: seq<int>, i: int, k: nat, next: int)
    requires Rolling(dims, strides, c, i, k, next) && 0 < k && c[k - 1] + 1 == dims[k - 1]
    ensures Rolling(dims, strides, c, i, k - 1, next - c[k - 1] * strides[k - 1])
  {
    var d, r, P := dims[k - 1], Ravel(dims[..k - 1], c[..k - 1]), Prod(dims[k..]);
    assert Init(dims[..k]) == dims[..k - 1] && Init(c[..k]) == c[..k - 1] && Init(strides[..k]) == strides[..k - 1];
    assert dims[k - 1..] == [d] + dims[k..];
    ProdConcat([d], dims[k..]);
    assert Prod([d]) == d;
    CarryProduct(i, r, d, c[k - 1], P);
  }

  lemma CarryProduct(i: int, r: int, d: int, x: int, P: int)
    requires i + 1 == (r * d + x + 1) * P && x + 1 == d
    ensures i + 1 == (r + 1) * (d * P)
  {
    Dist(r, 1, d);
    MulEq(r * d + x + 1, (r + 1) * d, P);
    Mul3(r + 1, d, P);
  }

  /** A digit with room is bumped: the coordinates of the next position. */
  lemma Bump(dims: seq<nat>, strides: seq<int>, c: seq<int>, i: int, k: nat, next: int)
    requires Rolling(dims, strides, c, i, k, next) && 0 < k && c[k - 1] + 1 < dims[k - 1]
    ensures var c' := c[..k - 1] + [c[k - 1] + 1] + Zeros(|dims| - k);
            InRange(dims, c') && Ravel(dims, c') == i + 1 && Dot(c', strides) == next + strides[k - 1]
  {
    var A, B, SA, SB := dims[..k], dims[k..], strides[..k], strides[k..];
    var high, low := c[..k - 1] + [c[k - 1] + 1], Zeros(|dims| - k);
    assert A + B == dims && SA + SB == strides;
    BumpHigh(A, SA, c[..k]);
    assert high == Init(c[..k]) + [Last(c[..k]) + 1];
    ZerosAreFirst(B, SB);
    RavelConcat(A, B, high, low);
    DotConcat(high, low, SA, SB);
  }

  lemma BumpHigh(dims: seq<nat>, strides: seq<int>, c: seq<int>)
    requires |c| == |dims| == |strides| > 0
    ensures var c' := Init(c) + [Last(c) + 1];
            Ravel(dims, c') == Ravel(dims, c) + 1 && Dot(c', strides) == Dot(c, strides) + Last(strides)
  {
    assert Init(Init(c) + [Last(c) + 1]) == Init(c);
    Dist(Last(c), 1, Last(strides));
  }

  class StridedIndex {
    const dims: seq<nat>
    const stride: seq<int>
    const start: int
    var nextStorageIndex: Option<int>
    var multiIndex: seq<int>
    var remaining: int
    /** How many indices have been handed out. */
    ghost var visited: nat

    ghost predicate Valid()
      reads this
    {
      && |dims| == |stride| && 0 <= visited <= Prod(dims) && remaining == Prod(dims) - visited
      && |multiIndex| == |dims|
      && if visited < Prod(dims)
         then multiIndex == Unravel(dims, visited) && nextStorageIndex == Some(start + Dot(multiIndex, stride))
         else nextStorageIndex == None
    }

    constructor (dims: seq<nat>, stride: seq<int>, start: int)
      requires |dims| == |stride|
      ensures Valid() && visited == 0 && this.dims == dims && this.stride == stride && this.start == start
    {
      this.dims, this.stride, this.start := dims, stride, start;
      var elemCount := Prod(dims);
      nextStorageIndex := if elemCount == 0 then None else Some(start);
      multiIndex := Zeros(|dims|);
      remaining := elemCount;
      visited := 0;
      new;
      ZerosAreFirst(dims, stride);
      if elemCount > 0 {
        Positive(dims);
        UnravelIs(dims, Zeros(|dims|));
      }
    }

    /** Hands out the position of the next element in row-major order. */
    method Next() returns (r: Option<int>)
      requires Valid()
      modifies this
      ensures Valid()
      ensures old(visited) < Prod(dims)
              ==> r == Some(start + Dot(Unravel(dims, old(visited)), stride)) && visited == old(visited) + 1
      ensures old(visited) == Prod(dims) ==> r == None && visited == old(visited)
    {
      if nextStorageIndex == None {
        return None;
      }
      var storageIndex := nextStorageIndex.value;
      var updated, next;
      multiIndex, next, updated := Advance(dims, stride, multiIndex, storageIndex, start);
      remaining := remaining - 1;
      nextStorageIndex := if updated then Some(next) else None;
      if updated {
        UnravelIs(dims, multiIndex);
      }
      visited := visited + 1;
      r := Some(storageIndex);
    }
  }

  /** One turn of the odometer, from the last axis to the left. */
  method Advance(dims: seq<nat>, stride: seq<int>, c: seq<int>, storageIndex: int, ghost start: int)
    returns (multiIndex: seq<int>, next: int, updated: bool)
    requires InRange(dims, c) && |stride| == |dims| && storageIndex == start + Dot(c, stride)
    ensures |multiIndex| == |dims|
    ensures updated ==> InRange(dims, multiIndex) && Ravel(dims, multiIndex) == Ravel(dims, c) + 1
                        && next == start + Dot(multiIndex, stride)
    ensures !updated ==> Ravel(dims, c) + 1 == Prod(dims)
  {
    multiIndex, next, updated := c, storageIndex, false;
    ghost var i := Ravel(dims, c);
    var k := |dims|;
    RollStart(dims, stride, c);
    while k > 0
      invariant 0 <= k <= |dims| == |multiIndex|
      invariant forall j :: 0 <= j < |multiIndex| ==> multiIndex[j] == if j < k then c[j] else 0
      invariant Rolling(dims, stride, c, i, k, next - start)
    {
      var nextI := multiIndex[k - 1] + 1;
      if nextI < dims[k - 1] {
        Bump(dims, stride, c, i, k, next - start);
        multiIndex := multiIndex[k - 1 := nextI];
        assert multiIndex == c[..k - 1] + [c[k - 1] + 1] + Zeros(|dims| - k);
        next := next + stride[k - 1];
        return multiIndex, next, true;
      }
      Carry(dims, stride, c, i, k, next - start);
      next := next - multiIndex[k - 1] * stride[k - 1];
      multiIndex := multiIndex[k - 1 := 0];
      k := k - 1;
    }
    RollEnd(dims, stride, c, i, next - start);
  }

  /** Draining the odometer visits every element once, in row-major order. */
  method CollectOffsets(l: Layout) returns (offsets: seq<int>)
    requires l.Valid()
    ensures |offsets| == l.Count()
    ensures forall i :: 0 <= i < |offsets| ==> offsets[i] == l.Offset(i)
  {
    var it := new StridedIndex(l.dims, l.strides, l.start);
    offsets := [];
    while true
      invariant it.Valid() && it.dims == l.dims && it.stride == l.strides && it.start == l.start
      invariant |offsets| == it.visited <= l.Count()
      invariant forall i :: 0 <= i < |offsets| ==> offsets[i] == l.Offset(i)
      decreases l.Count() - it.visited
    {
      var next := it.Next();
      if next == None {
        break;
      }
      offsets := offsets + [next.value];
    }
  }
}
