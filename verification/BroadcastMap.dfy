/** `binary_map`, `binary_map_vec` and `unary_map`: whatever path is taken, the operation is
    applied element by element in row-major order. */
module BroadcastMap {
  import opened Radix
  import opened Wrappers
  import opened Layouts
  import opened StridedIndices
  import opened StridedCopy
  import opened Tables
  import opened Indexing
  import opened BroadcastOffsets

  type Op2 = (int, int) -> int
  type Op1 = int -> int

  /** A tensor whose elements lie in its buffer. */
  ghost predicate Reads(data: seq<int>, l: Layout) {
    l.Valid() && l.start <= |data| && forall i :: 0 <= i < l.Count() ==> 0 <= l.Offset(i) < |data|
  }

  /** Zipping the two enumerations: element `i` of the one with element `i` of the other. */
  ghost predicate IsZip(out: seq<int>, f: Op2, x: seq<int>, y: seq<int>) {
    |out| == |x| == |y| && forall i :: 0 <= i < |out| ==> out[i] == f(x[i], y[i])
  }

  // ---------------------------------------------------------------- a contiguous and a broadcast operand

  /** `v` repeats `run` as `ob` says. */
  ghost predicate Repeats(v: seq<int>, run: seq<int>, ob: Broadcast) {
    && |run| == ob.len && |v| == ob.left * ob.len * ob.right
    && forall a, b, c :: 0 <= a < ob.left && 0 <= b < ob.len && 0 <= c < ob.right
         ==> 0 <= Pos3(a, b, c, ob.len, ob.right) < |v| && v[Pos3(a, b, c, ob.len, ob.right)] == run[b]
  }

  lemma BroadcastRepeats(data: seq<int>, l: Layout, ob: Broadcast)
    requires Reads(data, l) && IsBroadcast(l, ob) && l.Count() > 0
    ensures ob.start + ob.len <= |data| && Repeats(PackedCopy(data, l), data[ob.start..ob.start + ob.len], ob)
  {
    PositiveFactors(ob.left, ob.len, ob.right);
    forall a, b, c | 0 <= a < ob.left && 0 <= b < ob.len && 0 <= c < ob.right
      ensures 0 <= ob.start + b < |data| && PackedCopy(data, l)[Pos3(a, b, c, ob.len, ob.right)] == data[ob.start + b]
    {
      assert l.Offset(Pos3(a, b, c, ob.len, ob.right)) == ob.start + b;
    }
    var e := Pos3(0, ob.len - 1, 0, ob.len, ob.right);
    assert l.Offset(e) == ob.start + (ob.len - 1);
  }

  lemma PositiveFactors(a: nat, b: nat, c: nat)
    requires a * b * c > 0
    ensures a > 0 && b > 0 && c > 0
  {
    Some3(0, a, b, c);
  }

  /** The running counters of `binary_map` are the digits of the position. */
  ghost predicate Counters(i: int, inBlock: int, inRight: int, ob: Broadcast) {
    exists a :: 0 <= a && 0 <= inBlock < ob.len && 0 <= inRight < ob.right
        && i == Pos3(a, inBlock, inRight, ob.len, ob.right)
  }

  lemma NextCounters(i: int, inBlock: int, inRight: int, ob: Broadcast)
    requires Counters(i, inBlock, inRight, ob)
    ensures var right' := if inRight + 1 >= ob.right then 0 else inRight + 1;
            var block' := if inRight + 1 >= ob.right then inBlock + 1 else inBlock;
            Counters(i + 1, if block' >= ob.len then 0 else block', right', ob)
  {
    var a :| 0 <= a && i == Pos3(a, inBlock, inRight, ob.len, ob.right);
    if inRight + 1 >= ob.right {
      Dist(a * ob.len + inBlock, 1, ob.right);
      if inBlock + 1 >= ob.len {
        Dist(a, 1, ob.len);
        assert i + 1 == Pos3(a + 1, 0, 0, ob.len, ob.right);
      } else {
        assert i + 1 == Pos3(a, inBlock + 1, 0, ob.len, ob.right);
      }
    } else {
      assert i + 1 == Pos3(a, inBlock, inRight + 1, ob.len, ob.right);
    }
  }

  lemma CountersRead(v: seq<int>, run: seq<int>, ob: Broadcast, i: int, inBlock: int, inRight: int)
    requires Repeats(v, run, ob) && 0 <= i < |v| && Counters(i, inBlock, inRight, ob)
    ensures v[i] == run[inBlock]
  {
    var a :| 0 <= a && i == Pos3(a, inBlock, inRight, ob.len, ob.right);
    OuterDigit(a, inBlock, inRight, ob.left, ob.len, ob.right);
  }

  lemma OuterDigit(a: int, b: int, c: int, left: nat, len: nat, right: nat)
    requires 0 <= a && 0 <= b < len && 0 <= c < right && Pos3(a, b, c, len, right) < left * len * right
    ensures a < left
  {
    MulMono(left, a, len);
    MulMono(left * len, a * len + b, right);
  }

  /** The walk of `binary_map` over the contiguous operand, `swapped` when it is on the right. */
  method WalkBroadcast(f: Op2, x: seq<int>, data: seq<int>, ob: Broadcast, swapped: bool, ghost y: seq<int>)
          returns (out: seq<int>)
    requires |x| == |y|
    requires |x| > 0 ==> ob.start + ob.len <= |data| && Repeats(y, data[ob.start..ob.start + ob.len], ob)
    ensures if swapped then IsZip(out, f, y, x) else IsZip(out, f, x, y)
  {
    out := [];
    var inBlock, inRight := 0, 0;
    if |x| > 0 {
      PositiveFactors(ob.left, ob.len, ob.right);
      assert 0 == Pos3(0, 0, 0, ob.len, ob.right);
    }
    for i := 0 to |x|
      invariant |out| == i && forall k :: 0 <= k < i ==> out[k] == if swapped then f(y[k], x[k]) else f(x[k], y[k])
      invariant |x| > 0 ==> Counters(i, inBlock, inRight, ob)
    {
      CountersRead(y, data[ob.start..ob.start + ob.len], ob, i, inBlock, inRight);
      NextCounters(i, inBlock, inRight, ob);
      var r := data[inBlock + ob.start];
      inRight := inRight + 1;
      if inRight >= ob.right {
        inBlock := inBlock + 1;
        inRight := 0;
      }
      if inBlock >= ob.len {
        inBlock := 0;
      }
      out := out + [if swapped then f(r, x[i]) else f(x[i], r)];
    }
  }

  /** The fallback, and the definition: both odometers at once. */
  method ZipStrided(f: Op2, lhs: seq<int>, lhsL: Layout, rhs: seq<int>, rhsL: Layout) returns (out: seq<int>)
    requires Reads(lhs, lhsL) && Reads(rhs, rhsL) && lhsL.dims == rhsL.dims
    ensures IsZip(out, f, PackedCopy(lhs, lhsL), PackedCopy(rhs, rhsL))
  {
    var a := CollectOffsets(lhsL);
    var b := CollectOffsets(rhsL);
    out := [];
    for i := 0 to |a|
      invariant |out| == i && forall k :: 0 <= k < i ==> out[k] == f(PackedCopy(lhs, lhsL)[k], PackedCopy(rhs, rhsL)[k])
    {
      out := out + [f(lhs[a[i]], rhs[b[i]])];
    }
  }

  /** `f_vec`: the vectorised operation agrees with the scalar one. */
  method FVec(f: Op2, x: seq<int>, y: seq<int>) returns (ys: seq<int>)
    requires |x| == |y|
    ensures IsZip(ys, f, x, y)
  {
    ys := [];
    for i := 0 to |x|
      invariant |ys| == i && forall k :: 0 <= k < i ==> ys[k] == f(x[k], y[k])
    {
      ys := ys + [f(x[i], y[i])];
    }
  }

  /** `binary_map`. */
  method BinaryMap(f: Op2, lhs: seq<int>, lhsL: Layout, rhs: seq<int>, rhsL: Layout) returns (out: seq<int>)
    requires Reads(lhs, lhsL) && Reads(rhs, rhsL) && lhsL.dims == rhsL.dims
    ensures IsZip(out, f, PackedCopy(lhs, lhsL), PackedCopy(rhs, rhsL))
  {
    var lhsC := IsContiguous(lhsL);
    var rhsC := IsContiguous(rhsL);
    if lhsC && rhsC {
      ContiguousBody(lhs, lhsL);
      ContiguousBody(rhs, rhsL);
      out := FVec(f, Body(lhs, lhsL), Body(rhs, rhsL));
    } else if lhsC {
      ContiguousBody(lhs, lhsL);
      var ob := OffsetsB(rhsL);
      if ob.Some? {
        if rhsL.Count() > 0 { BroadcastRepeats(rhs, rhsL, ob.value); }
        out := WalkBroadcast(f, Body(lhs, lhsL), rhs, ob.value, false, PackedCopy(rhs, rhsL));
      } else {
        out := ZipStrided(f, lhs, lhsL, rhs, rhsL);
      }
    } else if rhsC {
      ContiguousBody(rhs, rhsL);
      var ob := OffsetsB(lhsL);
      if ob.Some? {
        if lhsL.Count() > 0 { BroadcastRepeats(lhs, lhsL, ob.value); }
        out := WalkBroadcast(f, Body(rhs, rhsL), lhs, ob.value, true, PackedCopy(lhs, lhsL));
      } else {
        out := ZipStrided(f, lhs, lhsL, rhs, rhsL);
      }
    } else {
      out := ZipStrided(f, lhs, lhsL, rhs, rhsL);
    }
  }

  // ---------------------------------------------------------------- chunks and in-place rows

  /** `right == 1`: the run is the right operand of one chunk after another. */
  lemma ChunkStep(x: seq<int>, y: seq<int>, run: seq<int>, ob: Broadcast, n: int)
    requires |x| == |y| && Repeats(y, run, ob) && ob.right == 1 && 0 <= n < ob.left
    ensures 0 <= n * ob.len <= n * ob.len + ob.len <= |x| && y[n * ob.len..n * ob.len + ob.len] == run
  {
    MulMono(0, n, ob.len);
    MulMono(n + 1, ob.left, ob.len);
    Dist(n, 1, ob.len);
    forall b | 0 <= b < ob.len ensures y[n * ob.len + b] == run[b] {
      assert y[Pos3(n, b, 0, ob.len, ob.right)] == run[b];
    }
  }

  method ChunkedVec(f: Op2, x: seq<int>, run: seq<int>, ob: Broadcast, swapped: bool, ghost y: seq<int>)
          returns (ys: seq<int>)
    requires |x| == |y| == ob.left * ob.len * ob.right && ob.right == 1 && ob.len > 0
             && (|x| > 0 ==> Repeats(y, run, ob))
    ensures if swapped then IsZip(ys, f, y, x) else IsZip(ys, f, x, y)
  {
    ys := [];
    var srcI := 0;
    ghost var n := 0;
    while srcI < |x|
      invariant 0 <= n <= ob.left && srcI == n * ob.len == |ys|
      invariant forall k :: 0 <= k < |ys| && k < |x| ==> ys[k] == if swapped then f(y[k], x[k]) else f(x[k], y[k])
      decreases |x| - srcI
    {
      MulMono(ob.left, n, ob.len);
      ChunkStep(x, y, run, ob, n);
      var chunk := x[srcI..srcI + ob.len];
      var out;
      if swapped { out := FVec(f, run, chunk); } else { out := FVec(f, chunk, run); }
      ChunkDone(y, run, srcI, ob.len);
      ys := ys + out;
      Dist(n, 1, ob.len);
      n := n + 1;
      srcI := srcI + ob.len;
    }
    MulMono(n, ob.left, ob.len);
  }

  lemma ChunkDone(y: seq<int>, run: seq<int>, from: nat, len: nat)
    requires from + len <= |y| && y[from..from + len] == run
    ensures forall k :: from <= k < from + len ==> y[k] == run[k - from]
  {
    forall k | from <= k < from + len ensures y[k] == run[k - from] {
      assert y[from..from + len][k - from] == y[k];
    }
  }

  /** Cells before `n` hold the result, the others still the operand. */
  ghost predicate InPlace(ys: seq<int>, f: Op2, x: seq<int>, y: seq<int>, swapped: bool, n: int) {
    && |ys| == |x| == |y|
    && forall k :: 0 <= k < |x| ==> ys[k] == if k >= n then x[k] else if swapped then f(y[k], x[k]) else f(x[k], y[k])
  }

  /** One element of the run against its `right` cells, in place. */
  method RowInPlace(f: Op2, ys: array<int>, from: nat, right: nat, r: int, swapped: bool, ghost x: seq<int>,
          ghost y: seq<int>)
    requires from + right <= ys.Length && InPlace(ys[..], f, x, y, swapped, from)
    requires forall k :: from <= k < from + right ==> y[k] == r
    modifies ys
    ensures InPlace(ys[..], f, x, y, swapped, from + right)
  {
    for i := 0 to right
      invariant InPlace(ys[..], f, x, y, swapped, from + i)
    {
      ys[from + i] := if swapped then f(r, ys[from + i]) else f(ys[from + i], r);
    }
  }

  lemma RowHolds(y: seq<int>, run: seq<int>, ob: Broadcast, a: int, b: int)
    requires Repeats(y, run, ob) && 0 <= a < ob.left && 0 <= b < ob.len
    ensures var from := (a * ob.len + b) * ob.right;
            && 0 <= from && from + ob.right <= |y| && from + ob.right == (a * ob.len + (b + 1)) * ob.right
            && forall k :: from <= k < from + ob.right ==> y[k] == run[b]
  {
    var from := (a * ob.len + b) * ob.right;
    Bound(a, ob.left, b, ob.len);
    MulMono(0, a * ob.len + b, ob.right);
    MulMono(a * ob.len + b + 1, ob.left * ob.len, ob.right);
    Dist(a * ob.len + b, 1, ob.right);
    forall k | from <= k < from + ob.right ensures y[k] == run[b] {
      assert k == Pos3(a, b, k - from, ob.len, ob.right);
    }
  }

  /** The loops `left x len x right`, over a copy of the contiguous operand. */
  method RowsInPlace(f: Op2, x: seq<int>, run: seq<int>, ob: Broadcast, swapped: bool, ghost y: seq<int>)
          returns (out: seq<int>)
    requires |x| == |y| && Repeats(y, run, ob)
    ensures if swapped then IsZip(out, f, y, x) else IsZip(out, f, x, y)
  {
    var ys := new int[|x|](i requires 0 <= i < |x| => x[i]);
    for a := 0 to ob.left
      invariant InPlace(ys[..], f, x, y, swapped, a * ob.len * ob.right)
    {
      for b := 0 to ob.len
        invariant InPlace(ys[..], f, x, y, swapped, (a * ob.len + b) * ob.right)
      {
        RowHolds(y, run, ob, a, b);
        RowInPlace(f, ys, (a * ob.len + b) * ob.right, ob.right, run[b], swapped, x, y);
      }
      Dist(a, 1, ob.len);
    }
    out := ys[..];
  }

  /** The run that a layout repeats does not lie in the buffer. */
  ghost predicate RunLeaves(data: seq<int>, l: Layout)
    requires l.Valid()
  {
    Run(l).Some? && Run(l).value.start + Run(l).value.len > |data|
  }

  /** The paths of `binary_map_vec` with one contiguous operand `x`. A run taken chunk by chunk
      is never empty; slicing the run leaves the buffer only for a tensor without elements. */
  method VecBroadcast(f: Op2, x: seq<int>, data: seq<int>, l: Layout, swapped: bool)
          returns (res: Option<Result<seq<int>>>)
    requires Reads(data, l) && |x| == l.Count() && !RowMajorFrom(l.dims, l.strides, 1)
    ensures res.Some? <==> Run(l).Some?
    ensures res.Some? ==> (res.value.Err? <==> RunLeaves(data, l))
    ensures res.Some? && res.value.Err? ==> l.Count() == 0 && res.value.error == OutOfBounds
    ensures res.Some? && res.value.Ok? ==>
              if swapped then IsZip(res.value.value, f, PackedCopy(data, l), x)
              else IsZip(res.value.value, f, x, PackedCopy(data, l))
  {
    var b := OffsetsB(l);
    if b.None? {
      return None;
    }
    var ob := b.value;
    if l.Count() > 0 {
      BroadcastRepeats(data, l, ob);
    }
    if ob.start + ob.len > |data| {
      return Some(Err(OutOfBounds));
    }
    var run := data[ob.start..ob.start + ob.len];
    var ys;
    if ob.right == 1 {
      ys := ChunkedVec(f, x, run, ob, swapped, PackedCopy(data, l));
    } else {
      NoneRepeated(PackedCopy(data, l), run, ob);
      ys := RowsInPlace(f, x, run, ob, swapped, PackedCopy(data, l));
    }
    res := Some(Ok(ys));
  }

  lemma NoneRepeated(v: seq<int>, run: seq<int>, ob: Broadcast)
    requires |v| == ob.left * ob.len * ob.right && |run| == ob.len && (|v| > 0 ==> Repeats(v, run, ob))
    ensures Repeats(v, run, ob)
  {
    forall a, b, c | 0 <= a < ob.left && 0 <= b < ob.len && 0 <= c < ob.right
      ensures 0 <= Pos3(a, b, c, ob.len, ob.right) < |v| && v[Pos3(a, b, c, ob.len, ob.right)] == run[b]
    {
      Pos3Bound(a, b, c, ob.left, ob.len, ob.right);
    }
  }

  /** `binary_map_vec`. */
  method BinaryMapVec(f: Op2, lhs: seq<int>, lhsL: Layout, rhs: seq<int>, rhsL: Layout) returns (res: Result<seq<int>>)
    requires Reads(lhs, lhsL) && Reads(rhs, rhsL) && lhsL.dims == rhsL.dims
    ensures res.Ok? ==> IsZip(res.value, f, PackedCopy(lhs, lhsL), PackedCopy(rhs, rhsL))
    ensures res.Err? <==> || (Packed1(lhsL) && !Packed1(rhsL) && RunLeaves(rhs, rhsL))
                          || (Packed1(rhsL) && !Packed1(lhsL) && RunLeaves(lhs, lhsL))
    ensures res.Err? ==> res.error == OutOfBounds && lhsL.Count() == 0
  {
    var lhsC := IsContiguous(lhsL);
    var rhsC := IsContiguous(rhsL);
    if lhsC && rhsC {
      ContiguousBody(lhs, lhsL);
      ContiguousBody(rhs, rhsL);
      var ys := FVec(f, Body(lhs, lhsL), Body(rhs, rhsL));
      return Ok(ys);
    }
    if lhsC {
      ContiguousBody(lhs, lhsL);
      var r := VecBroadcast(f, Body(lhs, lhsL), rhs, rhsL, false);
      if r.Some? { return r.value; }
    } else if rhsC {
      ContiguousBody(rhs, rhsL);
      var r := VecBroadcast(f, Body(rhs, rhsL), lhs, lhsL, true);
      if r.Some? { return r.value; }
    }
    var ys := ZipStrided(f, lhs, lhsL, rhs, rhsL);
    res := Ok(ys);
  }

  // ---------------------------------------------------------------- one operand

  ghost predicate IsMapped(out: seq<int>, f: Op1, x: seq<int>) {
    |out| == |x| && forall i :: 0 <= i < |out| ==> out[i] == f(x[i])
  }

  ghost predicate MappedSoFar(out: seq<int>, f: Op1, x: seq<int>) {
    |out| <= |x| && forall i :: 0 <= i < |out| ==> out[i] == f(x[i])
  }

  /** One block, element by element. */
  method MapBlock(f: Op1, vs: seq<int>, start: int, blockLen: nat, done: seq<int>, ghost offs: seq<int>,
          ghost x: seq<int>) returns (out: seq<int>)
    requires Readable(vs, offs, |offs|) && |x| == |offs| && (forall i :: 0 <= i < |x| ==> x[i] == vs[offs[i]])
    requires MappedSoFar(done, f, x) && IsRun(offs, |done|, |done| + blockLen, start)
    ensures MappedSoFar(out, f, x) && |out| == |done| + blockLen
  {
    out := done;
    for k := 0 to blockLen
      invariant |out| == |done| + k && MappedSoFar(out, f, x)
    {
      assert offs[|out|] == start + k;
      out := out + [f(vs[start + k])];
    }
  }

  method MapBlocks(f: Op1, vs: seq<int>, starts: seq<int>, blockLen: nat, ghost offs: seq<int>,
          ghost x: seq<int>) returns (out: seq<int>)
    requires Readable(vs, offs, |offs|) && |x| == |offs| && (forall i :: 0 <= i < |x| ==> x[i] == vs[offs[i]])
    requires InBlocks(offs, starts, blockLen)
    ensures IsMapped(out, f, x)
  {
    out := [];
    for q := 0 to |starts|
      invariant MappedSoFar(out, f, x) && |out| == q * blockLen
    {
      out := MapBlock(f, vs, starts[q], blockLen, out, offs, x);
      Dist(q, 1, blockLen);
    }
  }

  /** `unary_map`. */
  method UnaryMap(f: Op1, vs: seq<int>, l: Layout) returns (out: seq<int>)
    requires Reads(vs, l)
    ensures IsMapped(out, f, PackedCopy(vs, l))
  {
    var k, blockLen := StridedBlocks(l);
    var starts := if k == 0 then [l.start] else [];
    if k > 0 {
      starts := CollectOffsets(Layout(l.dims[..k], l.strides[..k], l.start));
    } else {
      OneBlock(l);
    }
    StartsInBlocks(l, k, starts);
    out := MapBlocks(f, vs, starts, blockLen, Offsets(l), PackedCopy(vs, l));
  }

  /** Without index axes there is one block, at the start. */
  lemma OneBlock(l: Layout)
    requires l.Valid()
    ensures Prod(l.dims[..0]) == 1 && Layout(l.dims[..0], l.strides[..0], l.start).Offset(0) == l.start
  {
    assert l.dims[..0] == [] && l.strides[..0] == [];
    assert Unravel([], 0) == [];
  }
}
