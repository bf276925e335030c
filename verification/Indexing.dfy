/** `Gather`, `IndexSelect`, `Scatter` and `IndexAdd`. All four move values along one axis, so
    all four walk the same edges, from a cell of the index side to a cell of the data side. */
module Indexing {
  import opened Sums
  import opened Stops
  import opened Alignment
  import opened Radix
  import opened Wrappers
  import opened Layouts
  import opened Tables
  import opened AxisViews
  import opened EdgeSums

  // ---------------------------------------------------------------- edges

  /** The sentinel selects nothing; any other index must lie on the axis. */
  predicate Good(id: int, maxValue: int, size: nat) { id == maxValue || 0 <= id < size }

  ghost predicate AllGood(ids: seq<int>, maxValue: int, size: nat) {
    forall e :: 0 <= e < |ids| ==> Good(ids[e], maxValue, size)
  }

  /** Where index `id` sends cell `(l, _, r)`: nowhere, or along the axis to `id`. */
  function Target(l: int, id: int, r: int, size: int, right: int, maxValue: int): int {
    if id == maxValue then -1 else Pos3(l, id, r, size, right)
  }

  /** The index of each cell: one per cell (gather, scatter) or one per row (select, add). */
  type Picks = (int, int, int) -> int

  ghost function CellPicks(ids: seq<int>, a: Axes): Picks { (l, i, r) => At(ids, Pos3(l, i, r, a.size, a.right)) }
  ghost function RowPicks(ids: seq<int>, start: int, stride: int): Picks { (l, i, r) => At(ids, start + stride * i) }

  ghost function EdgeFrom(pick: Picks, size: int, right: int, maxValue: int): (int, int, int, int) -> int {
    (_, l, i, r) => Target(l, pick(l, i, r), r, size, right, maxValue)
  }

  /** The edges from the cells of `a` into a tensor with `size` cells along the axis, each of
      `right` elements. */
  ghost predicate IsEdges(edges: seq<int>, a: Axes, size: int, right: int, maxValue: int, pick: Picks) {
    IsTable(edges, 1, a.left, a.size, a.right, EdgeFrom(pick, size, right, maxValue))
  }

  ghost function Edges(a: Axes, size: int, right: int, maxValue: int, pick: Picks): seq<int> {
    Table(1, a.left, a.size, a.right, EdgeFrom(pick, size, right, maxValue))
  }

  lemma EdgesAreEdges(a: Axes, size: int, right: int, maxValue: int, pick: Picks)
    ensures IsEdges(Edges(a, size, right, maxValue, pick), a, size, right, maxValue, pick)
    ensures |Edges(a, size, right, maxValue, pick)| == a.Count()
  {
    TableIsTable(1, a.left, a.size, a.right, EdgeFrom(pick, size, right, maxValue));
  }

  lemma EdgeAt(edges: seq<int>, a: Axes, size: int, right: int, maxValue: int, pick: Picks, l: int, i: int, r: int)
    requires IsEdges(edges, a, size, right, maxValue, pick) && 0 <= l < a.left && 0 <= i < a.size && 0 <= r < a.right
    ensures 0 <= Pos3(l, i, r, a.size, a.right) < |edges| == a.Count()
    ensures edges[Pos3(l, i, r, a.size, a.right)] == Target(l, pick(l, i, r), r, size, right, maxValue)
  {
    assert edges[Pos4(0, l, i, r, a.left, a.size, a.right)] == EdgeFrom(pick, size, right, maxValue)(0, l, i, r);
  }

  // ---------------------------------------------------------------- what an edge means

  /** Off the axis one shape is aligned with the other, before it and after it. */
  predicate Lined(dims: seq<nat>, data: seq<nat>, dim: nat) {
    dim < |dims| == |data| && Aligned(dims[..dim], data[..dim]) && Aligned(dims[dim + 1..], data[dim + 1..])
  }

  /** The index that cell `c` follows. */
  ghost function PickAt(pick: Picks, dims: seq<nat>, dim: nat, c: seq<int>): int
    requires dim < |dims| == |c|
  {
    pick(Ravel(dims[..dim], c[..dim]), c[dim], Ravel(dims[dim + 1..], c[dim + 1..]))
  }

  lemma CellPickAt(ids: seq<int>, dims: seq<nat>, dim: nat, c: seq<int>)
    requires dim < |dims| == |c|
    ensures PickAt(CellPicks(ids, AxesOf(dims, dim)), dims, dim, c) == At(ids, Ravel(dims, c))
  {
    AxisPosition(dims, dim, c);
  }

  /** The flat arithmetic of the kernels, at cell `c`. */
  lemma EdgeOfCell(dims: seq<nat>, dim: nat, size: int, right: int, maxValue: int, pick: Picks, c: seq<int>)
    requires dim < |dims| && InRange(dims, c)
    ensures var edges := Edges(AxesOf(dims, dim), size, right, maxValue, pick);
            && 0 <= Ravel(dims, c) < |edges| == Prod(dims)
            && edges[Ravel(dims, c)] == Target(Ravel(dims[..dim], c[..dim]), PickAt(pick, dims, dim, c),
                                               Ravel(dims[dim + 1..], c[dim + 1..]), size, right, maxValue)
  {
    var a := AxesOf(dims, dim);
    AxesCount(dims, dim);
    AxisPosition(dims, dim, c);
    RavelBound(dims[..dim], c[..dim]);
    RavelBound(dims[dim + 1..], c[dim + 1..]);
    EdgesAreEdges(a, size, right, maxValue, pick);
    EdgeAt(Edges(a, size, right, maxValue, pick), a, size, right, maxValue, pick, Ravel(dims[..dim], c[..dim]), c[dim],
           Ravel(dims[dim + 1..], c[dim + 1..]));
  }

  lemma AlignedTarget(dims: seq<nat>, data: seq<nat>, dim: nat, c: seq<int>, j: int)
    requires Lined(dims, data, dim) && InRange(dims, c)
    ensures Pos3(Ravel(dims[..dim], c[..dim]), j, Ravel(dims[dim + 1..], c[dim + 1..]), data[dim],
            Prod(data[dim + 1..]))
            == Ravel(data, c[dim := j])
    ensures 0 <= j < data[dim] ==> InRange(data, c[dim := j])
  {
    RavelAligned(dims[..dim], data[..dim], c[..dim]);
    RavelAligned(dims[dim + 1..], data[dim + 1..], c[dim + 1..]);
    Replaced(c, dim, j);
    AxisPosition(data, dim, c[dim := j]);
    if 0 <= j < data[dim] {
      forall k | 0 <= k < |c| ensures 0 <= c[dim := j][k] < data[k] {
        if k < dim {
          assert dims[..dim][k] <= data[..dim][k];
        } else if k > dim {
          assert dims[dim + 1..][k - dim - 1] <= data[dim + 1..][k - dim - 1];
        }
      }
    }
  }

  /** What an edge means: the coordinate on the axis becomes the index, the others stay. */
  lemma EdgeReplacesCoordinate(dims: seq<nat>, data: seq<nat>, dim: nat, maxValue: int, pick: Picks, c: seq<int>)
    requires Lined(dims, data, dim) && InRange(dims, c)
    ensures var edges := Edges(AxesOf(dims, dim), data[dim], Prod(data[dim + 1..]), maxValue, pick);
            var id := PickAt(pick, dims, dim, c);
            && 0 <= Ravel(dims, c) < |edges| == Prod(dims)
            && edges[Ravel(dims, c)] == if id == maxValue then -1 else Ravel(data, c[dim := id])
  {
    EdgeOfCell(dims, dim, data[dim], Prod(data[dim + 1..]), maxValue, pick, c);
    AlignedTarget(dims, data, dim, c, PickAt(pick, dims, dim, c));
  }

  lemma AlignedSelf(dims: seq<nat>, dim: nat, size: nat)
    requires dim < |dims|
    ensures Lined(dims, dims[dim := size], dim) && Prod(dims[dim := size][dim + 1..]) == Prod(dims[dim + 1..])
  {
    Replaced(dims, dim, size);
  }

  /** The same for one index per row, with the two shapes equal off the axis: the edges of
      `IndexSelect` and, into its own shape with the axis resized, of `IndexAdd`. */
  lemma RowEdgeReplacesCoordinate(dims: seq<nat>, dim: nat, size: nat, ids: seq<int>, start: int, stride: int,
          maxValue: int, c: seq<int>)
    requires dim < |dims| && InRange(dims, c)
    ensures var edges := Edges(AxesOf(dims, dim), size, Prod(dims[dim + 1..]), maxValue, RowPicks(ids, start, stride));
            var id := At(ids, start + stride * c[dim]);
            && 0 <= Ravel(dims, c) < |edges| == Prod(dims)
            && edges[Ravel(dims, c)] == if id == maxValue then -1 else Ravel(dims[dim := size], c[dim := id])
  {
    AlignedSelf(dims, dim, size);
    EdgeReplacesCoordinate(dims, dims[dim := size], dim, maxValue, RowPicks(ids, start, stride), c);
  }

  // ---------------------------------------------------------------- when the arithmetic is right

  /** Every cell has a place in the data, and its edge goes there. */
  ghost predicate Faithful(edges: seq<int>, dims: seq<nat>, data: seq<nat>, dim: nat, ids: seq<int>)
    requires dim < |dims|
  {
    forall c :: InRange(dims, c) ==>
      var to := c[dim := At(ids, Ravel(dims, c))];
      InRange(data, to) && At(edges, Ravel(dims, c)) == Ravel(data, to)
  }

  ghost function GatherEdges(dims: seq<nat>, data: seq<nat>, dim: nat, maxValue: int, ids: seq<int>): seq<int>
    requires dim < |dims| && dim < |data|
  {
    Edges(AxesOf(dims, dim), data[dim], Prod(data[dim + 1..]), maxValue, CellPicks(ids, AxesOf(dims, dim)))
  }

  /** Indices that name a cell of the axis, none of them the sentinel. */
  ghost predicate AllNamed(ids: seq<int>, maxValue: int, size: nat) {
    forall e :: 0 <= e < |ids| ==> 0 <= ids[e] < size && ids[e] != maxValue
  }

  lemma LinedFaithful(dims: seq<nat>, data: seq<nat>, dim: nat, ids: seq<int>, maxValue: int)
    requires Lined(dims, data, dim) && |ids| == Prod(dims) && AllNamed(ids, maxValue, data[dim])
    ensures Faithful(GatherEdges(dims, data, dim, maxValue, ids), dims, data, dim, ids)
  {
    forall c | InRange(dims, c)
      ensures var to := c[dim := At(ids, Ravel(dims, c))];
              InRange(data, to) && At(GatherEdges(dims, data, dim, maxValue, ids), Ravel(dims, c)) == Ravel(data, to)
    {
      RavelBound(dims, c);
      CellPickAt(ids, dims, dim, c);
      EdgeReplacesCoordinate(dims, data, dim, maxValue, CellPicks(ids, AxesOf(dims, dim)), c);
      AlignedTarget(dims, data, dim, c, ids[Ravel(dims, c)]);
    }
  }

  lemma SidesAgree(l: int, r: int, l': int, r': int, j: int, size: int, right: int)
    requires 0 <= l <= l' && 0 <= r <= r' && 0 < size && 0 < right
    requires Pos3(l, j, r, size, right) == Pos3(l', j, r', size, right)
    ensures l == l' && r == r'
  {
    MulMono(l, l', size);
    MulMono(l * size + j, l' * size + j, right);
    if l < l' {
      MulMono(l + 1, l', size);
      Dist(l, 1, size);
      MulMono(l * size + j + 1, l' * size + j, right);
      Dist(l * size + j, 1, right);
    }
  }

  lemma FaithfulSides(dims: seq<nat>, data: seq<nat>, dim: nat, ids: seq<int>, maxValue: int, c: seq<int>)
    requires dim < |dims| == |data| && |ids| == Prod(dims) && AllNamed(ids, maxValue, data[dim])
    requires Fits(dims[..dim], data[..dim]) && Fits(dims[dim + 1..], data[dim + 1..]) && InRange(dims, c)
    requires Faithful(GatherEdges(dims, data, dim, maxValue, ids), dims, data, dim, ids)
    ensures Ravel(dims[..dim], c[..dim]) == Ravel(data[..dim], c[..dim])
    ensures Ravel(dims[dim + 1..], c[dim + 1..]) == Ravel(data[dim + 1..], c[dim + 1..])
  {
    RavelBound(dims, c);
    var id := ids[Ravel(dims, c)];
    CellPickAt(ids, dims, dim, c);
    EdgeOfCell(dims, dim, data[dim], Prod(data[dim + 1..]), maxValue, CellPicks(ids, AxesOf(dims, dim)), c);
    Replaced(c, dim, id);
    AxisPosition(data, dim, c[dim := id]);
    RavelMono(dims[..dim], data[..dim], c[..dim]);
    RavelMono(dims[dim + 1..], data[dim + 1..], c[dim + 1..]);
    RavelBound(data[dim + 1..], c[dim + 1..]);
    SidesAgree(Ravel(dims[..dim], c[..dim]), Ravel(dims[dim + 1..], c[dim + 1..]), Ravel(data[..dim], c[..dim]),
               Ravel(data[dim + 1..], c[dim + 1..]), id, data[dim], Prod(data[dim + 1..]));
  }

  lemma Joined(dims: seq<nat>, dim: nat, lo: seq<int>, j: int, hi: seq<int>)
    requires dim < |dims| && InRange(dims[..dim], lo) && 0 <= j < dims[dim] && InRange(dims[dim + 1..], hi)
    ensures var c := lo + [j] + hi;
            InRange(dims, c) && c[..dim] == lo && c[dim] == j && c[dim + 1..] == hi
  {
    var c := lo + [j] + hi;
    forall k | 0 <= k < |c| ensures 0 <= c[k] < dims[k] {
      if k < dim {
        assert c[k] == lo[k] && dims[k] == dims[..dim][k];
      } else if k > dim {
        assert c[k] == hi[k - dim - 1] && dims[k] == dims[dim + 1..][k - dim - 1];
      }
    }
  }

  lemma FaithfulLined(dims: seq<nat>, data: seq<nat>, dim: nat, ids: seq<int>, maxValue: int)
    requires dim < |dims| == |data| && Prod(dims) > 0 && |ids| == Prod(dims) && AllNamed(ids, maxValue, data[dim])
    requires Faithful(GatherEdges(dims, data, dim, maxValue, ids), dims, data, dim, ids)
    ensures Lined(dims, data, dim)
  {
    var lo, hi, lo', hi' := dims[..dim], dims[dim + 1..], data[..dim], data[dim + 1..];
    FaithfulFits(dims, data, dim, ids, GatherEdges(dims, data, dim, maxValue, ids));
    forall cl, ch | InRange(lo, cl) && InRange(hi, ch)
      ensures Ravel(lo, cl) == Ravel(lo', cl) && Ravel(hi, ch) == Ravel(hi', ch)
    {
      Joined(dims, dim, cl, 0, ch);
      FaithfulSides(dims, data, dim, ids, maxValue, cl + [0] + ch);
    }
    var zl := Coords(lo, 0);
    var zh := Coords(hi, 0);
    AlignedOnlyIf(lo, lo');
    AlignedOnlyIf(hi, hi');
  }

  lemma FaithfulFits(dims: seq<nat>, data: seq<nat>, dim: nat, ids: seq<int>, edges: seq<int>)
    requires dim < |dims| == |data| && Prod(dims) > 0 && Faithful(edges, dims, data, dim, ids)
    ensures dims[dim] > 0 && Prod(dims[..dim]) > 0 && Prod(dims[dim + 1..]) > 0
    ensures Fits(dims[..dim], data[..dim]) && Fits(dims[dim + 1..], data[dim + 1..])
  {
    var c := LastCell(dims);
    CornerFits(dims, data, dim, c, At(ids, Ravel(dims, c)));
  }

  ghost function LastCell(dims: seq<nat>): (c: seq<int>)
    requires Prod(dims) > 0
    ensures InRange(dims, c)
  {
    Positive(dims);
    seq(|dims|, k requires 0 <= k < |dims| => dims[k] - 1)
  }

  /** The last cell has a place only in a shape that is as long off the axis. */
  lemma CornerFits(dims: seq<nat>, data: seq<nat>, dim: nat, c: seq<int>, id: int)
    requires dim < |dims| == |data| && Prod(dims) > 0 && c == LastCell(dims) && InRange(data, c[dim := id])
    ensures dims[dim] > 0 && Prod(dims[..dim]) > 0 && Prod(dims[dim + 1..]) > 0
    ensures Fits(dims[..dim], data[..dim]) && Fits(dims[dim + 1..], data[dim + 1..])
  {
    Positive(dims);
    Positive(dims[..dim]);
    Positive(dims[dim + 1..]);
    var to := c[dim := id];
    assert forall k :: 0 <= k < |dims| && k != dim ==> to[k] == dims[k] - 1 && to[k] < data[k];
  }

  /** The flat arithmetic of `Gather`, which checks no shapes, replaces the coordinate on the
      axis by the index exactly when the shapes are aligned off the axis. */
  lemma GatherIff(dims: seq<nat>, data: seq<nat>, dim: nat, ids: seq<int>, maxValue: int)
    requires dim < |dims| == |data| && Prod(dims) > 0 && |ids| == Prod(dims) && AllNamed(ids, maxValue, data[dim])
    ensures Lined(dims, data, dim) <==> Faithful(GatherEdges(dims, data, dim, maxValue, ids), dims, data, dim, ids)
  {
    if Lined(dims, data, dim) {
      LinedFaithful(dims, data, dim, ids, maxValue);
    } else if Faithful(GatherEdges(dims, data, dim, maxValue, ids), dims, data, dim, ids) {
      FaithfulLined(dims, data, dim, ids, maxValue);
    }
  }

  lemma Outer<T>(x: T, s: seq<T>)
    ensures ([x] + s)[..0] == [] && ([x] + s)[0] == x && ([x] + s)[1..] == s
  {}

  /** Along the first axis: the row the index names, at the position the cell has in its own row. */
  lemma GatherOuter(n: nat, hi: seq<nat>, size: nat, data: seq<nat>, ids: seq<int>, i: nat, c: seq<int>)
    requires i < n && InRange(hi, c)
    ensures InRange([n] + hi, [i] + c)
    ensures var id := At(ids, Ravel([n] + hi, [i] + c));
            At(GatherEdges([n] + hi, [size] + data, 0, 255, ids), Ravel([n] + hi, [i] + c))
            == if id == 255 then -1 else id * Prod(data) + Ravel(hi, c)
  {
    var dims, at: seq<int> := [n] + hi, [i] + c;
    Outer(n, hi);
    Outer(i as int, c);
    Outer(size, data);
    CellPickAt(ids, dims, 0, at);
    EdgeOfCell(dims, 0, size, Prod(data), 255, CellPicks(ids, AxesOf(dims, 0)), at);
  }

  /** Indices of shape `[1, 2, 2]` over data of shape `[1, 2, 3]`: cell `(0, 1, 0)` belongs to
      position 3 and reads position 2. */
  lemma GatherReadsElsewhere(ids: seq<int>)
    requires ids == [0, 0, 0, 0]
    ensures InRange([1, 2, 2], [0, 1, 0]) && Ravel([1, 2, 3], [0, 1, 0]) == 3
    ensures At(GatherEdges([1, 2, 2], [1, 2, 3], 0, 255, ids), Ravel([1, 2, 2], [0, 1, 0])) == 2
  {
    Rank3([1, 2, 3], [0, 1, 0], [0, 0, 0]);
    GatherOuter(1, [2, 2], 1, [2, 3], ids, 0, [1, 0]) by { Rank2([2, 2], [1, 0], [1, 0]); }
    Rank2([2, 2], [1, 0], [1, 0]);
    Rank2([2, 3], [1, 0], [1, 0]);
    assert [1] + [2, 2] == [1, 2, 2] && [1] + [2, 3] == [1, 2, 3] && [0] + [1, 0] == [0, 1, 0];
  }

  // ---------------------------------------------------------------- reading along the edges

  /** What stops a cell: an index off the axis, or a target off the buffer. */
  function Stop(id: int, target: int, maxValue: int, size: nat, len: nat): Option<Error> {
    if id == maxValue then None
    else if !(0 <= id < size) then Some(InvalidIndex)
    else if target >= len then Some(OutOfBounds)
    else None
  }

  ghost function CellStops(ids: seq<int>, edges: seq<int>, maxValue: int, size: nat, len: nat): int -> Option<Error> {
    e => Stop(At(ids, e), At(edges, e), maxValue, size, len)
  }

  method GatherCell(id: int, l: nat, r: nat, size: nat, right: nat, src: seq<int>, maxValue: int)
          returns (v: Result<int>)
    ensures var target := Target(l, id, r, size, right, maxValue);
            var stop := Stop(id, target, maxValue, size, |src|);
            v == if stop.Some? then Err(stop.value) else Ok(At(src, target))
  {
    if id == maxValue {
      return Ok(0);
    }
    if !(0 <= id < size) {
      return Err(InvalidIndex);
    }
    var p := (l * size + id) * right + r;
    MulMono(0, l, size);
    MulMono(0, l * size + id, right);
    if p >= |src| {
      return Err(OutOfBounds);
    }
    v := Ok(src[p]);
  }

  /** Every cell holds what its edge points at, unless a cell stops; then its error is reported. */
  ghost predicate Follows(res: Result<seq<int>>, ids: seq<int>, src: seq<int>, edges: seq<int>, maxValue: int,
          size: nat) {
    var stop := First(CellStops(ids, edges, maxValue, size, |src|), |edges|);
    if stop.Some? then res == Err(stop.value) else res.Ok? && IsGathered(res.value, src, edges)
  }

  /** What has been filled so far, none of it stopped. */
  ghost predicate GatheredSoFar(out: seq<int>, ids: seq<int>, src: seq<int>, edges: seq<int>, maxValue: int,
          size: nat) {
    && |out| <= |edges| == |ids| && First(CellStops(ids, edges, maxValue, size, |src|), |out|).None?
    && forall e :: 0 <= e < |out| ==> out[e] == At(src, edges[e])
  }

  /** One more cell, if it does not stop. */
  method GatherNext(out: seq<int>, ids: seq<int>, l: nat, i: nat, r: nat, a: Axes, size: nat, right: nat,
          src: seq<int>, maxValue: int, ghost edges: seq<int>)
    returns (res: Result<int>)
    requires |ids| == a.Count() && IsEdges(edges, a, size, right, maxValue, CellPicks(ids, a))
    requires l < a.left && i < a.size && r < a.right && |out| == Pos3(l, i, r, a.size, a.right)
    requires GatheredSoFar(out, ids, src, edges, maxValue, size)
    ensures if res.Ok? then GatheredSoFar(out + [res.value], ids, src, edges, maxValue, size)
            else First(CellStops(ids, edges, maxValue, size, |src|), |edges|) == Some(res.error)
  {
    EdgeAt(edges, a, size, right, maxValue, CellPicks(ids, a), l, i, r);
    res := GatherCell(ids[|out|], l, r, size, right, src, maxValue);
    if res.Err? {
      FirstStays(CellStops(ids, edges, maxValue, size, |src|), |out| + 1, |edges|);
    }
  }

  /** Row `(l, i)`, up to the first cell that stops. */
  method GatherRow(dst: seq<int>, ids: seq<int>, l: nat, i: nat, a: Axes, size: nat, right: nat, src: seq<int>,
          maxValue: int, ghost edges: seq<int>)
    returns (res: Result<seq<int>>)
    requires |ids| == a.Count() && IsEdges(edges, a, size, right, maxValue, CellPicks(ids, a)) && l < a.left
             && i < a.size
    requires GatheredSoFar(dst, ids, src, edges, maxValue, size)
    requires |dst| == Pos4(0, l, i, 0, a.left, a.size, a.right)
    ensures if res.Ok? then
              && GatheredSoFar(res.value, ids, src, edges, maxValue, size)
              && |res.value| == Pos4(0, l, i + 1, 0, a.left, a.size, a.right)
            else First(CellStops(ids, edges, maxValue, size, |src|), |edges|) == Some(res.error)
  {
    var out := dst;
    for r := 0 to a.right
      invariant GatheredSoFar(out, ids, src, edges, maxValue, size)
      invariant |out| == Pos4(0, l, i, r, a.left, a.size, a.right)
    {
      var v := GatherNext(out, ids, l, i, r, a, size, right, src, maxValue, edges);
      if v.Err? {
        return Err(v.error);
      }
      out := out + [v.value];
    }
    Next4(0, l, i, a.left, a.size, a.right);
    res := Ok(out);
  }

  method GatherLoops(ids: seq<int>, a: Axes, size: nat, right: nat, src: seq<int>, maxValue: int,
          ghost edges: seq<int>)
    returns (res: Result<seq<int>>)
    requires |ids| == a.Count() && IsEdges(edges, a, size, right, maxValue, CellPicks(ids, a))
    ensures Follows(res, ids, src, edges, maxValue, size)
  {
    var dst := [];
    for l := 0 to a.left
      invariant GatheredSoFar(dst, ids, src, edges, maxValue, size)
      invariant |dst| == Pos4(0, l, 0, 0, a.left, a.size, a.right)
    {
      for i := 0 to a.size
        invariant GatheredSoFar(dst, ids, src, edges, maxValue, size)
        invariant |dst| == Pos4(0, l, i, 0, a.left, a.size, a.right)
      {
        var row := GatherRow(dst, ids, l, i, a, size, right, src, maxValue, edges);
        if row.Err? {
          return Err(row.error);
        }
        dst := row.value;
      }
      Next4(0, l, 0, a.left, a.size, a.right);
    }
    Next4(0, 0, 0, a.left, a.size, a.right);
    res := Ok(dst);
  }

  /** Between aligned shapes no target leaves the buffer: only an index can stop a cell. */
  lemma LinedStops(dims: seq<nat>, data: seq<nat>, dim: nat, ids: seq<int>, maxValue: int)
    requires Lined(dims, data, dim) && |ids| == Prod(dims)
    ensures var edges := GatherEdges(dims, data, dim, maxValue, ids);
            && |edges| == |ids|
            && First(CellStops(ids, edges, maxValue, data[dim], Prod(data)), |edges|)
               == if AllGood(ids, maxValue, data[dim]) then None else Some(InvalidIndex)
  {
    var edges := GatherEdges(dims, data, dim, maxValue, ids);
    var stops := CellStops(ids, edges, maxValue, data[dim], Prod(data));
    AxesCount(dims, dim);
    EdgesAreEdges(AxesOf(dims, dim), data[dim], Prod(data[dim + 1..]), maxValue, CellPicks(ids, AxesOf(dims, dim)));
    forall e | 0 <= e < |ids|
      ensures stops(e) == if Good(ids[e], maxValue, data[dim]) then None else Some(InvalidIndex)
    {
      LinedStop(dims, data, dim, ids, maxValue, Unravel(dims, e));
    }
    FirstNone(stops, |edges|);
    FirstOnly(stops, |edges|, {InvalidIndex});
  }

  lemma LinedStop(dims: seq<nat>, data: seq<nat>, dim: nat, ids: seq<int>, maxValue: int, c: seq<int>)
    requires Lined(dims, data, dim) && |ids| == Prod(dims) && InRange(dims, c)
    ensures var e := Ravel(dims, c);
            && 0 <= e < |ids|
            && CellStops(ids, GatherEdges(dims, data, dim, maxValue, ids), maxValue, data[dim], Prod(data))(e)
               == if Good(ids[e], maxValue, data[dim]) then None else Some(InvalidIndex)
  {
    RavelBound(dims, c);
    var id := ids[Ravel(dims, c)];
    CellPickAt(ids, dims, dim, c);
    EdgeReplacesCoordinate(dims, data, dim, maxValue, CellPicks(ids, AxesOf(dims, dim)), c);
    if 0 <= id < data[dim] {
      AlignedTarget(dims, data, dim, c, id);
      RavelBound(data, c[dim := id]);
    }
  }

  /** A tensor lies in its buffer. */
  predicate Held(data: seq<int>, l: Layout) { l.start + l.Count() <= |data| }

  function Body(data: seq<int>, l: Layout): seq<int>
    requires Held(data, l)
  {
    data[l.start..l.start + l.Count()]
  }

  /** A strided tensor, packed. */
  ghost function PackedCopy(v: seq<int>, l: Layout): seq<int>
    requires l.Valid()
  {
    seq(l.Count(), p requires 0 <= p < l.Count() => At(v, l.Offset(p)))
  }

  ghost predicate Packed1(l: Layout)
    requires |l.dims| == |l.strides|
  {
    RowMajorFrom(l.dims, l.strides, 1)
  }

  lemma ContiguousBody(src: seq<int>, l: Layout)
    requires l.Valid() && RowMajorFrom(l.dims, l.strides, 1) && l.start <= |src|
    requires forall i :: 0 <= i < l.Count() ==> 0 <= l.Offset(i) < |src|
    ensures Held(src, l) && Body(src, l) == PackedCopy(src, l)
  {
    forall i | 0 <= i < l.Count() ensures l.Offset(i) == l.start + i {
      ContiguousOffset(l, i);
    }
    if l.Count() > 0 {
      assert l.Offset(l.Count() - 1) < |src|;
    }
  }

  /** The gather of packed operands. */
  method GatherPacked(ids: seq<int>, dims: seq<nat>, dim: nat, maxValue: int, src: seq<int>, data: seq<nat>)
          returns (res: Result<seq<int>>)
    requires dim < |dims| && dim < |data| && |ids| == Prod(dims) && |src| == Prod(data)
    ensures Follows(res, ids, src, GatherEdges(dims, data, dim, maxValue, ids), maxValue, data[dim])
    ensures res.Err? ==> res.error in {InvalidIndex, OutOfBounds}
  {
    var a, size, right := AxesOf(dims, dim), data[dim], Prod(data[dim + 1..]);
    ghost var edges := GatherEdges(dims, data, dim, maxValue, ids);
    AxesCount(dims, dim);
    EdgesAreEdges(a, size, right, maxValue, CellPicks(ids, a));
    res := GatherLoops(ids, a, size, right, src, maxValue, edges);
    FirstOnly(CellStops(ids, edges, maxValue, size, |src|), |edges|, {InvalidIndex, OutOfBounds});
  }

  /** `Gather::f`. Nothing relates the two shapes: a cell follows its edge wherever it leads. */
  method Gather(ids: seq<int>, idsL: Layout, dim: nat, maxValue: int, src: seq<int>, srcL: Layout)
          returns (res: Result<seq<int>>)
    requires idsL.Valid() && srcL.Valid() && dim < |idsL.dims| && dim < |srcL.dims|
    requires Held(ids, idsL) && Held(src, srcL)
    ensures res == Err(RequiresContiguous) <==> !Packed1(idsL) || !Packed1(srcL)
    ensures res != Err(RequiresContiguous) ==>
              Follows(res, Body(ids, idsL), Body(src, srcL),
                  GatherEdges(idsL.dims, srcL.dims, dim, maxValue, Body(ids, idsL)),
                      maxValue, srcL.dims[dim])
    ensures res != Err(RequiresContiguous) && Lined(idsL.dims, srcL.dims, dim) ==>
              && (res.Ok? <==> AllGood(Body(ids, idsL), maxValue, srcL.dims[dim]))
              && (res.Err? ==> res.error == InvalidIndex)
  {
    var idsOk := IsContiguous(idsL);
    var srcOk := IsContiguous(srcL);
    if !idsOk || !srcOk {
      return Err(RequiresContiguous);
    }
    res := GatherPacked(Body(ids, idsL), idsL.dims, dim, maxValue, Body(src, srcL), srcL.dims);
    if Lined(idsL.dims, srcL.dims, dim) {
      LinedStops(idsL.dims, srcL.dims, dim, Body(ids, idsL), maxValue);
    }
  }

  // ---------------------------------------------------------------- reading whole rows

  /** Row `(l, i)` of the result: zeros, or the row of `src` the index names. */
  method SelectRow(id: int, l: nat, a: Axes, size: nat, src: seq<int>, maxValue: int) returns (row: Option<seq<int>>)
    requires l < a.left && a.left * size * a.right <= |src|
    ensures row.Some? <==> Good(id, maxValue, size)
    ensures row.Some? ==> |row.value| == a.right
    ensures row.Some? ==>
              forall r :: 0 <= r < a.right ==> row.value[r] == At(src, Target(l, id, r, size, a.right, maxValue))
  {
    if id == maxValue {
      return Some(seq(a.right, _ => 0));
    }
    if !(0 <= id < size) {
      return None;
    }
    var from := (l * size + id) * a.right;
    Bound(l, a.left, id, size);
    MulMono(0, l * size + id, a.right);
    MulMono(l * size + id + 1, a.left * size, a.right);
    Dist(l * size + id, 1, a.right);
    row := Some(src[from..from + a.right]);
  }

  /** Rows before `(l, i)` are in place. */
  ghost predicate SelectedSoFar(out: seq<int>, src: seq<int>, edges: seq<int>) {
    |out| <= |edges| && forall e :: 0 <= e < |out| ==> out[e] == At(src, edges[e])
  }

  lemma AppendRow(out: seq<int>, row: seq<int>, src: seq<int>, edges: seq<int>, a: Axes, size: int, maxValue: int,
          pick: Picks, l: int, i: int)
    requires IsEdges(edges, a, size, a.right, maxValue, pick) && 0 <= l < a.left && 0 <= i < a.size && |row| == a.right
    requires SelectedSoFar(out, src, edges) && |out| == Pos4(0, l, i, 0, a.left, a.size, a.right)
    requires forall r :: 0 <= r < a.right ==> row[r] == At(src, Target(l, pick(l, i, r), r, size, a.right, maxValue))
    ensures SelectedSoFar(out + row, src, edges) && |out + row| == Pos4(0, l, i + 1, 0, a.left, a.size, a.right)
  {
    Next4(0, l, i, a.left, a.size, a.right);
    forall r | 0 <= r < a.right ensures |out| + r < |edges| && row[r] == At(src, edges[|out| + r]) {
      EdgeAt(edges, a, size, a.right, maxValue, pick, l, i, r);
    }
    if a.right > 0 {
      assert |out| + (a.right - 1) < |edges|;
    }
  }

  /** The indices of `IndexSelect`: a vector with a stride. */
  ghost predicate RowsGood(ids: seq<int>, start: int, stride: int, n: nat, maxValue: int, size: nat) {
    forall i :: 0 <= i < n ==> Good(At(ids, start + stride * i), maxValue, size)
  }

  method SelectLoops(ids: seq<int>, start: nat, stride: int, a: Axes, size: nat, src: seq<int>, maxValue: int,
          ghost edges: seq<int>)
    returns (res: Result<seq<int>>)
    requires a.left * size * a.right <= |src|
             && IsEdges(edges, a, size, a.right, maxValue, RowPicks(ids, start, stride))
    requires forall i :: 0 <= i < a.size ==> 0 <= start + stride * i < |ids|
    ensures res.Ok? <==> a.left == 0 || RowsGood(ids, start, stride, a.size, maxValue, size)
    ensures if res.Ok? then IsGathered(res.value, src, edges) else res.error == InvalidIndex
  {
    var dst := [];
    for l := 0 to a.left
      invariant SelectedSoFar(dst, src, edges) && |dst| == Pos4(0, l, 0, 0, a.left, a.size, a.right)
      invariant l > 0 ==> RowsGood(ids, start, stride, a.size, maxValue, size)
    {
      for i := 0 to a.size
        invariant SelectedSoFar(dst, src, edges) && |dst| == Pos4(0, l, i, 0, a.left, a.size, a.right)
        invariant RowsGood(ids, start, stride, i, maxValue, size)
      {
        var index := ids[start + stride * i];
        assert index == At(ids, start + stride * i);
        var row := SelectRow(index, l, a, size, src, maxValue);
        if row.None? {
          return Err(InvalidIndex);
        }
        AppendRow(dst, row.value, src, edges, a, size, maxValue, RowPicks(ids, start, stride), l, i);
        dst := dst + row.value;
      }
      Next4(0, l, 0, a.left, a.size, a.right);
    }
    Next4(0, 0, 0, a.left, a.size, a.right);
    res := Ok(dst);
  }

  /** `IndexSelect::f`. Without anything before the axis no index is looked at. */
  method IndexSelect(ids: seq<int>, idsL: Layout, dim: nat, maxValue: int, src: seq<int>, srcL: Layout)
          returns (res: Result<seq<int>>)
    requires idsL.Valid() && srcL.Valid() && dim < |srcL.dims| && Held(src, srcL)
    requires |idsL.dims| == 1 ==>
               forall i :: 0 <= i < idsL.dims[0] ==> 0 <= idsL.start + idsL.strides[0] * i < |ids|
    ensures res == Err(RequiresContiguous) <==> !Packed1(srcL)
    ensures res == Err(ShapeMismatch) <==> Packed1(srcL) && |idsL.dims| != 1
    ensures Packed1(srcL) && |idsL.dims| == 1 ==>
              var a := AxesOf(srcL.dims[dim := idsL.dims[0]], dim);
              && (res.Ok? <==>
                  a.left == 0 || RowsGood(ids, idsL.start, idsL.strides[0], a.size, maxValue, srcL.dims[dim]))
              && (if res.Ok? then
                    IsGathered(res.value, Body(src, srcL),
                        Edges(a, srcL.dims[dim], a.right, maxValue, RowPicks(ids, idsL.start, idsL.strides[0])))
                  else res.error == InvalidIndex)
  {
    var srcOk := IsContiguous(srcL);
    if !srcOk {
      return Err(RequiresContiguous);
    }
    if |idsL.dims| != 1 {
      return Err(ShapeMismatch);
    }
    var dstDims, size := srcL.dims[dim := idsL.dims[0]], srcL.dims[dim];
    Replaced(srcL.dims, dim, idsL.dims[0]);
    var a := AxesOf(dstDims, dim);
    AxesCount(srcL.dims, dim);
    EdgesAreEdges(a, size, a.right, maxValue, RowPicks(ids, idsL.start, idsL.strides[0]));
    res := SelectLoops(ids, idsL.start, idsL.strides[0], a, size, Body(src, srcL), maxValue,
                       Edges(a, size, a.right, maxValue, RowPicks(ids, idsL.start, idsL.strides[0])));
  }
}
