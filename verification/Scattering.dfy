/** `Scatter` and `IndexAdd`: writing along the edges that `Gather` and `IndexSelect` read. */
module Scattering {
  import opened Sums
  import opened Stops
  import opened Alignment
  import opened Radix
  import opened Wrappers
  import opened Layouts
  import opened Tables
  import opened AxisViews
  import opened StridedCopy
  import opened EdgeSums
  import opened Indexing

  datatype ElemUpdate = Set | Add {
    function F(dst: int, src: int): int {
      match this
      case Set => src
      case Add => dst + src
    }
  }

  // ---------------------------------------------------------------- edge by edge

  /** A buffer after the first `n` edges, each storing at `off` plus its target. */
  ghost function Applied(mode: ElemUpdate, base: seq<int>, off: int, edges: seq<int>, src: seq<int>,
          n: nat): (r: seq<int>)
    requires n <= |edges|
    ensures |r| == |base|
  {
    if n == 0 then base
    else
      var b := Applied(mode, base, off, edges, src, n - 1);
      var p := off + edges[n - 1];
      if edges[n - 1] >= 0 && 0 <= p < |b| then b[p := mode.F(b[p], At(src, n - 1))] else b
  }

  /** Adding: every cell gains the sum of what its edges bring, whatever their order. */
  lemma {:induction false} AddedSum(base: seq<int>, off: nat, edges: seq<int>, src: seq<int>, n: nat, p: int)
    requires n <= |edges| && off <= p < |base|
    ensures Applied(Add, base, off, edges, src, n)[p] == base[p] + Sum(n, Brought(edges, src, p - off))
  {
    if n > 0 {
      AddedSum(base, off, edges, src, n - 1, p);
    }
  }

  /** Setting: every cell holds what the last of its edges brings, or what it held. */
  lemma {:induction false} SetLast(base: seq<int>, off: nat, edges: seq<int>, src: seq<int>, n: nat, p: int)
          returns (last: int)
    requires n <= |edges| && off <= p < |base|
    ensures -1 <= last < n && (forall e :: last < e < n ==> edges[e] != p - off)
    ensures if last < 0 then Applied(Set, base, off, edges, src, n)[p] == base[p]
            else edges[last] == p - off && Applied(Set, base, off, edges, src, n)[p] == At(src, last)
  {
    if n == 0 {
      last := -1;
    } else if edges[n - 1] == p - off {
      last := n - 1;
    } else {
      last := SetLast(base, off, edges, src, n - 1, p);
    }
  }

  /** Cells no edge can reach keep their value. */
  lemma {:induction false} AppliedElsewhere(mode: ElemUpdate, base: seq<int>, off: nat, edges: seq<int>, src: seq<int>,
          n: nat, p: int)
    requires n <= |edges| && 0 <= p < |base| && forall e :: 0 <= e < n && edges[e] >= 0 ==> p != off + edges[e]
    ensures Applied(mode, base, off, edges, src, n)[p] == base[p]
  {
    if n > 0 {
      AppliedElsewhere(mode, base, off, edges, src, n - 1, p);
    }
  }

  // ---------------------------------------------------------------- Scatter

  /** Where each turn finds its index: the turns count what is after the axis as the
      destination does, the index side is laid out by `a`. */
  ghost function TurnFrom(a: Axes): (int, int, int, int) -> int { (_, l, i, r) => Pos3(l, i, r, a.size, a.right) }

  /** The values found at the turns. */
  ghost function Along(s: seq<int>, from: seq<int>): seq<int> {
    seq(|from|, t requires 0 <= t < |from| => At(s, from[t]))
  }

  /** A scatter of packed operands into `len` cells at `off`. */
  datatype Job = Job(mode: ElemUpdate, ids: seq<int>, src: seq<int>, a: Axes, size: nat, right: nat, maxValue: int,
                     off: nat, len: nat) {
    ghost predicate Valid() { |ids| == a.Count() }

    function Turns(): Axes { Axes(a.left, a.size, right) }

    ghost function From(): seq<int> { Table(1, a.left, a.size, right, TurnFrom(a)) }

    ghost function Targets(): seq<int> { Edges(Turns(), size, right, maxValue, CellPicks(ids, a)) }

    ghost predicate Paths(from: seq<int>, edges: seq<int>) {
      && IsTable(from, 1, a.left, a.size, right, TurnFrom(a))
      && IsEdges(edges, Turns(), size, right, maxValue, CellPicks(ids, a))
    }

    /** What stops a turn: no index to read, an index off the axis, no value to read, a target off
        the buffer. */
    ghost function Stops(from: seq<int>, edges: seq<int>): int -> Option<Error> {
      t => if At(from, t) >= |ids| then Some(OutOfBounds)
           else if Stop(At(ids, At(from, t)), At(edges, t), maxValue, size, len).Some?
           then Stop(At(ids, At(from, t)), At(edges, t), maxValue, size, len)
           else if At(ids, At(from, t)) != maxValue && At(from, t) >= |src| then Some(OutOfBounds)
           else None
    }

    ghost predicate SoFar(d: seq<int>, base: seq<int>, from: seq<int>, edges: seq<int>, n: nat) {
      && n <= |edges| == |from| && First(Stops(from, edges), n).None?
      && d == Applied(mode, base, off, edges, Along(src, from), n)
    }
  }

  lemma PathsOf(job: Job)
    ensures job.Paths(job.From(), job.Targets()) && |job.From()| == |job.Targets()| == job.Turns().Count()
  {
    TableIsTable(1, job.a.left, job.a.size, job.right, TurnFrom(job.a));
    EdgesAreEdges(job.Turns(), job.size, job.right, job.maxValue, CellPicks(job.ids, job.a));
  }

  lemma TurnAt(job: Job, from: seq<int>, edges: seq<int>, l: int, i: int, r: int)
    requires job.Paths(from, edges) && 0 <= l < job.a.left && 0 <= i < job.a.size && 0 <= r < job.right
    ensures var t, p := Pos3(l, i, r, job.a.size, job.right), Pos3(l, i, r, job.a.size, job.a.right);
            && 0 <= t < |from| == |edges| && from[t] == p >= 0
            && edges[t] == Target(l, At(job.ids, p), r, job.size, job.right, job.maxValue)
  {
    EdgeAt(edges, job.Turns(), job.size, job.right, job.maxValue, CellPicks(job.ids, job.a), l, i, r);
    assert from[Pos4(0, l, i, r, job.a.left, job.a.size, job.right)] == TurnFrom(job.a)(0, l, i, r);
    MulMono(0, l, job.a.size);
    MulMono(0, l * job.a.size + i, job.a.right);
  }

  /** One turn, if nothing stops it. */
  method ScatterCell(job: Job, l: nat, r: nat, p: nat, dst: array<int>, ghost base: seq<int>, ghost from: seq<int>,
          ghost edges: seq<int>, ghost t: nat)
    returns (res: Result<()>)
    requires job.Valid() && job.off + job.len <= dst.Length && job.SoFar(dst[..], base, from, edges, t)
    requires t < |edges| && from[t] == p
    requires edges[t] == Target(l, At(job.ids, p), r, job.size, job.right, job.maxValue)
    modifies dst
    ensures if res.Ok? then job.SoFar(dst[..], base, from, edges, t + 1)
            else job.SoFar(dst[..], base, from, edges, t) && First(job.Stops(from, edges), t + 1) == Some(res.error)
  {
    if p >= |job.ids| {
      return Err(OutOfBounds);
    }
    var id := job.ids[p];
    if id == job.maxValue {
      return Ok(());
    }
    if !(0 <= id < job.size) {
      return Err(InvalidIndex);
    }
    var to := (l * job.size + id) * job.right + r;
    MulMono(0, l, job.size);
    MulMono(0, l * job.size + id, job.right);
    if to >= job.len || p >= |job.src| {
      return Err(OutOfBounds);
    }
    dst[job.off + to] := job.mode.F(dst[job.off + to], job.src[p]);
    res := Ok(());
  }

  /** The turns of row `(l, i)`, up to the first that stops. */
  method ScatterRow(job: Job, l: nat, i: nat, dst: array<int>, ghost base: seq<int>, ghost from: seq<int>,
          ghost edges: seq<int>)
    returns (res: Result<()>, n: nat)
    requires job.Valid() && job.off + job.len <= dst.Length && job.Paths(from, edges) && l < job.a.left
             && i < job.a.size
    requires job.SoFar(dst[..], base, from, edges, Pos4(0, l, i, 0, job.a.left, job.a.size, job.right))
    modifies dst
    ensures job.SoFar(dst[..], base, from, edges, n)
    ensures if res.Ok? then n == Pos4(0, l, i + 1, 0, job.a.left, job.a.size, job.right)
            else n < |edges| && First(job.Stops(from, edges), n + 1) == Some(res.error)
  {
    res, n := Ok(()), Pos4(0, l, i, 0, job.a.left, job.a.size, job.right);
    for r := 0 to job.right
      invariant res.Ok? && n == Pos4(0, l, i, r, job.a.left, job.a.size, job.right)
      invariant job.SoFar(dst[..], base, from, edges, n)
    {
      TurnAt(job, from, edges, l, i, r);
      res := ScatterCell(job, l, r, (l * job.a.size + i) * job.a.right + r, dst, base, from, edges, n);
      if res.Err? {
        return;
      }
      n := n + 1;
    }
    Next4(0, l, i, job.a.left, job.a.size, job.right);
  }

  method ScatterLoops(job: Job, dst: array<int>, ghost base: seq<int>, ghost from: seq<int>, ghost edges: seq<int>)
    returns (res: Result<()>, n: nat)
    requires job.Valid() && job.off + job.len <= dst.Length && job.Paths(from, edges) && dst[..] == base
    modifies dst
    ensures job.SoFar(dst[..], base, from, edges, n)
    ensures if res.Ok? then n == |edges| else n < |edges| && First(job.Stops(from, edges), n + 1) == Some(res.error)
  {
    n := 0;
    for l := 0 to job.a.left
      invariant n == Pos4(0, l, 0, 0, job.a.left, job.a.size, job.right)
      invariant job.SoFar(dst[..], base, from, edges, n)
    {
      for i := 0 to job.a.size
        invariant n == Pos4(0, l, i, 0, job.a.left, job.a.size, job.right)
        invariant job.SoFar(dst[..], base, from, edges, n)
      {
        res, n := ScatterRow(job, l, i, dst, base, from, edges);
        if res.Err? {
          return;
        }
      }
      Next4(0, l, 0, job.a.left, job.a.size, job.right);
    }
    Next4(0, 0, 0, job.a.left, job.a.size, job.right);
    res := Ok(());
  }

  /** The job of a scatter from a tensor shaped `dims` into one shaped `data`. */
  function JobOf(mode: ElemUpdate, ids: seq<int>, src: seq<int>, dims: seq<nat>, data: seq<nat>, dim: nat,
          maxValue: int, off: nat): Job
    requires dim < |dims| && dim < |data|
  {
    Job(mode, ids, src, AxesOf(dims, dim), data[dim], Prod(data[dim + 1..]), maxValue, off, Prod(data))
  }

  /** The turns of `job` turned `base` into `d`, all of them or up to the first that stops. */
  ghost predicate Ran(job: Job, d: seq<int>, base: seq<int>, res: Result<()>, n: nat) {
    && job.SoFar(d, base, job.From(), job.Targets(), n)
    && (if res.Ok? then n == |job.Targets()|
        else n < |job.Targets()| && First(job.Stops(job.From(), job.Targets()), n + 1) == Some(res.error))
  }

  /** No turn stores outside the `len` cells at `off`. */
  lemma RanInside(job: Job, d: seq<int>, base: seq<int>, res: Result<()>, n: nat)
    requires job.Valid() && Ran(job, d, base, res, n)
    ensures |d| == |base| && forall p :: 0 <= p < |d| && !(job.off <= p < job.off + job.len) ==> d[p] == base[p]
  {
    var from, edges := job.From(), job.Targets();
    PathsOf(job);
    FirstNone(job.Stops(from, edges), n);
    forall p | 0 <= p < |d| && !(job.off <= p < job.off + job.len) ensures d[p] == base[p] {
      forall t | 0 <= t < n && edges[t] >= 0 ensures p != job.off + edges[t] {
        assert job.Stops(from, edges)(t).None?;
        TargetNamed(job, from, edges, t);
      }
      AppliedElsewhere(job.mode, base, job.off, edges, Along(job.src, from), n, p);
    }
  }

  lemma TargetNamed(job: Job, from: seq<int>, edges: seq<int>, t: int)
    requires job.Paths(from, edges) && 0 <= t < |edges| == |from| == job.Turns().Count() && edges[t] >= 0
    ensures At(job.ids, from[t]) != job.maxValue
  {
    var z, l, i, r := Pos4Of(t, 1, job.a.left, job.a.size, job.right);
    TurnAt(job, from, edges, l, i, r);
  }

  method ScatterPacked(job: Job, dst: array<int>) returns (res: Result<()>, n: nat)
    requires job.Valid() && job.off + job.len <= dst.Length
    modifies dst
    ensures Ran(job, dst[..], old(dst[..]), res, n) && res != Err(RequiresContiguous)
  {
    PathsOf(job);
    res, n := ScatterLoops(job, dst, dst[..], job.From(), job.Targets());
    FirstOnly(job.Stops(job.From(), job.Targets()), if res.Ok? then n else n + 1, {InvalidIndex, OutOfBounds});
  }

  /** `Scatter::f`: the turns are taken in row-major order, up to the first that stops. Nothing
      relates the shapes to each other. */
  method Scatter(mode: ElemUpdate, ids: seq<int>, idsL: Layout, dim: nat, maxValue: int, dst: array<int>, dstL: Layout,
          src: seq<int>, srcL: Layout)
    returns (res: Result<()>, n: nat)
    requires idsL.Valid() && srcL.Valid() && dstL.Valid() && dim < |idsL.dims| && dim < |dstL.dims|
    requires Held(ids, idsL) && Held(src, srcL) && Held(dst[..], dstL)
    modifies dst
    ensures res == Err(RequiresContiguous) <==> !Packed1(dstL) || !Packed1(srcL) || !Packed1(idsL)
    ensures res == Err(RequiresContiguous) ==> dst[..] == old(dst[..])
    ensures forall p :: 0 <= p < dst.Length && !(dstL.start <= p < dstL.start + dstL.Count()) ==> dst[p] == old(dst[p])
    ensures res != Err(RequiresContiguous) ==>
              Ran(JobOf(mode, Body(ids, idsL), Body(src, srcL), idsL.dims, dstL.dims, dim, maxValue, dstL.start),
                  dst[..], old(dst[..]), res, n)
  {
    n := 0;
    var dstOk := IsContiguous(dstL);
    var srcOk := IsContiguous(srcL);
    var idsOk := IsContiguous(idsL);
    if !dstOk || !srcOk || !idsOk {
      res := Err(RequiresContiguous);
      return;
    }
    AxesCount(idsL.dims, dim);
    var job := JobOf(mode, Body(ids, idsL), Body(src, srcL), idsL.dims, dstL.dims, dim, maxValue, dstL.start);
    res, n := ScatterPacked(job, dst);
    RanInside(job, dst[..], old(dst[..]), res, n);
  }

  // ---------------------------------------------------------------- when scattering is right

  /** Aligned before the axis, equal after it: the turns count as the destination does. */
  predicate ScatterLined(dims: seq<nat>, data: seq<nat>, dim: nat) {
    Lined(dims, data, dim) && dims[dim + 1..] == data[dim + 1..]
  }

  lemma TurnInPlace(a: Axes, from: seq<int>, t: int)
    requires IsTable(from, 1, a.left, a.size, a.right, TurnFrom(a)) && 0 <= t < |from|
    ensures from[t] == t
  {
    var z, l, i, r := Pos4Of(t, 1, a.left, a.size, a.right);
    assert from[Pos4(z, l, i, r, a.left, a.size, a.right)] == TurnFrom(a)(z, l, i, r);
  }

  lemma TurnsInPlace(job: Job)
    requires job.Valid() && |job.src| == |job.ids| && job.right == job.a.right
    ensures |job.From()| == |job.ids| && Along(job.src, job.From()) == job.src
    ensures forall t :: 0 <= t < |job.From()| ==> job.From()[t] == t
  {
    PathsOf(job);
    forall t | 0 <= t < |job.From()| ensures job.From()[t] == t {
      TurnInPlace(job.a, job.From(), t);
    }
  }

  /** Then a turn is a cell of the index side, it goes where `Gather` reads, and only an index
      can stop it. */
  lemma ScatterFollowsGather(job: Job, dims: seq<nat>, data: seq<nat>, dim: nat)
    requires ScatterLined(dims, data, dim) && |job.ids| == |job.src| == Prod(dims)
    requires job == JobOf(job.mode, job.ids, job.src, dims, data, dim, job.maxValue, job.off)
    ensures job.Targets() == GatherEdges(dims, data, dim, job.maxValue, job.ids)
    ensures Along(job.src, job.From()) == job.src
    ensures First(job.Stops(job.From(), job.Targets()), |job.Targets()|)
            == if AllGood(job.ids, job.maxValue, job.size) then None else Some(InvalidIndex)
  {
    AxesCount(dims, dim);
    TurnsInPlace(job);
    PathsOf(job);
    LinedStops(dims, data, dim, job.ids, job.maxValue);
    FirstSame(job.Stops(job.From(), job.Targets()), CellStops(job.ids, job.Targets(), job.maxValue, job.size, job.len),
              |job.ids|);
  }

  /** `Scatter` takes one turn for each index and sends it to the place with the coordinate on
      the axis replaced, exactly when the shapes are aligned before the axis and equal after it. */
  lemma ScatterIff(job: Job, dims: seq<nat>, data: seq<nat>, dim: nat)
    requires dim < |dims| == |data| && Prod(dims) > 0 && |job.ids| == |job.src| == Prod(dims)
    requires job == JobOf(job.mode, job.ids, job.src, dims, data, dim, job.maxValue, job.off)
    requires AllNamed(job.ids, job.maxValue, job.size)
    ensures ScatterLined(dims, data, dim)
            <==> |job.Targets()| == |job.ids| && Faithful(job.Targets(), dims, data, dim, job.ids)
  {
    AxesCount(dims, dim);
    PathsOf(job);
    if ScatterLined(dims, data, dim) {
      assert job.Turns() == job.a;
      LinedFaithful(dims, data, dim, job.ids, job.maxValue);
    } else if |job.Targets()| == |job.ids| && Faithful(job.Targets(), dims, data, dim, job.ids) {
      SameRight(job.a, job.right);
      assert job.Turns() == job.a;
      FaithfulLined(dims, data, dim, job.ids, job.maxValue);
      SameAfterAxis(dims, data, dim);
    }
  }

  lemma SameAfterAxis(dims: seq<nat>, data: seq<nat>, dim: nat)
    requires Lined(dims, data, dim) && Prod(dims) > 0 && Prod(dims[dim + 1..]) == Prod(data[dim + 1..])
    ensures dims[dim + 1..] == data[dim + 1..]
  {
    Positive(dims);
    Positive(dims[dim + 1..]);
    FitsExactly(dims[dim + 1..], data[dim + 1..]);
  }

  lemma SameRight(a: Axes, right: nat)
    requires a.Count() == Axes(a.left, a.size, right).Count() > 0
    ensures a.right == right
  {
    var n := a.left * a.size;
    if a.right <= right {
      SmallerProduct(n, a.right, n, right);
    } else {
      SmallerProduct(n, right, n, a.right);
    }
  }

  lemma LastTurn(a: Axes, right: nat)
    requires right > a.right
    ensures Pos3(a.left - 1, a.size - 1, right - 1, a.size, a.right) >= a.Count()
  {
    Dist(a.left, -1, a.size);
    Dist(a.left * a.size, -1, a.right);
  }

  /** A destination longer after the axis than the indices: some turn has no index to read. */
  lemma ScatterOverruns(job: Job)
    requires job.Valid() && job.right > job.a.right && job.a.left > 0 && job.a.size > 0
    ensures First(job.Stops(job.From(), job.Targets()), |job.Targets()|).Some?
  {
    var a := job.a;
    var l, i, r := a.left - 1, a.size - 1, job.right - 1;
    PathsOf(job);
    TurnAt(job, job.From(), job.Targets(), l, i, r);
    LastTurn(a, job.right);
    FirstNone(job.Stops(job.From(), job.Targets()), |job.Targets()|);
    assert job.Stops(job.From(), job.Targets())(Pos3(l, i, r, a.size, job.right)).Some?;
  }

  /** Two indices of shape `[1, 2]`, both good, over a destination of shape `[1, 3]`. */
  lemma ScatterFails(job: Job)
    requires job == JobOf(Add, [0, 0], [5, 7], [1, 2], [1, 3], 0, 255, 0)
    ensures First(job.Stops(job.From(), job.Targets()), |job.Targets()|).Some?
  {
    assert [1, 2][1..] == [2] && [1, 3][1..] == [3] && [1, 2][..0] == [];
    Rank1([2], [0], [0]);
    Rank1([3], [0], [0]);
    ScatterOverruns(job);
  }

  // ---------------------------------------------------------------- IndexAdd

  /** The same, by coordinates: axis first, as the loops of `IndexAdd` go. */
  ghost function BroughtBy(edges: seq<int>, src: seq<int>, a: Axes, q: int): (int, int, int) -> int {
    (i, l, r) => Brought(edges, src, q)(Pos3(l, i, r, a.size, a.right))
  }

  lemma BroughtByAt(edges: seq<int>, src: seq<int>, a: Axes, q: int, i: int, l: int, r: int)
    ensures var e := (l * a.size + i) * a.right + r;
            && BroughtBy(edges, src, a, q)(i, l, r) == Brought(edges, src, q)(e)
            && BroughtBy(edges, src, a, q)(i, l, r) == if At(edges, e) == q then At(src, e) else 0
  {
    assert Pos3(l, i, r, a.size, a.right) == (l * a.size + i) * a.right + r;
    assert BroughtBy(edges, src, a, q)(i, l, r) == Brought(edges, src, q)(Pos3(l, i, r, a.size, a.right));
  }

  /** What the turns before `(i, l, r)` bring. */
  ghost function PartSum(f: (int, int, int) -> int, a: Axes, i: nat, l: nat, r: nat): int {
    Sum3(i, a.left, a.right, f) + Sum2(l, a.right, Plane(f, i)) + Sum(r, Row(Plane(f, i), l))
  }

  lemma PartNext(f: (int, int, int) -> int, a: Axes, i: nat, l: nat, r: nat)
    ensures PartSum(f, a, i, l, r + 1) == PartSum(f, a, i, l, r) + f(i, l, r)
    ensures PartSum(f, a, i, l, a.right) == PartSum(f, a, i, l + 1, 0)
    ensures PartSum(f, a, i, a.left, 0) == PartSum(f, a, i + 1, 0, 0)
  {
    Sum2Next(l, a.right, Plane(f, i));
    Sum3Next(i, a.left, a.right, f);
  }

  ghost predicate PartAdded(d: seq<int>, base: seq<int>, edges: seq<int>, src: seq<int>, a: Axes, i: nat, l: nat,
          r: nat) {
    |d| == |base| && forall p :: 0 <= p < |d| ==> d[p] == base[p] + PartSum(BroughtBy(edges, src, a, p), a, i, l, r)
  }

  lemma PartStart(base: seq<int>, edges: seq<int>, src: seq<int>, a: Axes)
    ensures PartAdded(base, base, edges, src, a, 0, 0, 0)
  {
    forall p ensures PartSum(BroughtBy(edges, src, a, p), a, 0, 0, 0) == 0 {}
  }

  /** The end of a row, and of a sweep over what is before the axis. */
  lemma PartCarry(d: seq<int>, base: seq<int>, edges: seq<int>, src: seq<int>, a: Axes, i: nat, l: nat)
    ensures PartAdded(d, base, edges, src, a, i, l, a.right) ==> PartAdded(d, base, edges, src, a, i, l + 1, 0)
    ensures PartAdded(d, base, edges, src, a, i, a.left, 0) ==> PartAdded(d, base, edges, src, a, i + 1, 0, 0)
  {
    forall p
      ensures PartSum(BroughtBy(edges, src, a, p), a, i, l, a.right)
              == PartSum(BroughtBy(edges, src, a, p), a, i, l + 1, 0)
      ensures PartSum(BroughtBy(edges, src, a, p), a, i, a.left, 0)
              == PartSum(BroughtBy(edges, src, a, p), a, i + 1, 0, 0)
    {
      PartNext(BroughtBy(edges, src, a, p), a, i, l, 0);
    }
  }

  /** In either order of the axes the same edges have been followed. */
  lemma OrderFree(edges: seq<int>, src: seq<int>, a: Axes, p: int)
    requires |edges| == a.Count()
    ensures PartSum(BroughtBy(edges, src, a, p), a, a.size, 0, 0) == Sum(|edges|, Brought(edges, src, p))
  {
    var f, h := Brought(edges, src, p), BroughtBy(edges, src, a, p);
    var k := (l, i, r) => h(i, l, r);
    forall l, i, r | 0 <= l < a.left && 0 <= i < a.size && 0 <= r < a.right
      ensures k(l, i, r) == f((l * a.size + i) * a.right + r)
    {
      BroughtByAt(edges, src, a, p, i, l, r);
    }
    SumFlatten3(a.left, a.size, a.right, f, k);
    Sum3Swap(a.size, a.left, a.right, h, k);
  }

  /** A turn that brings `v` to one cell. */
  lemma PartStep(d: seq<int>, base: seq<int>, edges: seq<int>, src: seq<int>, a: Axes, i: nat, l: nat, r: nat, t: int,
          v: int)
    requires PartAdded(d, base, edges, src, a, i, l, r) && 0 <= t < |d|
    requires var e := Pos3(l, i, r, a.size, a.right); At(edges, e) == t && At(src, e) == v
    ensures PartAdded(d[t := d[t] + v], base, edges, src, a, i, l, r + 1)
  {
    forall p | 0 <= p < |d|
      ensures d[t := d[t] + v][p] == base[p] + PartSum(BroughtBy(edges, src, a, p), a, i, l, r + 1)
    {
      PartNext(BroughtBy(edges, src, a, p), a, i, l, r);
      BroughtByAt(edges, src, a, p, i, l, r);
    }
  }

  /** A sentinel brings nothing. */
  lemma PartSkip(d: seq<int>, base: seq<int>, edges: seq<int>, src: seq<int>, a: Axes, i: nat)
    requires PartAdded(d, base, edges, src, a, i, 0, 0)
    requires forall l, r :: 0 <= l < a.left && 0 <= r < a.right ==> At(edges, Pos3(l, i, r, a.size, a.right)) == -1
    ensures PartAdded(d, base, edges, src, a, i + 1, 0, 0)
  {
    forall p | 0 <= p < |d| ensures d[p] == base[p] + PartSum(BroughtBy(edges, src, a, p), a, i + 1, 0, 0) {
      var h := Plane(BroughtBy(edges, src, a, p), i);
      forall l, r | 0 <= l < a.left && 0 <= r < a.right ensures h(l, r) == 0 {
        BroughtByAt(edges, src, a, p, i, l, r);
        assert At(edges, Pos3(l, i, r, a.size, a.right)) == -1;
      }
      Sum2Zero(a.left, a.right, h);
      Sum3Next(i, a.left, a.right, BroughtBy(edges, src, a, p));
    }
  }

  /** One cell: `*d += s`. */
  method AddCell(l: nat, i: nat, r: nat, id: nat, a: Axes, axis: nat, size: nat, dst: array<int>, src: seq<int>,
          ghost base: seq<int>, ghost edges: seq<int>, ghost y: seq<int>)
    requires 0 <= Pos3(l, id, r, size, a.right) < dst.Length && 0 <= Pos3(l, i, r, axis, a.right) < |src|
    requires At(edges, Pos3(l, i, r, a.size, a.right)) == Pos3(l, id, r, size, a.right)
    requires At(y, Pos3(l, i, r, a.size, a.right)) == src[Pos3(l, i, r, axis, a.right)]
    requires PartAdded(dst[..], base, edges, y, a, i, l, r)
    modifies dst
    ensures PartAdded(dst[..], base, edges, y, a, i, l, r + 1)
  {
    var from, to := Pos3(l, i, r, axis, a.right), Pos3(l, id, r, size, a.right);
    PartStep(dst[..], base, edges, y, a, i, l, r, to, src[from]);
    ghost var after := dst[..][to := dst[to] + src[from]];
    dst[to] := dst[to] + src[from];
    assert dst[..] == after;
  }

  /** Where row `(l, id)` of the destination is taken to end. */
  function RowEnd(l: nat, id: nat, size: nat, right: nat): (end: nat)
    ensures end >= right && end == Pos3(l, id, right, size, right)
  {
    MulMono(0, l * size + id, right);
    (l * size + id) * right + right
  }

  /** The turns of `a` draw `y` from a source with `axis` rows. */
  ghost predicate Drawn(y: seq<int>, src: seq<int>, a: Axes, axis: nat) {
    forall l, i, r :: 0 <= l < a.left && 0 <= i < a.size && 0 <= r < a.right
      ==> At(y, Pos3(l, i, r, a.size, a.right)) == At(src, Pos3(l, i, r, axis, a.right))
  }

  /** One row, over what is after the axis, if it lies in both buffers. */
  method AddRow(l: nat, i: nat, id: nat, a: Axes, axis: nat, size: nat, dst: array<int>, src: seq<int>,
          ghost base: seq<int>, ghost edges: seq<int>, ghost y: seq<int>, ghost maxValue: int, ghost ids: seq<int>)
    returns (ok: bool)
    requires IsEdges(edges, a, size, a.right, maxValue, RowPicks(ids, 0, 1)) && l < a.left && i < a.size
    requires Drawn(y, src, a, axis) && At(ids, i) == id != maxValue
    requires PartAdded(dst[..], base, edges, y, a, i, l, 0)
    modifies dst
    ensures ok <==> RowEnd(l, id, size, a.right) <= dst.Length && RowEnd(l, i, axis, a.right) <= |src|
    ensures ok ==> PartAdded(dst[..], base, edges, y, a, i, l + 1, 0)
  {
    if RowEnd(l, i, axis, a.right) > |src| || RowEnd(l, id, size, a.right) > dst.Length {
      return false;
    }
    for r := 0 to a.right
      invariant PartAdded(dst[..], base, edges, y, a, i, l, r)
    {
      EdgeAt(edges, a, size, a.right, maxValue, RowPicks(ids, 0, 1), l, i, r);
      AddCell(l, i, r, id, a, axis, size, dst, src, base, edges, y);
    }
    PartCarry(dst[..], base, edges, y, a, i, l);
    ok := true;
  }

  lemma SentinelEdges(edges: seq<int>, a: Axes, size: int, maxValue: int, ids: seq<int>, i: int)
    requires IsEdges(edges, a, size, a.right, maxValue, RowPicks(ids, 0, 1)) && 0 <= i < a.size
             && At(ids, i) == maxValue
    ensures forall l, r :: 0 <= l < a.left && 0 <= r < a.right ==> At(edges, Pos3(l, i, r, a.size, a.right)) == -1
  {
    forall l, r | 0 <= l < a.left && 0 <= r < a.right ensures At(edges, Pos3(l, i, r, a.size, a.right)) == -1 {
      EdgeAt(edges, a, size, a.right, maxValue, RowPicks(ids, 0, 1), l, i, r);
    }
  }

  /** All rows of turn `i` and of index `id` lie in their buffers. */
  ghost predicate RowsFit(left: nat, i: nat, axis: nat, id: nat, size: nat, right: nat, len: nat, srcLen: nat) {
    forall l :: 0 <= l < left ==> RowEnd(l, id, size, right) <= len && RowEnd(l, i, axis, right) <= srcLen
  }

  /** All rows of one index, up to one that does not lie in both buffers. */
  method AddIndex(outermost: bool, i: nat, id: nat, a: Axes, axis: nat, size: nat, dst: array<int>, src: seq<int>,
          ghost base: seq<int>, ghost edges: seq<int>, ghost y: seq<int>, ghost maxValue: int, ghost ids: seq<int>)
    returns (ok: bool)
    requires IsEdges(edges, a, size, a.right, maxValue, RowPicks(ids, 0, 1)) && i < a.size
    requires Drawn(y, src, a, axis) && (outermost ==> a.left == 1) && At(ids, i) == id != maxValue
    requires PartAdded(dst[..], base, edges, y, a, i, 0, 0)
    modifies dst
    ensures ok <==> RowsFit(a.left, i, axis, id, size, a.right, dst.Length, |src|)
    ensures ok ==> PartAdded(dst[..], base, edges, y, a, i + 1, 0, 0)
  {
    if outermost {
      ok := AddRow(0, i, id, a, axis, size, dst, src, base, edges, y, maxValue, ids);
    } else {
      for l := 0 to a.left
        invariant RowsFit(l, i, axis, id, size, a.right, dst.Length, |src|)
        invariant PartAdded(dst[..], base, edges, y, a, i, l, 0)
      {
        ok := AddRow(l, i, id, a, axis, size, dst, src, base, edges, y, maxValue, ids);
        if !ok {
          return;
        }
      }
      ok := true;
    }
    PartCarry(dst[..], base, edges, y, a, i, 0);
  }

  /** What stops an index: it is off the axis, or its rows are not all there. */
  ghost function RowStops(ids: seq<int>, a: Axes, size: nat, maxValue: int, len: nat, srcLen: nat)
          : int -> Option<Error> {
    i => if i < 0 || At(ids, i) == maxValue then None
         else if !(0 <= At(ids, i) < size) then Some(InvalidIndex)
         else if RowsFit(a.left, i, a.size, At(ids, i), size, a.right, len, srcLen) then None
         else Some(OutOfBounds)
  }

  /** One index: nothing for the sentinel. */
  method AddOne(outermost: bool, i: nat, a: Axes, axis: nat, size: nat, dst: array<int>, src: seq<int>, maxValue: int,
          ids: seq<int>, ghost base: seq<int>, ghost edges: seq<int>, ghost y: seq<int>)
    returns (stop: Option<Error>)
    requires IsEdges(edges, a, size, a.right, maxValue, RowPicks(ids, 0, 1)) && i < a.size == |ids|
    requires Drawn(y, src, a, axis) && (outermost ==> a.left == 1)
    requires PartAdded(dst[..], base, edges, y, a, i, 0, 0)
    modifies dst
    ensures stop == RowStops(ids, a.(size := axis), size, maxValue, dst.Length, |src|)(i)
    ensures stop.None? ==> PartAdded(dst[..], base, edges, y, a, i + 1, 0, 0)
  {
    if ids[i] == maxValue {
      SentinelEdges(edges, a, size, maxValue, ids, i);
      PartSkip(dst[..], base, edges, y, a, i);
      return None;
    }
    if !(0 <= ids[i] < size) {
      return Some(InvalidIndex);
    }
    var ok := AddIndex(outermost, i, ids[i], a, axis, size, dst, src, base, edges, y, maxValue, ids);
    stop := if ok then None else Some(OutOfBounds);
  }

  method AddLoops(ids: seq<int>, outermost: bool, a: Axes, axis: nat, size: nat, maxValue: int, dst: array<int>,
          src: seq<int>, ghost base: seq<int>, ghost edges: seq<int>, ghost y: seq<int>)
    returns (stop: Option<Error>)
    requires IsEdges(edges, a, size, a.right, maxValue, RowPicks(ids, 0, 1)) && |ids| == a.size
    requires Drawn(y, src, a, axis) && (outermost ==> a.left == 1) && dst[..] == base
    modifies dst
    ensures stop == First(RowStops(ids, a.(size := axis), size, maxValue, dst.Length, |src|), |ids|)
    ensures stop.None? ==> PartAdded(dst[..], base, edges, y, a, a.size, 0, 0)
  {
    PartStart(base, edges, y, a);
    stop := None;
    var i := 0;
    while i < |ids| && stop.None?
      invariant 0 <= i <= |ids| && stop == First(RowStops(ids, a.(size := axis), size, maxValue, dst.Length, |src|), i)
      invariant stop.None? ==> PartAdded(dst[..], base, edges, y, a, i, 0, 0)
    {
      stop := AddOne(outermost, i, a, axis, size, dst, src, maxValue, ids, base, edges, y);
      i := i + 1;
    }
    if stop.Some? {
      FirstStays(RowStops(ids, a.(size := axis), size, maxValue, dst.Length, |src|), i, |ids|);
    }
  }

  /** The edges of `IndexAdd`: one row of turns for each index. */
  ghost function AddEdges(dims: seq<nat>, dim: nat, size: nat, maxValue: int, ids: seq<int>): seq<int>
    requires dim < |dims|
  {
    Edges(AxesOf(dims, dim).(size := |ids|), size, Prod(dims[dim + 1..]), maxValue, RowPicks(ids, 0, 1))
  }

  /** What the turns find in a source shaped `dims`. */
  ghost function AddValues(src: seq<int>, dims: seq<nat>, dim: nat, n: nat): seq<int>
    requires dim < |dims|
  {
    var a := AxesOf(dims, dim);
    Along(src, Table(1, a.left, n, a.right, TurnFrom(a)))
  }

  lemma ValuesDrawn(src: seq<int>, dims: seq<nat>, dim: nat, n: nat)
    requires dim < |dims|
    ensures Drawn(AddValues(src, dims, dim, n), src, AxesOf(dims, dim).(size := n), dims[dim])
  {
    var a := AxesOf(dims, dim);
    var from := Table(1, a.left, n, a.right, TurnFrom(a));
    TableIsTable(1, a.left, n, a.right, TurnFrom(a));
    forall l, i, r | 0 <= l < a.left && 0 <= i < n && 0 <= r < a.right
      ensures At(Along(src, from), Pos3(l, i, r, n, a.right)) == At(src, Pos3(l, i, r, a.size, a.right))
    {
      ValueDrawn(src, from, a, n, l, i, r);
    }
  }

  lemma ValueDrawn(src: seq<int>, from: seq<int>, a: Axes, n: nat, l: int, i: int, r: int)
    requires IsTable(from, 1, a.left, n, a.right, TurnFrom(a)) && 0 <= l < a.left && 0 <= i < n && 0 <= r < a.right
    ensures At(Along(src, from), Pos3(l, i, r, n, a.right)) == At(src, Pos3(l, i, r, a.size, a.right))
  {
    assert from[Pos4(0, l, i, r, a.left, n, a.right)] == TurnFrom(a)(0, l, i, r);
  }

  /** With an index for each row of the axis the turns find the source as it is. */
  lemma ValuesInPlace(src: seq<int>, dims: seq<nat>, dim: nat)
    requires dim < |dims| && |src| == Prod(dims)
    ensures AddValues(src, dims, dim, dims[dim]) == src
  {
    var a := AxesOf(dims, dim);
    var from := Table(1, a.left, a.size, a.right, TurnFrom(a));
    TableIsTable(1, a.left, a.size, a.right, TurnFrom(a));
    AxesCount(dims, dim);
    forall t | 0 <= t < |from| ensures from[t] == t {
      TurnInPlace(a, from, t);
    }
  }

  /** The add of a packed source into a packed copy. */
  method AddPacked(ids: seq<int>, dims: seq<nat>, dim: nat, maxValue: int, size: nat, dst: array<int>, src: seq<int>)
          returns (stop: Option<Error>)
    requires dim < |dims|
    modifies dst
    ensures stop == First(RowStops(ids, AxesOf(dims, dim), size, maxValue, dst.Length, |src|), |ids|)
    ensures stop.Some? ==> stop.value in {InvalidIndex, OutOfBounds}
    ensures stop.None? ==> IsAdded(dst[..], old(dst[..]), AddEdges(dims, dim, size, maxValue, ids),
                                   AddValues(src, dims, dim, |ids|))
  {
    var a, axis := AxesOf(dims, dim).(size := |ids|), dims[dim];
    ghost var edges, y := AddEdges(dims, dim, size, maxValue, ids), AddValues(src, dims, dim, |ids|);
    EdgesAreEdges(a, size, a.right, maxValue, RowPicks(ids, 0, 1));
    ValuesDrawn(src, dims, dim, |ids|);
    assert dim == 0 ==> dims[..dim] == [];
    assert a.(size := axis) == AxesOf(dims, dim);
    stop := AddLoops(ids, dim == 0, a, axis, size, maxValue, dst, src, dst[..], edges, y);
    FirstOnly(RowStops(ids, AxesOf(dims, dim), size, maxValue, dst.Length, |src|), |ids|, {InvalidIndex, OutOfBounds});
    if stop.None? {
      FinalSum(dst[..], old(dst[..]), edges, y, a);
    }
  }

  /** `IndexAdd::f`. Nothing relates the shapes of `v1` and `src`, or the number of indices. */
  method IndexAdd(ids: seq<int>, dim: nat, maxValue: int, v1: seq<int>, l1: Layout, src: seq<int>, srcL: Layout)
          returns (res: Result<seq<int>>)
    requires l1.Valid() && srcL.Valid() && dim < |srcL.dims| && dim < |l1.dims|
    requires Held(src, srcL) && Readable(v1, Offsets(l1), l1.Count())
    ensures Unsliced(|v1|, l1) ==> res == Err(OutOfBounds)
    ensures res == Err(RequiresContiguous) <==> !Unsliced(|v1|, l1) && !Packed1(srcL)
    ensures res != Err(RequiresContiguous) && !Unsliced(|v1|, l1) ==>
              var a, size := AxesOf(srcL.dims, dim), l1.dims[dim];
              var stop := First(RowStops(ids, a, size, maxValue, l1.Count(), srcL.Count()), |ids|);
              if stop.Some? then res == Err(stop.value)
              else res.Ok? && IsAdded(res.value, PackedCopy(v1, l1), AddEdges(srcL.dims, dim, size, maxValue, ids),
                                      AddValues(Body(src, srcL), srcL.dims, dim, |ids|))
  {
    var dst := new int[l1.Count()](_ => 0);
    var copied := CopyStridedSrc(v1, dst, 0, l1);
    if !copied {
      return Err(OutOfBounds);
    }
    assert dst[..] == PackedCopy(v1, l1);
    var srcOk := IsContiguous(srcL);
    if !srcOk {
      return Err(RequiresContiguous);
    }
    var stop := AddPacked(ids, srcL.dims, dim, maxValue, l1.dims[dim], dst, Body(src, srcL));
    res := if stop.Some? then Err(stop.value) else Ok(dst[..]);
  }

  // ---------------------------------------------------------------- when adding is right

  /** Then every row that an index names lies in the destination: only an index can stop. */
  lemma AddStops(dims: seq<nat>, data: seq<nat>, dim: nat, ids: seq<int>, maxValue: int)
    requires dim < |dims| == |data| && Aligned(dims[dim := data[dim]], data) && |ids| == dims[dim]
    ensures First(RowStops(ids, AxesOf(dims, dim), data[dim], maxValue, Prod(data), Prod(dims)), |ids|)
            == if AllGood(ids, maxValue, data[dim]) then None else Some(InvalidIndex)
  {
    var a, size := AxesOf(dims, dim), data[dim];
    var stops := RowStops(ids, a, size, maxValue, Prod(data), Prod(dims));
    forall i: nat, id: nat | i < |ids| && id < size
      ensures RowsFit(a.left, i, a.size, id, size, a.right, Prod(data), Prod(dims))
    {
      forall l | 0 <= l < a.left
        ensures RowEnd(l, id, size, a.right) <= Prod(data) && RowEnd(l, i, a.size, a.right) <= Prod(dims)
      {
        RowInside(dims, data, dim, l, id);
        AxesCount(dims, dim);
        RowEndBound(a, l, i);
      }
    }
    FirstNone(stops, |ids|);
    FirstOnly(stops, |ids|, {InvalidIndex});
    assert forall i :: 0 <= i < |ids| ==> (stops(i).None? <==> Good(ids[i], maxValue, size));
  }

  lemma RowEndBound(a: Axes, l: nat, i: nat)
    requires l < a.left && i < a.size
    ensures RowEnd(l, i, a.size, a.right) <= a.Count()
  {
    Bound(l, a.left, i, a.size);
    MulMono(l * a.size + i + 1, a.left * a.size, a.right);
    Dist(l * a.size + i, 1, a.right);
  }

  lemma RowInside(dims: seq<nat>, data: seq<nat>, dim: nat, l: nat, id: nat)
    requires dim < |dims| == |data| && Aligned(dims[dim := data[dim]], data)
    requires l < Prod(dims[..dim]) && id < data[dim]
    ensures RowEnd(l, id, data[dim], Prod(dims[dim + 1..])) <= Prod(data)
  {
    var a := AxesOf(dims[dim := data[dim]], dim);
    Replaced(dims, dim, data[dim]);
    AxesCount(dims[dim := data[dim]], dim);
    FitsProd(dims[dim := data[dim]], data);
    RowEndBound(a, l, id);
  }

  /** The flat target of `IndexAdd` is the place of the index among the other coordinates, for
      every cell and every index on the axis, exactly when the source, resized on the axis, is
      aligned with the destination. */
  lemma AddAnyIff(dims: seq<nat>, data: seq<nat>, dim: nat)
    requires dim < |dims| == |data| && Prod(dims[dim := data[dim]]) > 0
    ensures Aligned(dims[dim := data[dim]], data) <==>
            forall c :: InRange(dims[dim := data[dim]], c) ==>
              && InRange(data, c)
              && Pos3(Ravel(dims[..dim], c[..dim]), c[dim], Ravel(dims[dim + 1..], c[dim + 1..]), data[dim],
                      Prod(dims[dim + 1..])) == Ravel(data, c)
  {
    var resized := dims[dim := data[dim]];
    forall c | InRange(resized, c)
      ensures Pos3(Ravel(dims[..dim], c[..dim]), c[dim], Ravel(dims[dim + 1..], c[dim + 1..]), data[dim],
                   Prod(dims[dim + 1..])) == Ravel(resized, c)
    {
      assert c[dim := c[dim]] == c;
      ReplacedPosition(dims, dim, data[dim], c, c[dim]);
    }
    AlignedIff(resized, data);
  }

  /** Every cell of the source has a place in the destination, and its edge goes there. */
  ghost predicate RowsFaithful(edges: seq<int>, dims: seq<nat>, data: seq<nat>, dim: nat, ids: seq<int>)
    requires dim < |dims|
  {
    forall c :: InRange(dims, c) ==> CellFaithful(edges, dims, data, dim, ids, c)
  }

  ghost predicate CellFaithful(edges: seq<int>, dims: seq<nat>, data: seq<nat>, dim: nat, ids: seq<int>, c: seq<int>)
    requires dim < |dims| == |c|
  {
    var to := c[dim := At(ids, c[dim])];
    InRange(data, to) && At(edges, Ravel(dims, c)) == Ravel(data, to)
  }

  /** The shapes are aligned off the axis, and equal after it unless nothing but the first row of
      the destination is written. */
  ghost predicate AddLined(dims: seq<nat>, data: seq<nat>, dim: nat, ids: seq<int>) {
    && Lined(dims, data, dim)
    && (dims[dim + 1..] == data[dim + 1..] || (Prod(dims[..dim]) == 1 && forall i :: 0 <= i < |ids| ==> ids[i] == 0))
  }

  /** Both positions of a cell, seen from the axis. */
  lemma AddPositions(dims: seq<nat>, data: seq<nat>, dim: nat, ids: seq<int>, maxValue: int, c: seq<int>)
    requires dim < |dims| == |data| && |ids| == dims[dim] && AllNamed(ids, maxValue, data[dim]) && InRange(dims, c)
    ensures At(AddEdges(dims, dim, data[dim], maxValue, ids), Ravel(dims, c))
            == Pos3(Ravel(dims[..dim], c[..dim]), ids[c[dim]], Ravel(dims[dim + 1..], c[dim + 1..]), data[dim],
                    Prod(dims[dim + 1..]))
    ensures Ravel(data, c[dim := ids[c[dim]]])
            == Pos3(Ravel(data[..dim], c[..dim]), ids[c[dim]], Ravel(data[dim + 1..], c[dim + 1..]), data[dim],
                    Prod(data[dim + 1..]))
  {
    assert AxesOf(dims, dim).(size := |ids|) == AxesOf(dims, dim);
    EdgeOfCell(dims, dim, data[dim], Prod(dims[dim + 1..]), maxValue, RowPicks(ids, 0, 1), c);
    Replaced(c, dim, ids[c[dim]]);
    AxisPosition(data, dim, c[dim := ids[c[dim]]]);
  }

  lemma AddLinedFaithful(dims: seq<nat>, data: seq<nat>, dim: nat, ids: seq<int>, maxValue: int, c: seq<int>)
    requires AddLined(dims, data, dim, ids) && |ids| == dims[dim] && AllNamed(ids, maxValue, data[dim])
    requires InRange(dims, c)
    ensures CellFaithful(AddEdges(dims, dim, data[dim], maxValue, ids), dims, data, dim, ids, c)
  {
    AlignedTarget(dims, data, dim, c, ids[c[dim]]);
    AddPositions(dims, data, dim, ids, maxValue, c);
    RavelAligned(dims[..dim], data[..dim], c[..dim]);
    RavelAligned(dims[dim + 1..], data[dim + 1..], c[dim + 1..]);
    if dims[dim + 1..] != data[dim + 1..] {
      RavelBound(dims[..dim], c[..dim]);
      FirstRow(Ravel(dims[dim + 1..], c[dim + 1..]), data[dim], Prod(dims[dim + 1..]), Prod(data[dim + 1..]));
    }
  }

  lemma FirstRow(r: int, size: int, right: int, right': int)
    ensures Pos3(0, 0, r, size, right) == Pos3(0, 0, r, size, right')
  {}

  /** Positions of rows of different lengths. */
  lemma RowsAgree(l: nat, r: nat, right: nat, l': nat, r': nat, right': nat, id: nat, size: nat)
    requires l <= l' && r <= r' && right <= right' && 0 < size && 0 < right'
    requires Pos3(l, id, r, size, right) == Pos3(l', id, r', size, right')
    ensures l == l' && r == r' && (l > 0 || id > 0 ==> right == right')
  {
    MulMono(l, l', size);
    MulMono(l + 1, l', size);
    MulMono(1, l, size);
    MulMono(0, l, size);
    Dist(l, 1, size);
    SmallerProduct(l * size + id, right, l' * size + id, right');
  }

  lemma AddFaithfulSides(dims: seq<nat>, data: seq<nat>, dim: nat, ids: seq<int>, maxValue: int, c: seq<int>)
    requires dim < |dims| == |data| && |ids| == dims[dim] && AllNamed(ids, maxValue, data[dim]) && InRange(dims, c)
    requires Fits(dims[..dim], data[..dim]) && Fits(dims[dim + 1..], data[dim + 1..])
    requires CellFaithful(AddEdges(dims, dim, data[dim], maxValue, ids), dims, data, dim, ids, c)
    ensures Ravel(dims[..dim], c[..dim]) == Ravel(data[..dim], c[..dim])
    ensures Ravel(dims[dim + 1..], c[dim + 1..]) == Ravel(data[dim + 1..], c[dim + 1..])
    ensures Ravel(dims[..dim], c[..dim]) > 0 || ids[c[dim]] > 0 ==> Prod(dims[dim + 1..]) == Prod(data[dim + 1..])
  {
    AddPositions(dims, data, dim, ids, maxValue, c);
    RavelMono(dims[..dim], data[..dim], c[..dim]);
    RavelMono(dims[dim + 1..], data[dim + 1..], c[dim + 1..]);
    RavelBound(data[dim + 1..], c[dim + 1..]);
    FitsProd(dims[dim + 1..], data[dim + 1..]);
    RowsAgree(Ravel(dims[..dim], c[..dim]), Ravel(dims[dim + 1..], c[dim + 1..]), Prod(dims[dim + 1..]),
              Ravel(data[..dim], c[..dim]), Ravel(data[dim + 1..], c[dim + 1..]), Prod(data[dim + 1..]), ids[c[dim]],
              data[dim]);
  }

  lemma AddFaithfulLined(dims: seq<nat>, data: seq<nat>, dim: nat, ids: seq<int>, maxValue: int)
    requires dim < |dims| == |data| && Prod(dims) > 0 && |ids| == dims[dim] && AllNamed(ids, maxValue, data[dim])
    requires RowsFaithful(AddEdges(dims, dim, data[dim], maxValue, ids), dims, data, dim, ids)
    ensures AddLined(dims, data, dim, ids)
  {
    var lo, hi, lo', hi' := dims[..dim], dims[dim + 1..], data[..dim], data[dim + 1..];
    assert CellFaithful(AddEdges(dims, dim, data[dim], maxValue, ids), dims, data, dim, ids, LastCell(dims));
    CornerFits(dims, data, dim, LastCell(dims), At(ids, LastCell(dims)[dim]));
    forall cl, i, ch | InRange(lo, cl) && 0 <= i < |ids| && InRange(hi, ch)
      ensures Ravel(lo, cl) == Ravel(lo', cl) && Ravel(hi, ch) == Ravel(hi', ch)
      ensures Ravel(lo, cl) > 0 || ids[i] > 0 ==> Prod(hi) == Prod(hi')
    {
      Joined(dims, dim, cl, i, ch);
      AddFaithfulSides(dims, data, dim, ids, maxValue, cl + [i] + ch);
    }
    var zl := Coords(lo, 0);
    var zh := Coords(hi, 0);
    assert 0 <= 0 < |ids|;
    AlignedOnlyIf(lo, lo');
    AlignedOnlyIf(hi, hi');
    if Prod(hi) == Prod(hi') {
      FitsExactly(hi, hi');
    } else if Prod(lo) > 1 {
      var ul := Coords(lo, 1);
    }
  }

  /** For given indices that all name a row, each cell of the source goes to its place in the
      destination exactly when the shapes are lined up so. */
  lemma AddIff(dims: seq<nat>, data: seq<nat>, dim: nat, ids: seq<int>, maxValue: int)
    requires dim < |dims| == |data| && Prod(dims) > 0 && |ids| == dims[dim] && AllNamed(ids, maxValue, data[dim])
    ensures AddLined(dims, data, dim, ids)
            <==> RowsFaithful(AddEdges(dims, dim, data[dim], maxValue, ids), dims, data, dim, ids)
  {
    if AddLined(dims, data, dim, ids) {
      forall c | InRange(dims, c)
        ensures CellFaithful(AddEdges(dims, dim, data[dim], maxValue, ids), dims, data, dim, ids, c)
      {
        AddLinedFaithful(dims, data, dim, ids, maxValue, c);
      }
    } else if RowsFaithful(AddEdges(dims, dim, data[dim], maxValue, ids), dims, data, dim, ids) {
      AddFaithfulLined(dims, data, dim, ids, maxValue);
    }
  }

  /** Then the edges replace the coordinate on the axis by the index. */
  lemma AddEdgeReplacesCoordinate(dims: seq<nat>, data: seq<nat>, dim: nat, ids: seq<int>, maxValue: int, c: seq<int>)
    requires dim < |dims| == |data| && Aligned(dims[dim := data[dim]], data) && InRange(dims, c)
    requires |ids| == dims[dim] && 0 <= At(ids, c[dim]) < data[dim] && At(ids, c[dim]) != maxValue
    ensures var to := c[dim := At(ids, c[dim])];
            InRange(data, to) && At(AddEdges(dims, dim, data[dim], maxValue, ids), Ravel(dims, c)) == Ravel(data, to)
  {
    RowEdgeReplacesCoordinate(dims, dim, data[dim], ids, 0, 1, maxValue, c);
    RavelAligned(dims[dim := data[dim]], data, c[dim := At(ids, c[dim])]);
  }

  /** A source of shape `[1, 2]` added into `[2, 3]` at index one: its first cell belongs to
      position 3 and goes to position 2. */
  lemma AddWritesElsewhere()
    ensures InRange([1, 2], [0, 0]) && Ravel([2, 3], [1, 0]) == 3
    ensures At(AddEdges([1, 2], 0, 2, 255, [1]), Ravel([1, 2], [0, 0])) == 2
  {
    Rank2([2, 3], [1, 0], [0, 0]);
    Rank2([2, 2], [1, 0], [0, 0]);
    RowEdgeReplacesCoordinate([1, 2], 0, 2, [1], 0, 1, 255, [0, 0]);
    assert [1, 2][0 := 2] == [2, 2] && [0, 0][0 := 1] == [1, 0];
  }

  lemma FinalSum(d: seq<int>, base: seq<int>, edges: seq<int>, src: seq<int>, a: Axes)
    requires |edges| == a.Count() && PartAdded(d, base, edges, src, a, a.size, 0, 0)
    ensures IsAdded(d, base, edges, src)
  {
    forall p | 0 <= p < |d| ensures d[p] == base[p] + Sum(|edges|, Brought(edges, src, p)) {
      OrderFree(edges, src, a, p);
    }
  }

  // ---------------------------------------------------------------- adjoint

  /** `<gather(x), y> == <x, scatter_add(0, y)>`, sentinels and repeated indices included. */
  lemma ScatterIsAdjointOfGather(x: seq<int>, y: seq<int>, zero: seq<int>, edges: seq<int>, out: seq<int>)
    requires IsGathered(out, x, edges) && |y| == |edges|
    requires |zero| == |x| && forall p :: 0 <= p < |zero| ==> zero[p] == 0
    ensures Inner(out, y) == Inner(x, Applied(Add, zero, 0, edges, y, |edges|))
  {
    var back := Applied(Add, zero, 0, edges, y, |edges|);
    forall p | 0 <= p < |x| ensures back[p] == Sum(|edges|, Brought(edges, y, p)) {
      AddedSum(zero, 0, edges, y, |edges|, p);
    }
    EdgesAdjoint(x, y, edges, out, back);
  }

  lemma SameRows(a: Axes, size: nat, maxValue: int, ids: seq<int>, start: int, stride: int, slice: seq<int>)
    requires forall i :: 0 <= i < a.size ==> At(slice, i) == At(ids, start + stride * i)
    ensures Edges(a, size, a.right, maxValue, RowPicks(ids, start, stride))
            == Edges(a, size, a.right, maxValue, RowPicks(slice, 0, 1))
  {
    var p, q := RowPicks(ids, start, stride), RowPicks(slice, 0, 1);
    EdgesAreEdges(a, size, a.right, maxValue, p);
    EdgesAreEdges(a, size, a.right, maxValue, q);
    forall z, l, i, r | 0 <= z < 1 && 0 <= l < a.left && 0 <= i < a.size && 0 <= r < a.right
      ensures EdgeFrom(p, size, a.right, maxValue)(z, l, i, r) == EdgeFrom(q, size, a.right, maxValue)(z, l, i, r)
    {
      assert p(l, i, r) == At(ids, start + stride * i) == At(slice, i) == q(l, i, r);
    }
    TableUnique(Edges(a, size, a.right, maxValue, p), Edges(a, size, a.right, maxValue, q), 1, a.left, a.size, a.right,
                EdgeFrom(p, size, a.right, maxValue), EdgeFrom(q, size, a.right, maxValue));
  }

  /** `<index_select(x), y> == <x, index_add(0, y)>`: the one reads its indices through a
      layout, the other from a slice that holds the same indices. */
  lemma IndexAddIsAdjointOfSelect(x: seq<int>, y: seq<int>, zero: seq<int>, a: Axes, size: nat, maxValue: int,
          ids: seq<int>, start: int, stride: int, slice: seq<int>, out: seq<int>, back: seq<int>)
    requires forall i :: 0 <= i < a.size ==> At(slice, i) == At(ids, start + stride * i)
    requires |zero| == |x| && forall p :: 0 <= p < |zero| ==> zero[p] == 0
    requires IsGathered(out, x, Edges(a, size, a.right, maxValue, RowPicks(ids, start, stride))) && |y| == |out|
    requires IsAdded(back, zero, Edges(a, size, a.right, maxValue, RowPicks(slice, 0, 1)), y)
    ensures Inner(out, y) == Inner(x, back)
  {
    SameRows(a, size, maxValue, ids, start, stride, slice);
    EdgesAdjoint(x, y, Edges(a, size, a.right, maxValue, RowPicks(ids, start, stride)), out, back);
  }
}
