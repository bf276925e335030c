/** Values carried along edges: `edges[e]` is the cell that value `e` belongs to, or -1. */
module EdgeSums {
  import opened Sums

  /** Each cell of the index side holds what its edge points at, zero without one. */
  ghost predicate IsGathered(out: seq<int>, src: seq<int>, edges: seq<int>) {
    |out| == |edges| && forall e :: 0 <= e < |out| ==> out[e] == At(src, edges[e])
  }

  /** What edge `e` brings to target `q`. */
  ghost function Brought(edges: seq<int>, src: seq<int>, q: int): int -> int {
    e => if At(edges, e) == q then At(src, e) else 0
  }

  /** `base` with everything the edges bring. */
  ghost predicate IsAdded(out: seq<int>, base: seq<int>, edges: seq<int>, src: seq<int>) {
    |out| == |base| && forall p :: 0 <= p < |out| ==> out[p] == base[p] + Sum(|edges|, Brought(edges, src, p))
  }

  /** Reading along edges and adding along them, from zero, are adjoint. */
  lemma EdgesAdjoint(x: seq<int>, y: seq<int>, edges: seq<int>, out: seq<int>, back: seq<int>)
    requires IsGathered(out, x, edges) && |y| == |edges|
    requires |back| == |x| && forall p :: 0 <= p < |x| ==> back[p] == Sum(|edges|, Brought(edges, y, p))
    ensures Inner(out, y) == Inner(x, back)
  {
    var h := (p, e) => if At(edges, e) == p then At(x, p) * At(y, e) else 0;
    var P, Q := p => At(x, p) * At(back, p), p => Sum(|edges|, Row(h, p));
    forall p | 0 <= p < |x| ensures P(p) == Q(p) {
      SumScale(|edges|, At(x, p), Brought(edges, y, p), Row(h, p));
    }
    SumExt(|x|, P, Q);
    SumSwap(|x|, |edges|, h);
    var U, V := e => Sum(|x|, Row(Swap(h), e)), e => At(out, e) * At(y, e);
    forall e | 0 <= e < |edges| ensures U(e) == V(e) {
      SumSingle(|x|, edges[e], Row(Swap(h), e));
    }
    SumExt(|edges|, U, V);
    assert Inner(out, y) == Sum(|out|, V) && Inner(x, back) == Sum(|x|, P);
  }

  /** When every edge lands on a cell, what the cells hold is what the edges carried. */
  lemma TotalConserved(out: seq<int>, edges: seq<int>, src: seq<int>)
    requires |src| == |edges| && forall p :: 0 <= p < |out| ==> out[p] == Sum(|edges|, Brought(edges, src, p))
    requires forall e :: 0 <= e < |edges| ==> 0 <= edges[e] < |out|
    ensures Total(out) == Total(src)
  {
    var h := (p, e) => Brought(edges, src, p)(e);
    var P, Q := p => At(out, p), p => Sum(|edges|, Row(h, p));
    forall p | 0 <= p < |out| ensures P(p) == Q(p) {
      SumExt(|edges|, Brought(edges, src, p), Row(h, p));
    }
    SumExt(|out|, P, Q);
    SumSwap(|out|, |edges|, h);
    var U, V := e => Sum(|out|, Row(Swap(h), e)), e => At(src, e);
    forall e | 0 <= e < |edges| ensures U(e) == V(e) {
      SumSingle(|out|, edges[e], Row(Swap(h), e));
    }
    SumExt(|edges|, U, V);
    assert Total(out) == Sum(|out|, P) && Total(src) == Sum(|src|, V);
  }
}
