/** Parallel loops as runs of a nondeterministic scheduler. */
module Schedule {

  /** The numbers `0..n` a parallel loop hands out. */
  function Range(n: nat): (s: set<int>)
    ensures forall q :: q in s <==> 0 <= q < n
  {
    if n == 0 then {} else Range(n - 1) + {n - 1}
  }

  /** One store of a task: a raw write into shared memory. */
  datatype Write = Write(index: int, value: int)

  /** The stores of every task land inside the buffer and carry the value it must hold. */
  ghost predicate Faithful(tasks: seq<seq<Write>>, spec: seq<int>) {
    forall t, j :: 0 <= t < |tasks| && 0 <= j < |tasks[t]|
      ==> 0 <= tasks[t][j].index < |spec| && tasks[t][j].value == spec[tasks[t][j].index]
  }

  /** Together all tasks reach every cell. */
  ghost predicate Covers(tasks: seq<seq<Write>>, n: int) {
    forall p :: 0 <= p < n ==> Reached(tasks, p)
  }

  ghost predicate Reached(tasks: seq<seq<Write>>, p: int) {
    exists t, j :: 0 <= t < |tasks| && 0 <= j < |tasks[t]| && tasks[t][j].index == p
  }

  /** No two tasks ever store to the same cell: the absence of data races. */
  ghost predicate Disjoint(tasks: seq<seq<Write>>) {
    forall t, j, t', j' ::
      0 <= t < |tasks| && 0 <= j < |tasks[t]| && 0 <= t' < |tasks| && 0 <= j' < |tasks[t']| && t != t'
      ==> tasks[t][j].index != tasks[t'][j'].index
  }

  /** How many stores are still to be made. */
  ghost function Pending(tasks: seq<seq<Write>>, pc: seq<nat>): int
    requires |pc| == |tasks|
  {
    if |tasks| == 0 then 0 else |tasks[0]| - pc[0] + Pending(tasks[1..], pc[1..])
  }

  lemma {:induction false} PendingStep(tasks: seq<seq<Write>>, pc: seq<nat>, t: nat)
    requires |pc| == |tasks| && t < |tasks|
    ensures Pending(tasks, pc[t := pc[t] + 1]) == Pending(tasks, pc) - 1
  {
    if t > 0 {
      PendingStep(tasks[1..], pc[1..], t - 1);
      assert pc[t := pc[t] + 1][1..] == pc[1..][t - 1 := pc[1..][t - 1] + 1];
    } else {
      assert pc[t := pc[t] + 1][1..] == pc[1..];
    }
  }

  lemma {:induction false} PendingNonNegative(tasks: seq<seq<Write>>, pc: seq<nat>)
    requires |pc| == |tasks| && forall t :: 0 <= t < |tasks| ==> pc[t] <= |tasks[t]|
    ensures Pending(tasks, pc) >= 0
  {
    if |tasks| > 0 {
      forall t | 0 <= t < |tasks[1..]| ensures pc[1..][t] <= |tasks[1..][t]| {
        assert pc[t + 1] <= |tasks[t + 1]|;
      }
      PendingNonNegative(tasks[1..], pc[1..]);
    }
  }

  function Unfinished(tasks: seq<seq<Write>>, pc: seq<nat>): set<int>
    requires |pc| == |tasks|
  {
    set t | t in Range(|tasks|) && pc[t] < |tasks[t]|
  }

  /** Each task stands somewhere, and the stores it has made show. */
  ghost predicate StoredSoFar(d: seq<int>, tasks: seq<seq<Write>>, pc: seq<nat>) {
    && |pc| == |tasks| && (forall t :: 0 <= t < |tasks| ==> pc[t] <= |tasks[t]|)
    && forall t, j :: 0 <= t < |tasks| && 0 <= j < pc[t]
         ==> 0 <= tasks[t][j].index < |d| && d[tasks[t][j].index] == tasks[t][j].value
  }

  lemma StoreStep(d: seq<int>, tasks: seq<seq<Write>>, pc: seq<nat>, t: nat, spec: seq<int>)
    requires |d| == |spec| && Faithful(tasks, spec) && StoredSoFar(d, tasks, pc) && t < |tasks| && pc[t] < |tasks[t]|
    ensures var store := tasks[t][pc[t]];
            && 0 <= store.index < |d|
            && StoredSoFar(d[store.index := store.value], tasks, pc[t := pc[t] + 1])
  {}

  lemma AllStored(d: seq<int>, tasks: seq<seq<Write>>, pc: seq<nat>, spec: seq<int>)
    requires |d| == |spec| && Faithful(tasks, spec) && Covers(tasks, |spec|) && StoredSoFar(d, tasks, pc)
    requires Unfinished(tasks, pc) == {}
    ensures d == spec
  {
    forall p | 0 <= p < |spec| ensures d[p] == spec[p] {
      assert Reached(tasks, p);
      var t, j :| 0 <= t < |tasks| && 0 <= j < |tasks[t]| && tasks[t][j].index == p;
      assert t !in Unfinished(tasks, pc);
    }
  }

  /** Runs all tasks store by store; at every step the scheduler picks any one that is not
      finished. They never race, and whatever is picked, the buffer ends up as specified. */
  method RunInterleaved(tasks: seq<seq<Write>>, dst: array<int>, ghost spec: seq<int>)
    requires dst.Length == |spec| && Disjoint(tasks) && Faithful(tasks, spec) && Covers(tasks, |spec|)
    modifies dst
    ensures dst[..] == spec
  {
    var pc: seq<nat> := seq(|tasks|, _ => 0);
    var live := Unfinished(tasks, pc);
    PendingNonNegative(tasks, pc);
    while live != {}
      invariant StoredSoFar(dst[..], tasks, pc) && live == Unfinished(tasks, pc) && Pending(tasks, pc) >= 0
      decreases Pending(tasks, pc)
    {
      var t :| t in live;
      var store := tasks[t][pc[t]];
      StoreStep(dst[..], tasks, pc, t, spec);
      ghost var after := dst[..][store.index := store.value];
      dst[store.index] := store.value;
      assert dst[..] == after;
      PendingStep(tasks, pc, t);
      pc := pc[t := pc[t] + 1];
      live := Unfinished(tasks, pc);
      PendingNonNegative(tasks, pc);
    }
    AllStored(dst[..], tasks, pc, spec);
  }
}
