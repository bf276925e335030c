/** Loops that stop at the first turn that fails. */
module Stops {
  import opened Wrappers

  /** What the first failing turn of `n` reports. */
  ghost function First(stop: int -> Option<Error>, n: nat): Option<Error> {
    if n == 0 then None else if First(stop, n - 1).Some? then First(stop, n - 1) else stop(n - 1)
  }

  lemma {:induction false} FirstStays(stop: int -> Option<Error>, k: nat, n: nat)
    requires k <= n && First(stop, k).Some?
    ensures First(stop, n) == First(stop, k)
  {
    if k < n {
      FirstStays(stop, k, n - 1);
    }
  }

  lemma {:induction false} FirstNone(stop: int -> Option<Error>, n: nat)
    ensures First(stop, n).None? <==> forall k :: 0 <= k < n ==> stop(k).None?
  {
    if n > 0 {
      FirstNone(stop, n - 1);
    }
  }

  /** Turns that can only fail in certain ways. */
  lemma {:induction false} FirstOnly(stop: int -> Option<Error>, n: nat, errors: set<Error>)
    requires forall k :: 0 <= k < n ==> stop(k).None? || stop(k).value in errors
    ensures First(stop, n).None? || First(stop, n).value in errors
  {
    if n > 0 {
      FirstOnly(stop, n - 1, errors);
    }
  }

  lemma {:induction false} FirstSame(stop: int -> Option<Error>, stop': int -> Option<Error>, n: nat)
    requires forall k :: 0 <= k < n ==> stop(k) == stop'(k)
    ensures First(stop, n) == First(stop', n)
  {
    if n > 0 {
      FirstSame(stop, stop', n - 1);
    }
  }
}
