/** Counting threads. */
module Counting {

  /** The numbers below `n`. */
  function Range(n: nat): (r: set<nat>)
    ensures forall i :: i in r <==> 0 <= i < n
  {
    if n == 0 then {} else Range(n - 1) + {n - 1}
  }

  lemma {:induction false} RangeSize(n: nat)
    ensures |Range(n)| == n
  {
    if n > 0 {
      RangeSize(n - 1);
    }
  }

  /** A set of `n` numbers below `n` is all of them. */
  lemma AllOf(s: set<nat>, n: nat)
    requires (forall i :: i in s ==> i < n) && |s| == n
    ensures forall i :: 0 <= i < n ==> i in s
  {
    RangeSize(n);
    if i: nat :| i < n && i !in s {
      assert s <= Range(n) - {i};
      SubsetIsSmaller(s, Range(n) - {i});
    }
  }

  lemma {:induction false} SubsetIsSmaller(a: set<nat>, b: set<nat>)
    requires a <= b
    ensures |a| <= |b|
    decreases a
  {
    if i :| i in a {
      SubsetIsSmaller(a - {i}, b - {i});
    }
  }

  lemma SizeOfAll(s: set<nat>, n: nat)
    requires (forall i :: i in s ==> i < n) && forall i :: 0 <= i < n ==> i in s
    ensures |s| == n
  {
    RangeSize(n);
    assert s == Range(n);
  }
}
