/** Sizes of finite sets of positions, and places in a ring counted back from its head. */
module Counting {

  /** The positions from lo up to hi. */
  function Interval(lo: nat, hi: nat): (s: set<nat>)
    ensures forall j: nat :: j in s <==> lo <= j < hi
    ensures |s| == if lo < hi then hi - lo else 0
    decreases hi
  {
    if lo >= hi then {} else Interval(lo, hi - 1) + {hi - 1}
  }

  /** A map that keeps elements of `a` apart and lands in `b` makes `b` at least as large. */
  lemma {:induction false} InjectionSize<T>(a: set<nat>, b: set<T>, f: map<nat, T>)
    requires forall x :: x in a ==> x in f && f[x] in b
    requires forall x, y :: x in a && y in a && f[x] == f[y] ==> x == y
    ensures |a| <= |b|
  {
    if a != {} {
      var x :| x in a;
      InjectionSize(a - {x}, b - {f[x]}, f);
    }
  }

  lemma SubsetSize<T>(a: set<T>, b: set<T>)
    requires a <= b
    ensures |a| <= |b|
  {
    assert b == a + (b - a);
  }

  /** The slot written k records ago in a ring of n slots whose next slot is `next`. */
  function Back(next: nat, k: nat, n: nat): nat
    requires next < n && 0 < k <= n
  {
    if k <= next then next - k else next + n - k
  }

  /** How many records ago slot i was written. */
  function Age(next: nat, i: nat, n: nat): nat
    requires next < n && i < n
  {
    if i < next then next - i else next + n - i
  }

  lemma BackIsInjective(next: nat, k: nat, l: nat, n: nat)
    requires next < n && 0 < k <= n && 0 < l <= n && Back(next, k, n) == Back(next, l, n)
    ensures k == l
  {
  }

  lemma Advance(next: nat, n: nat)
    requires next < n
    ensures (next + 1) % n == if next + 1 == n then 0 else next + 1
  {
  }
}
