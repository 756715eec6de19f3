/** How often an action occurs in a stretch of a run. */
module Counting {

  /** What is left of `n` from `i` on. */
  function Beyond(i: nat, n: nat): nat { if i < n then n - i else 0 }

  ghost function Tally<A>(x: A, a: A): nat { if x == a then 1 else 0 }

  ghost function Count<A>(q: seq<A>, a: A): nat {
    if q == [] then 0 else Count(q[..|q| - 1], a) + Tally(q[|q| - 1], a)
  }

  lemma CountMore<A>(q: seq<A>, m: nat, n: nat, a: A)
    requires m <= n < |q|
    ensures Count(q[m..n + 1], a) == Count(q[m..n], a) + Tally(q[n], a)
  {
    assert q[m..n + 1][..n - m] == q[m..n];
  }

  lemma CountNone<A>(q: seq<A>, m: nat, a: A)
    requires m <= |q|
    ensures Count(q[m..m], a) == 0
  {}
}
