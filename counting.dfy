/**
 * Frequency tables: `collections.Counter` over a sequence, and the lookup
 * `counter[x]`, which is 0 for a value never seen.
 */
module Counting {

  /** `counter[x]` */
  function CountOf<T>(counts: map<T, nat>, x: T): nat
  {
    if x in counts then counts[x] else 0
  }

  /** `Counter(xs)`: each value of `xs` mapped to how often it occurs. */
  function Tally<T(!new)>(xs: seq<T>): (counts: map<T, nat>)
    ensures counts.Keys == set x | x in xs
    ensures forall x :: CountOf(counts, x) == multiset(xs)[x]
  {
    if xs == [] then map[]
    else
      var init := xs[..|xs| - 1];
      var last := xs[|xs| - 1];
      var counts := Tally(init);
      assert xs == init + [last];
      counts[last := CountOf(counts, last) + 1]
  }
}
