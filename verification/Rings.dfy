/** Places around a ring of n blocks, as the two block caches go around theirs. */
module Rings {

  /** Index i, less than twice around, as a place in the ring. */
  function Wrap(i: nat, n: nat): nat { if i >= n then i - n else i }

  /** The step from the j-th place behind `at` goes to the next one, and after the
      last one back to `at`, which is met only then. */
  lemma {:induction false} NextPlace(at: nat, j: nat, n: nat)
    requires at < n && j < n
    ensures Wrap(at + j, n) < n
    ensures Wrap(Wrap(at + j, n) + 1, n) == if j + 1 == n then at else Wrap(at + j + 1, n)
    ensures j + 1 < n ==> Wrap(at + j + 1, n) < n && Wrap(at + j + 1, n) != at
  {
  }

  /** Which place behind `at` index i is. */
  function Behind(at: nat, i: nat, n: nat): (j: nat)
    requires at < n && i < n
    ensures j < n && Wrap(at + j, n) == i
  {
    if i >= at then i - at else i + n - at
  }
}
