/** The little non-linear arithmetic that layouts need. */
module Arith {

  /** Row k of an n-row table with m columns lies within the table. */
  lemma {:induction false} RowFits(k: nat, n: nat, m: nat)
    requires k < n
    ensures k * m + m <= n * m
  {
    assert n * m == k * m + m + (n - k - 1) * m;
    Product(n - k - 1, m);
  }

  lemma {:induction false} Product(a: nat, b: nat)
    ensures 0 <= a * b
  {
  }

  /** Two cells of a table with m columns are at the same place only when they
      are the same cell. */
  lemma {:induction false} CellUnique(k: nat, a: nat, k1: nat, a1: nat, m: nat)
    requires a < m && a1 < m && k * m + a == k1 * m + a1
    ensures k == k1 && a == a1
  {
    if k < k1 {
      RowFits(k, k1, m);
      assert false;
    } else if k1 < k {
      RowFits(k1, k, m);
      assert false;
    }
  }

  function Quotient(a: nat, b: nat): nat
    requires 0 < b
  {
    a / b
  }
}
