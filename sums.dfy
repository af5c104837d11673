/** Finite sums over a set of keys of an integer-valued function.
    Used for the per-asset totals of the balance table and for the sum of the
    commitments of the open orders. */
module Sums {

  /** The sum of f(k) for every k in ks. */
  ghost function Sum<K>(ks: set<K>, f: K -> int): int
    decreases ks
  {
    if ks == {} then 0 else
    var k :| k in ks;
    f(k) + Sum(ks - {k}, f)
  }

  /** Any element of ks can be split off first, whichever one Sum picks. */
  lemma {:induction false} SumRemove<K>(ks: set<K>, f: K -> int, k: K)
    requires k in ks
    ensures Sum(ks, f) == f(k) + Sum(ks - {k}, f)
    decreases ks
  {
    var j :| j in ks && Sum(ks, f) == f(j) + Sum(ks - {j}, f);
    if j != k {
      SumRemove(ks - {j}, f, k);
      SumRemove(ks - {k}, f, j);
      assert ks - {j} - {k} == ks - {k} - {j};
    }
  }

  /** Sums of two functions that agree on ks are equal. */
  lemma {:induction false} SumExt<K>(ks: set<K>, f: K -> int, g: K -> int)
    requires forall k :: k in ks ==> f(k) == g(k)
    ensures Sum(ks, f) == Sum(ks, g)
    decreases ks
  {
    if ks != {} {
      var k :| k in ks;
      SumRemove(ks, f, k);
      SumRemove(ks, g, k);
      SumExt(ks - {k}, f, g);
    }
  }

  /** Changing f at one key k of ks changes the sum by exactly the difference at k. */
  lemma SumUpdate<K>(ks: set<K>, f: K -> int, g: K -> int, k: K)
    requires k in ks
    requires forall j :: j in ks && j != k ==> f(j) == g(j)
    ensures Sum(ks, g) == Sum(ks, f) - f(k) + g(k)
  {
    SumRemove(ks, f, k);
    SumRemove(ks, g, k);
    SumExt(ks - {k}, f, g);
  }

  /** Adding a new key k, on which g may be anything, adds g(k) to the sum. */
  lemma SumInsert<K>(ks: set<K>, f: K -> int, g: K -> int, k: K)
    requires k !in ks
    requires forall j :: j in ks ==> f(j) == g(j)
    ensures Sum(ks + {k}, g) == Sum(ks, f) + g(k)
  {
    SumRemove(ks + {k}, g, k);
    assert ks + {k} - {k} == ks;
    SumExt(ks, f, g);
  }

  /** A sum of zeroes is zero. */
  lemma {:induction false} SumZero<K>(ks: set<K>, f: K -> int)
    requires forall k :: k in ks ==> f(k) == 0
    ensures Sum(ks, f) == 0
    decreases ks
  {
    if ks != {} {
      var k :| k in ks;
      SumRemove(ks, f, k);
      SumZero(ks - {k}, f);
    }
  }

  /** A sum of non-negative terms is at least each of its terms. */
  lemma {:induction false} SumAtLeastTerm<K>(ks: set<K>, f: K -> int, k: K)
    requires forall j :: j in ks ==> f(j) >= 0
    requires k in ks
    ensures Sum(ks, f) >= f(k)
  {
    SumRemove(ks, f, k);
    SumNonNegative(ks - {k}, f);
  }

  /** A sum of non-negative terms is non-negative. */
  lemma {:induction false} SumNonNegative<K>(ks: set<K>, f: K -> int)
    requires forall j :: j in ks ==> f(j) >= 0
    ensures Sum(ks, f) >= 0
    decreases ks
  {
    if ks != {} {
      var k :| k in ks;
      SumRemove(ks, f, k);
      SumNonNegative(ks - {k}, f);
    }
  }
}
