/** The WalletBalance table, keyed by (address, assetCode), and the two
    statements the handlers run on it: the insert that creates a zero row when
    none exists, and the relative patch of one row. */
module BalanceRows {
  import opened Model
  import opened Sums

  /** A row, or zeroes for a row that does not exist (the `|| '0'` reads). */
  function Row(m: Balances, k: Key): Balance
  {
    if k in m then m[k] else Balance(0, 0)
  }

  /** m2 is m with at most some new zero rows: no existing row changed. */
  predicate OnlyZeroRowsAdded(m: Balances, m2: Balances)
  {
    && m.Keys <= m2.Keys
    && (forall k :: k in m ==> m2[k] == m[k])
    && (forall k :: k in m2 && k !in m ==> m2[k] == Balance(0, 0))
  }

  /** `insert ... onConflict().ignore()`: a zero row when k has none, otherwise nothing. */
  function Ensure(m: Balances, k: Key): Balances
  {
    if k in m then m else m[k := Balance(0, 0)]
  }

  /** After the insert, row k exists and reads as it did before; nothing else changed. */
  lemma EnsureRow(m: Balances, k: Key)
    ensures Ensure(m, k).Keys == m.Keys + {k}
    ensures Ensure(m, k)[k] == Row(m, k)
    ensures OnlyZeroRowsAdded(m, Ensure(m, k))
  {
  }

  /** `patch(available + dAvailable, locked + dLocked).where(k)`: changes row k
      only, and nothing at all when row k does not exist. */
  function Patch(m: Balances, k: Key, dAvailable: int, dLocked: int): Balances
  {
    if k in m then m[k := Balance(m[k].available + dAvailable, m[k].locked + dLocked)] else m
  }

  /** The patch moves row k by the two deltas and leaves every other row, and the
      set of rows, as they were. */
  lemma PatchRow(m: Balances, k: Key, dAvailable: int, dLocked: int)
    ensures Patch(m, k, dAvailable, dLocked).Keys == m.Keys
    ensures forall j :: j in m && j != k ==> Patch(m, k, dAvailable, dLocked)[j] == m[j]
    ensures k in m ==> Patch(m, k, dAvailable, dLocked)[k] == Balance(m[k].available + dAvailable, m[k].locked + dLocked)
  {
  }

  /** The amount of asset a held in row k, available and locked together. */
  function Holding(m: Balances, a: AssetCode): Key -> int
  {
    k => if k in m && k.asset == a then m[k].available + m[k].locked else 0
  }

  /** All of asset a held by every address. */
  ghost function Total(m: Balances, a: AssetCode): int
  {
    Sum(m.Keys, Holding(m, a))
  }

  /** No available or locked amount is negative. */
  predicate NonNegative(m: Balances)
  {
    forall k :: k in m ==> m[k].available >= 0 && m[k].locked >= 0
  }

  /** Creating a zero row changes no total. */
  lemma EnsureKeepsTotal(m: Balances, k: Key, a: AssetCode)
    ensures Total(Ensure(m, k), a) == Total(m, a)
  {
    if k !in m {
      EnsureRow(m, k);
      SumInsert(m.Keys, Holding(m, a), Holding(Ensure(m, k), a), k);
    }
  }

  /** A patch of row k changes the total of k's asset by the two deltas, and no
      other total. */
  lemma PatchTotal(m: Balances, k: Key, dAvailable: int, dLocked: int, a: AssetCode)
    ensures Total(Patch(m, k, dAvailable, dLocked), a) ==
      Total(m, a) + (if k in m && k.asset == a then dAvailable + dLocked else 0)
  {
    var r := Patch(m, k, dAvailable, dLocked);
    if k in m {
      PatchRow(m, k, dAvailable, dLocked);
      SumUpdate(m.Keys, Holding(m, a), Holding(r, a), k);
    } else {
      assert r == m;
    }
  }

  /** Two patches of existing rows change the totals by their deltas. */
  lemma PatchTwiceTotal(m: Balances, k1: Key, a1: int, l1: int, k2: Key, a2: int, l2: int, a: AssetCode)
    requires k1 in m && k2 in m
    ensures Total(Patch(Patch(m, k1, a1, l1), k2, a2, l2), a) ==
      Total(m, a) + (if k1.asset == a then a1 + l1 else 0) + (if k2.asset == a then a2 + l2 else 0)
  {
    PatchTotal(m, k1, a1, l1, a);
    PatchTotal(Patch(m, k1, a1, l1), k2, a2, l2, a);
  }

  /** Adding zero rows twice adds zero rows. */
  lemma OnlyZeroRowsAddedTrans(m1: Balances, m2: Balances, m3: Balances)
    requires OnlyZeroRowsAdded(m1, m2) && OnlyZeroRowsAdded(m2, m3)
    ensures OnlyZeroRowsAdded(m1, m3)
  {
  }
}
