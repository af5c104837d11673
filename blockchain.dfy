/** The hash-chained ledger of services/blockchain.js: how a block's hash is
    computed, how a block is appended to the tip, and how the whole chain is
    re-verified. */
module Blockchain {
  import opened Model

  /** The prevHash of the first block, and the tip hash of an empty chain. */
  const GENESIS := "GENESIS"

  /** `x || null`: a missing or empty string is serialised as null. */
  function OrNull(s: Option<string>): (r: Option<string>)
    ensures r == None <==> (s == None || s == Some(""))
    ensures r != None ==> r == s
  {
    if s == Some("") then None else s
  }

  /** The nine hashed fields of a block, with the given prevHash in last place.
      The index, the stored prevHash, the hash itself, the signature and the
      public key take no part. */
  function CanonicalOf(b: Block, prevHash: string): Canonical
  {
    Canonical(b.timestamp, b.dataType, OrNull(b.from), OrNull(b.to), b.asset,
              b.amount, OrNull(b.orderId), b.nonce, prevHash)
  }

  /** computeHash: the hash of a block's content chained to prevHash. */
  function ComputeHash(h: HashFn, b: Block, prevHash: string): string
  {
    h(CanonicalOf(b, prevHash))
  }

  /** Two blocks carry the same hashed content. */
  predicate SameContent(a: Block, b: Block)
  {
    && a.timestamp == b.timestamp && a.dataType == b.dataType
    && OrNull(a.from) == OrNull(b.from) && OrNull(a.to) == OrNull(b.to)
    && a.asset == b.asset && a.amount == b.amount
    && OrNull(a.orderId) == OrNull(b.orderId) && a.nonce == b.nonce
  }

  /** SHA-256 idealised: no collisions, and a hex digest is never the word GENESIS. */
  ghost predicate IdealHash(h: HashFn)
  {
    && (forall c1: Canonical, c2: Canonical :: h(c1) == h(c2) ==> c1 == c2)
    && (forall c: Canonical :: h(c) != GENESIS)
  }

  /** The hash depends on the nine fields only: blocks with the same content
      chained to the same prevHash hash alike, and under an ideal hash only they do. */
  lemma HashDependsOnContentOnly(h: HashFn, a: Block, b: Block, p: string, q: string)
    ensures SameContent(a, b) && p == q ==> ComputeHash(h, a, p) == ComputeHash(h, b, q)
    ensures IdealHash(h) && ComputeHash(h, a, p) == ComputeHash(h, b, q) ==> SameContent(a, b) && p == q
  {
    if IdealHash(h) && ComputeHash(h, a, p) == ComputeHash(h, b, q) {
      assert CanonicalOf(a, p) == CanonicalOf(b, q);
    }
  }

  /** An empty from, to or orderId hashes exactly like a missing one. */
  lemma EmptyHashesAsNull(h: HashFn, b: Block, p: string)
    ensures ComputeHash(h, b.(from := Some("")), p) == ComputeHash(h, b.(from := None), p)
    ensures ComputeHash(h, b.(to := Some("")), p) == ComputeHash(h, b.(to := None), p)
    ensures ComputeHash(h, b.(orderId := Some("")), p) == ComputeHash(h, b.(orderId := None), p)
  {
  }

  /** The hash of the current tip, or GENESIS for an empty chain. */
  function TipHash(chain: seq<Block>): string
  {
    if chain == [] then GENESIS else chain[|chain| - 1].hash
  }

  /** The blockIndex the store assigns next (SQLite rowid: last plus one, from 1). */
  function NextIndex(chain: seq<Block>): int
  {
    if chain == [] then 1 else chain[|chain| - 1].index + 1
  }

  /** The hash block i must be chained to: its predecessor's, or GENESIS. */
  function ExpectedPrev(chain: seq<Block>, i: nat): string
    requires i < |chain|
  {
    if i == 0 then GENESIS else chain[i - 1].hash
  }

  /** Block i sits at blockIndex i + 1. */
  predicate Indexed(chain: seq<Block>)
  {
    forall i :: 0 <= i < |chain| ==> chain[i].index == i + 1
  }

  /** Every stored prevHash is the predecessor's hash (GENESIS for the first). */
  predicate Linked(chain: seq<Block>)
  {
    forall i :: 0 <= i < |chain| ==> chain[i].prevHash == ExpectedPrev(chain, i)
  }

  /** Block i's hash is recomputed correctly from its content and the running hash. */
  predicate HashOk(h: HashFn, chain: seq<Block>, i: nat)
    requires i < |chain|
  {
    chain[i].hash == ComputeHash(h, chain[i], ExpectedPrev(chain, i))
  }

  /** What verifyChain accepts: every block's hash recomputes from its content
      and the hash of the block before it. */
  predicate Verifies(h: HashFn, chain: seq<Block>)
  {
    forall i :: 0 <= i < |chain| ==> HashOk(h, chain, i)
  }

  /** The ledger invariant every write keeps. */
  predicate ChainOk(h: HashFn, chain: seq<Block>)
  {
    Indexed(chain) && Linked(chain) && Verifies(h, chain)
  }

  /** What a caller of appendBlock supplies; appendBlock fills in the rest. */
  datatype Payload = Payload(
    dataType: string,
    from: Option<Address>,
    to: Option<Address>,
    asset: AssetCode,
    amount: string,
    orderId: Option<OrderId>,
    nonce: Option<int>,
    signature: Option<string>,
    publicKey: Option<string>)

  /** A payload as the handlers build it: no nonce, no signature. */
  function Entry(dataType: string, from: Option<Address>, to: Option<Address>,
                 asset: AssetCode, amount: string, orderId: Option<OrderId>): Payload
  {
    Payload(dataType, from, to, asset, amount, orderId, None, None, None)
  }

  /** The block appendBlock stores for payload p on top of chain: inserted with an
      empty hash, then patched with the hash of its own fields chained to the tip. */
  function NewBlock(h: HashFn, chain: seq<Block>, p: Payload, now: string): (b: Block)
    ensures b.index == NextIndex(chain)
    ensures b.prevHash == TipHash(chain)
    ensures b.hash == ComputeHash(h, b, TipHash(chain))
    ensures b.nonce == p.nonce.GetOr(0)
    ensures b.timestamp == now
    ensures b.dataType == p.dataType && b.from == p.from && b.to == p.to
    ensures b.asset == p.asset && b.amount == p.amount && b.orderId == p.orderId
  {
    var inserted := Block(NextIndex(chain), now, p.dataType, p.from, p.to, p.asset, p.amount,
                          p.orderId, p.nonce.GetOr(0), TipHash(chain), "", p.signature, p.publicKey);
    inserted.(hash := ComputeHash(h, inserted, TipHash(chain)))
  }

  /** appendBlock as written: the hash is computed from the object the insert
      returns, whose timestamp is the value handed to the insert (the SQL
      expression `datetime('now')`), while the row stores the time that
      expression yields. `hashed` is the timestamp as computeHash serialises
      that returned value; the stored row keeps `now`. */
  function NewBlockAsWritten(h: HashFn, chain: seq<Block>, p: Payload, now: string, hashed: string): (b: Block)
    ensures b.(hash := "") == NewBlock(h, chain, p, now).(hash := "")
    ensures b.hash == ComputeHash(h, b.(timestamp := hashed), TipHash(chain))
    ensures hashed == now ==> b == NewBlock(h, chain, p, now)
  {
    var stored := Block(NextIndex(chain), now, p.dataType, p.from, p.to, p.asset, p.amount,
                        p.orderId, p.nonce.GetOr(0), TipHash(chain), "", p.signature, p.publicKey);
    stored.(hash := ComputeHash(h, stored.(timestamp := hashed), TipHash(chain)))
  }

  /** As written, once the hashed timestamp differs from the stored one, the
      first block appendBlock adds to a valid chain is exactly where verifyChain
      stops with a hash mismatch. */
  lemma AsWrittenAppendBreaksChain(h: HashFn, chain: seq<Block>, p: Payload, now: string, hashed: string)
    requires IdealHash(h) && ChainOk(h, chain) && hashed != now
    ensures var c := chain + [NewBlockAsWritten(h, chain, p, now, hashed)];
      && !Verifies(h, c)
      && FirstMismatch(h, c, |chain|)
      && (forall k :: FirstMismatch(h, c, k) ==> k == |chain|)
      && c[|chain|].index == NextIndex(chain)
  {
    var b := NewBlockAsWritten(h, chain, p, now, hashed);
    var c := chain + [b];
    forall j | 0 <= j < |chain|
      ensures HashOk(h, c, j)
    {
      assert c[j] == chain[j];
      assert HashOk(h, chain, j);
      assert ExpectedPrev(c, j) == ExpectedPrev(chain, j);
    }
    assert ExpectedPrev(c, |chain|) == TipHash(chain);
    assert CanonicalOf(b, TipHash(chain)).timestamp == now;
    assert CanonicalOf(b.(timestamp := hashed), TipHash(chain)).timestamp == hashed;
    assert !HashOk(h, c, |chain|);
  }

  /** Block b may follow chain: it takes the next index, links to the tip and
      hashes correctly. */
  predicate Fits(h: HashFn, chain: seq<Block>, b: Block)
  {
    && b.index == NextIndex(chain)
    && b.prevHash == TipHash(chain)
    && b.hash == ComputeHash(h, b, TipHash(chain))
  }

  /** A chain that satisfies the invariant keeps it after one more block exactly
      when that block fits. */
  lemma ExtendChainOk(h: HashFn, chain: seq<Block>, b: Block)
    requires ChainOk(h, chain)
    ensures ChainOk(h, chain + [b]) <==> Fits(h, chain, b)
  {
    if Fits(h, chain, b) {
      FitKeepsChainOk(h, chain, b);
    }
    if ChainOk(h, chain + [b]) {
      ChainOkNeedsFit(h, chain, b);
    }
  }

  lemma NextIndexOfIndexed(chain: seq<Block>)
    requires Indexed(chain)
    ensures NextIndex(chain) == |chain| + 1
  {
    if chain != [] {
      assert chain[|chain| - 1].index == |chain|;
    }
  }

  lemma FitKeepsChainOk(h: HashFn, chain: seq<Block>, b: Block)
    requires ChainOk(h, chain) && Fits(h, chain, b)
    ensures ChainOk(h, chain + [b])
  {
    var c := chain + [b];
    var n := |chain|;
    NextIndexOfIndexed(chain);
    forall i | 0 <= i < |c|
      ensures c[i].index == i + 1 && c[i].prevHash == ExpectedPrev(c, i) && HashOk(h, c, i)
    {
      if i < n {
        assert c[i] == chain[i];
        assert ExpectedPrev(c, i) == ExpectedPrev(chain, i);
        assert HashOk(h, chain, i);
      } else {
        assert c[i] == b;
        assert ExpectedPrev(c, i) == TipHash(chain);
      }
    }
  }

  lemma ChainOkNeedsFit(h: HashFn, chain: seq<Block>, b: Block)
    requires Indexed(chain) && ChainOk(h, chain + [b])
    ensures Fits(h, chain, b)
  {
    var c := chain + [b];
    var n := |chain|;
    NextIndexOfIndexed(chain);
    assert c[n] == b;
    assert ExpectedPrev(c, n) == TipHash(chain);
    assert HashOk(h, c, n);
  }

  /** Appending one payload keeps the ledger invariant: if the chain verifies,
      it still verifies after appendBlock. */
  lemma AppendKeepsChainOk(h: HashFn, chain: seq<Block>, p: Payload, now: string)
    requires ChainOk(h, chain)
    ensures ChainOk(h, chain + [NewBlock(h, chain, p, now)])
  {
    ExtendChainOk(h, chain, NewBlock(h, chain, p, now));
  }

  /** The chain after appending the payloads ps one after another, all in one transaction. */
  function AppendAll(h: HashFn, chain: seq<Block>, ps: seq<Payload>, now: string): (r: seq<Block>)
    ensures |r| == |chain| + |ps|
    ensures r[..|chain|] == chain
    ensures forall k :: 0 <= k < |ps| ==>
      && r[|chain| + k].dataType == ps[k].dataType
      && r[|chain| + k].from == ps[k].from && r[|chain| + k].to == ps[k].to
      && r[|chain| + k].asset == ps[k].asset && r[|chain| + k].amount == ps[k].amount
      && r[|chain| + k].orderId == ps[k].orderId
    decreases |ps|
  {
    if ps == [] then chain
    else
      var next := chain + [NewBlock(h, chain, ps[0], now)];
      var r := AppendAll(h, next, ps[1..], now);
      assert r[..|next|][..|chain|] == chain;
      assert forall k :: 1 <= k < |ps| ==> ps[1..][k - 1] == ps[k] && |next| + (k - 1) == |chain| + k;
      r
  }

  lemma {:induction false} AppendAllKeepsChainOk(h: HashFn, chain: seq<Block>, ps: seq<Payload>, now: string)
    requires ChainOk(h, chain)
    ensures ChainOk(h, AppendAll(h, chain, ps, now))
    decreases |ps|
  {
    if ps != [] {
      AppendKeepsChainOk(h, chain, ps[0], now);
      AppendAllKeepsChainOk(h, chain + [NewBlock(h, chain, ps[0], now)], ps[1..], now);
    }
  }

  /** appendBlock: reads the tip, inserts the row with an empty hash, then patches
      the hash of that one row. */
  method AppendBlock(db: Db, p: Payload, now: string) returns (b: Block)
    modifies db`blocks
    ensures b == NewBlock(db.hash, old(db.blocks), p, now)
    ensures db.blocks == old(db.blocks) + [b]
    ensures ChainOk(db.hash, old(db.blocks)) ==> ChainOk(db.hash, db.blocks)
  {
    ghost var before := db.blocks;
    var prevHash := TipHash(db.blocks);
    var inserted := Block(NextIndex(db.blocks), now, p.dataType, p.from, p.to, p.asset, p.amount,
                          p.orderId, p.nonce.GetOr(0), prevHash, "", p.signature, p.publicKey);
    db.blocks := db.blocks + [inserted];
    var hash := ComputeHash(db.hash, inserted, prevHash);
    db.blocks := db.blocks[|db.blocks| - 1 := inserted.(hash := hash)];
    b := db.blocks[|db.blocks| - 1];
    assert db.blocks == before + [b];
    if ChainOk(db.hash, before) {
      AppendKeepsChainOk(db.hash, before, p, now);
    }
  }

  /** appendBlock called once per payload, in order. */
  method AppendEach(db: Db, ps: seq<Payload>, now: string)
    modifies db`blocks
    ensures db.blocks == AppendAll(db.hash, old(db.blocks), ps, now)
    ensures ChainOk(db.hash, old(db.blocks)) ==> ChainOk(db.hash, db.blocks)
  {
    var i := 0;
    while i < |ps|
      invariant 0 <= i <= |ps|
      invariant AppendAll(db.hash, db.blocks, ps[i..], now) == AppendAll(db.hash, old(db.blocks), ps, now)
      invariant ChainOk(db.hash, old(db.blocks)) ==> ChainOk(db.hash, db.blocks)
    {
      assert ps[i..][1..] == ps[i + 1..];
      var _ := AppendBlock(db, ps[i], now);
      i := i + 1;
    }
  }

  /** The outcome of verifyChain. */
  datatype VerifyReport = Verified(length: nat, head: string) | Broken(at: int, reason: string)

  /** Block k is the first whose hash does not recompute. */
  predicate FirstMismatch(h: HashFn, chain: seq<Block>, k: int)
  {
    && 0 <= k < |chain|
    && (forall j :: 0 <= j < k ==> HashOk(h, chain, j))
    && !HashOk(h, chain, k)
  }

  /** verifyChain: walks the blocks in index order, recomputing each hash from the
      running hash (not from the stored prevHash), and stops at the first mismatch. */
  method VerifyChain(db: Db) returns (r: VerifyReport)
    ensures r.Verified? <==> Verifies(db.hash, db.blocks)
    ensures r.Verified? ==> r.length == |db.blocks| && r.head == TipHash(db.blocks)
    ensures r.Broken? ==>
      (r.reason == "hash mismatch" &&
       exists k :: FirstMismatch(db.hash, db.blocks, k) && r.at == db.blocks[k].index)
  {
    var blocks := db.blocks;
    var prevHash := GENESIS;
    var i := 0;
    while i < |blocks|
      invariant 0 <= i <= |blocks|
      invariant prevHash == if i == 0 then GENESIS else blocks[i - 1].hash
      invariant forall j :: 0 <= j < i ==> HashOk(db.hash, blocks, j)
    {
      var b := blocks[i];
      var recomputed := ComputeHash(db.hash, b, prevHash);
      if recomputed != b.hash {
        assert FirstMismatch(db.hash, blocks, i);
        return Broken(b.index, "hash mismatch");
      }
      prevHash := b.hash;
      i := i + 1;
    }
    return Verified(|blocks|, prevHash);
  }

  /** Under an ideal hash, no two blocks of a verifying chain share a hash. */
  lemma {:induction false} HashesDistinct(h: HashFn, chain: seq<Block>, i: nat, j: nat)
    requires IdealHash(h) && Verifies(h, chain)
    requires i < j < |chain|
    ensures chain[i].hash != chain[j].hash
    decreases i
  {
    assert HashOk(h, chain, i) && HashOk(h, chain, j) && HashOk(h, chain, j - 1);
    assert ExpectedPrev(chain, j) != GENESIS;
    if chain[i].hash == chain[j].hash {
      assert CanonicalOf(chain[i], ExpectedPrev(chain, i)) == CanonicalOf(chain[j], ExpectedPrev(chain, j));
      if i > 0 {
        HashesDistinct(h, chain, i - 1, j - 1);
      }
    }
  }

  /** Under an ideal hash, the tip of a non-empty verifying chain is none of the
      hashes its blocks are chained to: each is an earlier block's hash or GENESIS. */
  lemma ChainedToIsNotTip(h: HashFn, chain: seq<Block>, k: nat)
    requires IdealHash(h) && Verifies(h, chain)
    requires k < |chain|
    ensures ExpectedPrev(chain, k) != TipHash(chain)
  {
    var n := |chain|;
    assert HashOk(h, chain, n - 1);
    if k > 0 {
      HashesDistinct(h, chain, k - 1, n - 1);
    } else {
      assert h(CanonicalOf(chain[n - 1], ExpectedPrev(chain, n - 1))) != GENESIS;
    }
  }
}
