/** The replication endpoints of controllers/chainController.js: the head of the
    chain, a page of blocks after a given index, and the ingestion of blocks
    pushed by a peer. (The verify endpoint only forwards Blockchain.VerifyChain.) */
module ChainController {
  import opened Model
  import opened Blockchain

  /** The chain identifier when none is configured. */
  const CHAIN_ID := "p2p-mini-v1"
  /** The largest page served and the largest batch ingested. */
  const MAX_BATCH := 500
  /** The page size when the client names none. */
  const DEFAULT_LIMIT := 200

  // ---------------------------------------------------------------- head

  datatype HeadReply = HeadReply(chainId: string, blockIndex: int, hash: string)

  /** GET head: the index and hash of the highest block; 0 and GENESIS when empty. */
  function Head(chain: seq<Block>): (r: HeadReply)
    ensures r.chainId == CHAIN_ID
    ensures chain == [] ==> r.blockIndex == 0 && r.hash == GENESIS
    ensures Indexed(chain) ==> r.blockIndex == |chain|
    ensures Indexed(chain) ==> forall b :: b in chain ==> b.index <= r.blockIndex
    ensures chain != [] ==> exists b :: b in chain && b.index == r.blockIndex && b.hash == r.hash
  {
    if chain == [] then HeadReply(CHAIN_ID, 0, GENESIS)
    else
      var last := chain[|chain| - 1];
      assert last in chain;
      HeadReply(CHAIN_ID, last.index, last.hash)
  }

  /** A client that has every block up to head.blockIndex has the chain's tip hash. */
  lemma HeadIsTip(chain: seq<Block>)
    ensures Head(chain).hash == TipHash(chain)
    ensures Head(chain).blockIndex == NextIndex(chain) - 1
  {
  }

  // ---------------------------------------------------------------- blocks

  /** The blocks whose index exceeds from, in chain order. */
  function After(chain: seq<Block>, from: int): (r: seq<Block>)
    ensures |r| <= |chain|
    ensures forall i :: 0 <= i < |r| ==> r[i] in chain && r[i].index > from
  {
    if chain == [] then []
    else if chain[0].index > from then [chain[0]] + After(chain[1..], from)
    else After(chain[1..], from)
  }

  /** The filter keeps exactly the blocks above from. */
  lemma {:induction false} AfterMembers(chain: seq<Block>, from: int)
    ensures forall b :: b in After(chain, from) <==> b in chain && b.index > from
    decreases |chain|
  {
    if chain != [] {
      AfterMembers(chain[1..], from);
      assert forall b :: b in chain <==> b == chain[0] || b in chain[1..];
    }
  }

  /** The filter keeps the chain's order: filtering a concatenation is
      concatenating the filtered parts. */
  lemma {:induction false} AfterAppend(a: seq<Block>, b: seq<Block>, from: int)
    ensures After(a + b, from) == After(a, from) + After(b, from)
    decreases |a|
  {
    if a == [] {
      assert a + b == b;
    } else {
      assert (a + b)[0] == a[0];
      assert (a + b)[1..] == a[1..] + b;
      AfterAppend(a[1..], b, from);
    }
  }

  /** The effective page size: the requested limit (default 200), at most 500. */
  function Cap(limit: Option<nat>): (n: nat)
    ensures n <= MAX_BATCH
    ensures limit == None ==> n == DEFAULT_LIMIT
    ensures limit != None ==> n == Min(limit.value, MAX_BATCH)
  {
    Min(limit.GetOr(DEFAULT_LIMIT), MAX_BATCH)
  }

  /** GET blocks: up to Cap(limit) blocks with index above from, ascending. */
  function Page(chain: seq<Block>, from: Option<int>, limit: Option<nat>): (r: seq<Block>)
    ensures |r| <= Cap(limit) <= MAX_BATCH
  {
    var a := After(chain, from.GetOr(0));
    a[..Min(Cap(limit), |a|)]
  }

  /** A page holds only blocks of the chain above from; when the limit is not
      reached it holds all of them. */
  lemma PageMembers(chain: seq<Block>, from: Option<int>, limit: Option<nat>)
    ensures forall b :: b in Page(chain, from, limit) ==> b in chain && b.index > from.GetOr(0)
    ensures |Page(chain, from, limit)| < Cap(limit) ==>
      forall b :: b in chain && b.index > from.GetOr(0) ==> b in Page(chain, from, limit)
  {
    var a := After(chain, from.GetOr(0));
    AfterMembers(chain, from.GetOr(0));
    assert forall b :: b in a[..Min(Cap(limit), |a|)] ==> b in a;
    if |Page(chain, from, limit)| < Cap(limit) {
      assert Page(chain, from, limit) == a;
    }
  }

  /** The chain's blocks are numbered consecutively from first. */
  predicate Consecutive(chain: seq<Block>, first: int)
  {
    forall i :: 0 <= i < |chain| ==> chain[i].index == first + i
  }

  /** The position of the first block with index above from in a chain numbered from first. */
  function Skip(n: nat, first: int, from: int): (s: nat)
    ensures s <= n
  {
    if from < first then 0 else Min(from - first + 1, n)
  }

  lemma {:induction false} AfterOfConsecutive(chain: seq<Block>, first: int, from: int)
    requires Consecutive(chain, first)
    ensures After(chain, from) == chain[Skip(|chain|, first, from)..]
    decreases |chain|
  {
    if chain != [] {
      assert Consecutive(chain[1..], first + 1);
      AfterOfConsecutive(chain[1..], first + 1, from);
      if chain[0].index > from {
        assert Skip(|chain|, first, from) == 0;
        assert [chain[0]] + chain[1..] == chain;
      } else {
        assert Skip(|chain|, first, from) == Skip(|chain| - 1, first + 1, from) + 1;
      }
    }
  }

  /** On a well-indexed chain a page is a contiguous run starting right after from. */
  lemma PageOfIndexed(chain: seq<Block>, from: int, limit: Option<nat>)
    requires Indexed(chain)
    ensures var s := Skip(|chain|, 1, from);
      Page(chain, Some(from), limit) == chain[s..s + Min(Cap(limit), |chain| - s)]
  {
    assert Consecutive(chain, 1);
    AfterOfConsecutive(chain, 1, from);
  }

  /** Paging with the last index received as the next from misses no block and
      repeats none: the second page p2 starts right where the first page p1 ends. */
  lemma PagesAreContiguous(chain: seq<Block>, from: int, l1: Option<nat>, l2: Option<nat>,
                           p1: seq<Block>, p2: seq<Block>)
    requires Indexed(chain)
    requires p1 == Page(chain, Some(from), l1) && p1 != []
    requires p2 == Page(chain, Some(p1[|p1| - 1].index), l2)
    ensures var s := Skip(|chain|, 1, from);
      && s + |p1| + |p2| <= |chain|
      && p1 == chain[s..s + |p1|]
      && p2 == chain[s + |p1|..s + |p1| + |p2|]
  {
    var s := Skip(|chain|, 1, from);
    PageOfIndexed(chain, from, l1);
    var n1 := |p1|;
    assert p1 == chain[s..s + n1];
    assert p1[n1 - 1] == chain[s + n1 - 1];
    var next := p1[n1 - 1].index;
    assert next == s + n1;
    PageOfIndexed(chain, next, l2);
    assert Skip(|chain|, 1, next) == s + n1;
  }

  // ---------------------------------------------------------------- ingest

  /** A block as a peer submits it. All of its fields are optional on the wire;
      chainId, index, nonce, prevHash and hash are modelled as such. The index
      the peer sends is ignored: the store assigns its own. */
  datatype Submitted = Submitted(
    chainId: Option<string>,
    index: Option<int>,
    timestamp: string,
    dataType: string,
    from: Option<Address>,
    to: Option<Address>,
    asset: AssetCode,
    amount: string,
    orderId: Option<OrderId>,
    nonce: Option<int>,
    prevHash: Option<string>,
    hash: Option<string>,
    signature: Option<string>,
    publicKey: Option<string>)

  /** The request body: one block, or an array of them. */
  datatype Body = One(block: Submitted) | Many(blocks: seq<Submitted>)

  /** The hash the receiver recomputes for s chained to prevHash. */
  function SubmittedHash(h: HashFn, s: Submitted, prevHash: string): string
  {
    h(Canonical(s.timestamp, s.dataType, OrNull(s.from), OrNull(s.to), s.asset, s.amount,
                OrNull(s.orderId), s.nonce.GetOr(0), prevHash))
  }

  datatype Verdict = Accept | Reject(reason: string)

  /** An absent or empty chainId is accepted as ours. */
  predicate ChainIdOk(s: Submitted)
  {
    s.chainId == None || s.chainId == Some("") || s.chainId == Some(CHAIN_ID)
  }

  /** The three checks, in order, against the current tip. */
  function Check(h: HashFn, chain: seq<Block>, s: Submitted): (v: Verdict)
    ensures v == Accept <==>
      && ChainIdOk(s)
      && s.prevHash == Some(TipHash(chain))
      && s.hash == Some(SubmittedHash(h, s, TipHash(chain)))
    ensures !ChainIdOk(s) ==> v == Reject("chainId mismatch")
    ensures ChainIdOk(s) && s.prevHash != Some(TipHash(chain)) ==> v == Reject("prevHash mismatch")
    ensures ChainIdOk(s) && s.prevHash == Some(TipHash(chain)) && s.hash != Some(SubmittedHash(h, s, TipHash(chain)))
      ==> v == Reject("hash mismatch")
  {
    if !ChainIdOk(s) then Reject("chainId mismatch")
    else if s.prevHash != Some(TipHash(chain)) then Reject("prevHash mismatch")
    else if s.hash != Some(SubmittedHash(h, s, s.prevHash.value)) then Reject("hash mismatch")
    else Accept
  }

  /** The row inserted for an accepted block: the submitted fields, the store's index. */
  function Stored(chain: seq<Block>, s: Submitted, prevHash: string, hash: string): Block
  {
    Block(NextIndex(chain), s.timestamp, s.dataType, s.from, s.to, s.asset, s.amount,
          s.orderId, s.nonce.GetOr(0), prevHash, hash, s.signature, s.publicKey)
  }

  /** The running state of one ingestion: the chain and the three counters of the reply. */
  datatype Tally = Tally(chain: seq<Block>, accepted: nat, rejected: nat, reason: Option<string>)

  /** One block of the batch: inserted, or counted as rejected with its reason. */
  function Step(h: HashFn, t: Tally, s: Submitted): Tally
  {
    match Check(h, t.chain, s)
    case Accept =>
      Tally(t.chain + [Stored(t.chain, s, s.prevHash.value, s.hash.value)], t.accepted + 1, t.rejected, t.reason)
    case Reject(why) =>
      Tally(t.chain, t.accepted, t.rejected + 1, Some(why))
  }

  /** The whole batch, left to right, each block checked against the tip its
      predecessors left. */
  function Run(h: HashFn, t: Tally, batch: seq<Submitted>): (r: Tally)
    ensures r.accepted + r.rejected == t.accepted + t.rejected + |batch|
    ensures r.accepted >= t.accepted && r.rejected >= t.rejected
    ensures |r.chain| == |t.chain| + (r.accepted - t.accepted)
    ensures r.chain[..|t.chain|] == t.chain
    ensures (t.reason == None <==> t.rejected == 0) ==> (r.reason == None <==> r.rejected == 0)
    decreases |batch|
  {
    if batch == [] then t
    else
      var t1 := Step(h, t, batch[0]);
      var r := Run(h, t1, batch[1..]);
      assert r.chain[..|t1.chain|][..|t.chain|] == t.chain;
      r
  }

  /** Ingestion keeps the ledger invariant: a block is stored only when it takes
      the next index, links to the tip and hashes correctly. */
  lemma {:induction false} RunKeepsChainOk(h: HashFn, t: Tally, batch: seq<Submitted>)
    ensures ChainOk(h, t.chain) ==> ChainOk(h, Run(h, t, batch).chain)
    decreases |batch|
  {
    if batch != [] && ChainOk(h, t.chain) {
      var t1 := Step(h, t, batch[0]);
      if Check(h, t.chain, batch[0]) == Accept {
        FitKeepsChainOk(h, t.chain, t1.chain[|t.chain|]);
        assert t1.chain == t.chain + [t1.chain[|t.chain|]];
      }
      RunKeepsChainOk(h, t1, batch[1..]);
    }
  }

  /** The batch actually processed: the first 500 blocks. */
  function Batch(body: Body): (batch: seq<Submitted>)
    ensures |batch| <= MAX_BATCH
    ensures body.One? ==> batch == [body.block]
    ensures body.Many? ==> batch == body.blocks[..Min(|body.blocks|, MAX_BATCH)]
  {
    match body
    case One(s) => [s]
    case Many(ss) => if |ss| <= MAX_BATCH then ss else ss[..MAX_BATCH]
  }

  datatype IngestReply = IngestReply(chainId: string, accepted: nat, rejected: nat, reason: Option<string>)

  /** The reply and the chain after ingesting body, or the error for an empty array. */
  function IngestSpec(h: HashFn, chain: seq<Block>, body: Body): (r: Result<(IngestReply, seq<Block>), Error>)
    ensures r.Err? <==> body == Many([])
    ensures r.Err? ==> r.error == EmptyPayload
    ensures r.Ok? ==> r.value.0.accepted + r.value.0.rejected == |Batch(body)|
    ensures r.Ok? ==> chain <= r.value.1 && |r.value.1| == |chain| + r.value.0.accepted
    ensures r.Ok? ==> (r.value.0.reason == None <==> r.value.0.rejected == 0)
    ensures r.Ok? && ChainOk(h, chain) ==> ChainOk(h, r.value.1)
  {
    if body == Many([]) then Err(EmptyPayload)
    else
      var t := Run(h, Tally(chain, 0, 0, None), Batch(body));
      RunKeepsChainOk(h, Tally(chain, 0, 0, None), Batch(body));
      Ok((IngestReply(CHAIN_ID, t.accepted, t.rejected, t.reason), t.chain))
  }

  /** Run over a batch with one more block at its end. */
  lemma {:induction false} RunSnoc(h: HashFn, t: Tally, batch: seq<Submitted>, s: Submitted)
    ensures Run(h, t, batch + [s]) == Step(h, Run(h, t, batch), s)
    decreases |batch|
  {
    if batch == [] {
      assert [s][1..] == [];
    } else {
      assert (batch + [s])[1..] == batch[1..] + [s];
      RunSnoc(h, Step(h, t, batch[0]), batch[1..], s);
    }
  }

  /** Ingesting two batches in turn is ingesting their concatenation, so a
      replica that catches up page by page, or batch by batch, ends as one run
      over all the served blocks would. */
  lemma {:induction false} RunConcat(h: HashFn, t: Tally, a: seq<Submitted>, b: seq<Submitted>)
    ensures Run(h, t, a + b) == Run(h, Run(h, t, a), b)
    decreases |a|
  {
    if a == [] {
      assert a + b == b;
    } else {
      assert (a + b)[0] == a[0];
      assert (a + b)[1..] == a[1..] + b;
      RunConcat(h, Step(h, t, a[0]), a[1..], b);
    }
  }

  /** The reason in the reply is that of the last block rejected; an accepted
      block leaves it as it was. */
  lemma LastRejectionWins(h: HashFn, t: Tally, batch: seq<Submitted>, s: Submitted)
    ensures var before := Run(h, t, batch);
      match Check(h, before.chain, s)
      case Reject(why) => Run(h, t, batch + [s]).reason == Some(why)
      case Accept => Run(h, t, batch + [s]).reason == before.reason
  {
    RunSnoc(h, t, batch, s);
  }

  /** Under an ideal hash, a block already in the chain that is pushed again
      is rejected: its prevHash cannot be the current tip. */
  lemma ReplayRejected(h: HashFn, chain: seq<Block>, s: Submitted, k: nat)
    requires IdealHash(h) && ChainOk(h, chain)
    requires k < |chain| && s.prevHash == Some(chain[k].prevHash)
    ensures Check(h, chain, s).Reject?
    ensures ChainIdOk(s) ==> Check(h, chain, s) == Reject("prevHash mismatch")
  {
    assert chain[k].prevHash == ExpectedPrev(chain, k);
    ChainedToIsNotTip(h, chain, k);
  }

  /** As written, a block appendBlock hashed with a timestamp other than the one
      it stored is refused by a peer that holds the same chain: served as stored,
      its hash does not recompute. */
  lemma AsWrittenBlockRejectedByPeer(h: HashFn, chain: seq<Block>, p: Payload, now: string, hashed: string)
    requires IdealHash(h) && hashed != now
    ensures Check(h, chain, Export(NewBlockAsWritten(h, chain, p, now, hashed))) == Reject("hash mismatch")
  {
    var b := NewBlockAsWritten(h, chain, p, now, hashed);
    var s := Export(b);
    assert SubmittedHash(h, s, TipHash(chain)) == h(CanonicalOf(b, TipHash(chain)));
    assert CanonicalOf(b, TipHash(chain)) != CanonicalOf(b.(timestamp := hashed), TipHash(chain));
  }

  /** The index a peer claims has no influence on the outcome. */
  lemma ClaimedIndexIgnored(h: HashFn, t: Tally, s: Submitted, claimed: Option<int>)
    ensures Step(h, t, s.(index := claimed)) == Step(h, t, s)
  {
  }

  /** A block as the blocks endpoint serves it and a peer pushes it on: the
      stored row as it is, which has no chainId column. */
  function Export(b: Block): Submitted
  {
    Submitted(None, Some(b.index), b.timestamp, b.dataType, b.from, b.to, b.asset,
              b.amount, b.orderId, Some(b.nonce), Some(b.prevHash), Some(b.hash),
              b.signature, b.publicKey)
  }

  /** A served block, pushed to a peer, carries no chain id, is checked against
      the hash it was stored with, and is stored there as it was, under the
      peer's next index. */
  lemma ExportStored(h: HashFn, chain: seq<Block>, b: Block)
    ensures Export(b).chainId == None && Export(b).prevHash == Some(b.prevHash) && Export(b).hash == Some(b.hash)
    ensures SubmittedHash(h, Export(b), b.prevHash) == ComputeHash(h, b, b.prevHash)
    ensures Stored(chain, Export(b), b.prevHash, b.hash) == b.(index := NextIndex(chain))
  {
  }

  function ExportAll(chain: seq<Block>): (r: seq<Submitted>)
    ensures |r| == |chain|
    ensures forall i :: 0 <= i < |chain| ==> r[i] == Export(chain[i])
  {
    if chain == [] then [] else [Export(chain[0])] + ExportAll(chain[1..])
  }

  /** Replication: a replica holding a prefix of a valid chain that ingests the
      rest of it, as the source serves it, accepts every block and ends up with
      exactly the source's chain. */
  lemma {:induction false} ReplicaCatchesUp(h: HashFn, chain: seq<Block>, k: nat, t: Tally)
    requires ChainOk(h, chain) && k <= |chain| && t.chain == chain[..k]
    ensures Run(h, t, ExportAll(chain[k..])) == Tally(chain, t.accepted + |chain| - k, t.rejected, t.reason)
    decreases |chain| - k
  {
    if k == |chain| {
      assert chain[k..] == [];
      assert chain[..k] == chain;
    } else {
      var batch := ExportAll(chain[k..]);
      var s := batch[0];
      assert s == Export(chain[k]);
      assert HashOk(h, chain, k);
      assert TipHash(t.chain) == ExpectedPrev(chain, k);
      assert NextIndex(t.chain) == k + 1;
      assert Check(h, t.chain, s) == Accept;
      assert Stored(t.chain, s, s.prevHash.value, s.hash.value) == chain[k];
      assert chain[..k] + [chain[k]] == chain[..k + 1];
      assert batch[1..] == ExportAll(chain[k + 1..]);
      ReplicaCatchesUp(h, chain, k + 1, Step(h, t, s));
    }
  }

  /** The loop body of ingest for one block: the chainId check, then the tip is
      read and the link checked, then the hash recomputed; the block is inserted
      only when all three pass. */
  method IngestBlock(db: Db, b: Submitted) returns (v: Verdict)
    modifies db`blocks
    ensures v == Check(db.hash, old(db.blocks), b)
    ensures v.Accept? ==> db.blocks == old(db.blocks) + [Stored(old(db.blocks), b, b.prevHash.value, b.hash.value)]
    ensures v.Reject? ==> db.blocks == old(db.blocks)
  {
    if !(b.chainId == None || b.chainId == Some("") || b.chainId == Some(CHAIN_ID)) {
      return Reject("chainId mismatch");
    }
    var expectPrevHash := TipHash(db.blocks);
    if b.prevHash != Some(expectPrevHash) {
      return Reject("prevHash mismatch");
    }
    var hashCheck := SubmittedHash(db.hash, b, b.prevHash.value);
    if b.hash != Some(hashCheck) {
      return Reject("hash mismatch");
    }
    db.blocks := db.blocks + [Stored(db.blocks, b, b.prevHash.value, b.hash.value)];
    return Accept;
  }

  /** Ingest: one transaction over the first 500 blocks of the body. */
  method Ingest(db: Db, body: Body) returns (r: Result<IngestReply, Error>)
    modifies db`blocks
    ensures match IngestSpec(db.hash, old(db.blocks), body)
      case Err(e) => r == Err(e) && db.blocks == old(db.blocks)
      case Ok(v) => r == Ok(v.0) && db.blocks == v.1
    ensures ChainOk(db.hash, old(db.blocks)) ==> ChainOk(db.hash, db.blocks)
  {
    if body == Many([]) {
      return Err(EmptyPayload);
    }
    var batch := Batch(body);
    var accepted, rejected, reason := 0, 0, None;
    ghost var goal := Run(db.hash, Tally(db.blocks, 0, 0, None), batch);
    var i := 0;
    while i < |batch|
      invariant 0 <= i <= |batch|
      invariant Run(db.hash, Tally(db.blocks, accepted, rejected, reason), batch[i..]) == goal
    {
      ghost var t := Tally(db.blocks, accepted, rejected, reason);
      assert batch[i..][1..] == batch[i + 1..];
      var v := IngestBlock(db, batch[i]);
      if v.Reject? {
        rejected, reason := rejected + 1, Some(v.reason);
      } else {
        accepted := accepted + 1;
      }
      assert Tally(db.blocks, accepted, rejected, reason) == Step(db.hash, t, batch[i]);
      i := i + 1;
    }
    assert batch[i..] == [];
    return Ok(IngestReply(CHAIN_ID, accepted, rejected, reason));
  }
}
