/** applyTopup of the WalletIdentity model: a deposit or withdrawal applied to
    one WalletBalance row, recorded as a TopUp row. */
module WalletIdentity {
  import opened Model
  import opened Sums
  import opened BalanceRows
  import opened Orders

  /** The arguments of applyTopup; `kind` is its `type`, already defaulted. */
  datatype TopupRequest = TopupRequest(address: Address, asset: AssetCode, amount: int, kind: string)

  /** What applyTopup returns: the id of its TopUp row and the balance row as
      it reads after the update. */
  datatype Receipt = Receipt(topUpId: string, balance: Balance)

  /** The two tables applyTopup writes. */
  datatype Ledger = Ledger(balances: Balances, topups: map<string, TopUp>)

  datatype TopupEffect = TopupEffect(ledger: Ledger, reply: Result<Receipt, Error>)

  /** The signed change to `available`: negative for WITHDRAW, positive for any other type. */
  function Delta(req: TopupRequest): int
  {
    if req.kind == "WITHDRAW" then -req.amount else req.amount
  }

  /** The TopUp row recorded for a request. */
  function Record(req: TopupRequest, topUpId: string): TopUp
  {
    TopUp(topUpId, req.address, req.asset, req.kind, req.amount, "COMPLETED", "api")
  }

  /** The guards `Corrected` adds: a positive amount, and a withdrawal covered
      by the available amount. As written there are none. */
  function TopupGuard(rule: Rule, m: Balances, req: TopupRequest): Option<Error>
  {
    var row := Row(m, Key(req.address, req.asset));
    if rule == AsWritten then None
    else if req.amount <= 0 then Some(InvalidAmount)
    else if req.kind == "WITHDRAW" && row.available < req.amount then Some(InsufficientFunds(row.available, req.amount))
    else None
  }

  /** applyTopup: create the row if absent, add the delta to its available
      amount, insert the TopUp row, and read the row back. A clash on the TopUp
      id throws, and the enclosing transaction undoes the balance change. */
  function ApplyTopupSpec(rule: Rule, lg: Ledger, req: TopupRequest, topUpId: string): TopupEffect
  {
    var k := Key(req.address, req.asset);
    match TopupGuard(rule, lg.balances, req)
    case Some(err) => TopupEffect(lg, Err(err))
    case None =>
      if topUpId in lg.topups then TopupEffect(lg, Err(Internal))
      else
        var m := Patch(Ensure(lg.balances, k), k, Delta(req), 0);
        TopupEffect(Ledger(m, lg.topups[topUpId := Record(req, topUpId)]), Ok(Receipt(topUpId, m[k])))
  }

  /** The model method on the database: it keeps the `Corrected` guards. */
  method ApplyTopup(db: Db, req: TopupRequest, topUpId: string) returns (r: Result<Receipt, Error>)
    modifies db`balances, db`topups
    ensures var e := ApplyTopupSpec(Corrected, old(Ledger(db.balances, db.topups)), req, topUpId);
      Ledger(db.balances, db.topups) == e.ledger && r == e.reply
  {
    var k := Key(req.address, req.asset);
    if req.amount <= 0 {
      return Err(InvalidAmount);
    }
    var row := Row(db.balances, k);
    if req.kind == "WITHDRAW" && row.available < req.amount {
      return Err(InsufficientFunds(row.available, req.amount));
    }
    var saved := db.balances;
    db.balances := Ensure(db.balances, k);
    var delta := if req.kind == "WITHDRAW" then -req.amount else req.amount;
    db.balances := Patch(db.balances, k, delta, 0);
    if topUpId in db.topups {
      db.balances := saved;
      return Err(Internal);
    }
    db.topups := db.topups[topUpId := Record(req, topUpId)];
    r := Ok(Receipt(topUpId, db.balances[k]));
  }

  // ---------------------------------------------------------------- what a top-up does

  /** A top-up goes through exactly when its guard passes and its id is new;
      otherwise neither table changes. */
  lemma ApplyTopupOutcome(rule: Rule, lg: Ledger, req: TopupRequest, topUpId: string)
    ensures var e := ApplyTopupSpec(rule, lg, req, topUpId);
      && (e.reply.Ok? <==> TopupGuard(rule, lg.balances, req) == None && topUpId !in lg.topups)
      && (e.reply.Err? ==> e.ledger == lg)
      && (TopupGuard(rule, lg.balances, req).Some? ==> e.reply == Err(TopupGuard(rule, lg.balances, req).value))
  {
  }

  /** The guard of `Corrected`, spelled out: it lets through exactly the positive
      deposits and the positive withdrawals the row covers. */
  lemma CorrectedGuard(m: Balances, req: TopupRequest)
    ensures TopupGuard(Corrected, m, req) == None <==>
      req.amount > 0 && (req.kind == "WITHDRAW" ==> Row(m, Key(req.address, req.asset)).available >= req.amount)
  {
  }

  /** A successful top-up creates row (address, asset) if absent, moves its
      available amount by the signed delta, touches neither its locked amount
      nor any other row, records one COMPLETED TopUp row, and returns the row
      as updated. */
  lemma TopupChangesOneRow(rule: Rule, lg: Ledger, req: TopupRequest, topUpId: string)
    requires ApplyTopupSpec(rule, lg, req, topUpId).reply.Ok?
    ensures var e, k := ApplyTopupSpec(rule, lg, req, topUpId), Key(req.address, req.asset);
      && e.ledger.balances.Keys == lg.balances.Keys + {k}
      && e.ledger.balances[k].available == Row(lg.balances, k).available + Delta(req)
      && e.ledger.balances[k].locked == Row(lg.balances, k).locked
      && (forall j :: j in lg.balances && j != k ==> e.ledger.balances[j] == lg.balances[j])
      && topUpId !in lg.topups
      && e.ledger.topups == lg.topups[topUpId := Record(req, topUpId)]
      && e.ledger.topups[topUpId].status == "COMPLETED"
      && e.reply.value == Receipt(topUpId, e.ledger.balances[k])
  {
    var k := Key(req.address, req.asset);
    EnsureRow(lg.balances, k);
    PatchRow(Ensure(lg.balances, k), k, Delta(req), 0);
  }

  /** Only the asset topped up changes in total, and by exactly the delta. */
  lemma TopupTotal(rule: Rule, lg: Ledger, req: TopupRequest, topUpId: string, a: AssetCode)
    requires ApplyTopupSpec(rule, lg, req, topUpId).reply.Ok?
    ensures Total(ApplyTopupSpec(rule, lg, req, topUpId).ledger.balances, a) ==
      Total(lg.balances, a) + (if a == req.asset then Delta(req) else 0)
  {
    var k := Key(req.address, req.asset);
    EnsureKeepsTotal(lg.balances, k, a);
    EnsureRow(lg.balances, k);
    PatchTotal(Ensure(lg.balances, k), k, Delta(req), 0, a);
  }

  /** With the guards of `Corrected`, a top-up keeps the order book's accounting
      invariant: no amount goes negative and every locked amount is still what
      the open orders commit. */
  lemma TopupKeepsInv(lg: Ledger, orders: map<OrderId, Order>, trades: map<TradeId, Trade>, req: TopupRequest, topUpId: string)
    requires Inv(Books(lg.balances, orders, trades))
    ensures Inv(Books(ApplyTopupSpec(Corrected, lg, req, topUpId).ledger.balances, orders, trades))
  {
    var k := Key(req.address, req.asset);
    var bk := Books(lg.balances, orders, trades);
    var e := ApplyTopupSpec(Corrected, lg, req, topUpId);
    if e.reply.Ok? {
      EnsureKeepsInv(bk, k);
      EnsureRow(lg.balances, k);
      var m1 := Ensure(lg.balances, k);
      PatchRow(m1, k, Delta(req), 0);
      assert e.ledger.balances == Patch(m1, k, Delta(req), 0);
      assert Inv(bk.(balances := m1));
      assert e.ledger.balances[k].available >= 0;
    }
  }

  /** A withdrawal undoes a deposit of the same amount: the row ends as it
      started (created with zeroes if it was absent). */
  lemma WithdrawUndoesDeposit(lg: Ledger, address: Address, asset: AssetCode, amount: int, t1: string, t2: string)
    requires amount > 0 && t1 != t2 && t1 !in lg.topups && t2 !in lg.topups
    requires NonNegative(lg.balances)
    ensures var e1 := ApplyTopupSpec(Corrected, lg, TopupRequest(address, asset, amount, "DEPOSIT"), t1);
      var e2 := ApplyTopupSpec(Corrected, e1.ledger, TopupRequest(address, asset, amount, "WITHDRAW"), t2);
      && e1.reply.Ok? && e2.reply.Ok?
      && e2.ledger.balances == Ensure(lg.balances, Key(address, asset))
  {
    var k := Key(address, asset);
    EnsureRow(lg.balances, k);
    var m1 := Ensure(lg.balances, k);
    PatchRow(m1, k, amount, 0);
    var m2 := Patch(m1, k, amount, 0);
    EnsureRow(m2, k);
    assert Ensure(m2, k) == m2;
    PatchRow(m2, k, -amount, 0);
    assert Patch(m2, k, -amount, 0) == m1;
  }

  // ---------------------------------------------------------------- the finding, exhibited

  /** As written, nothing stops a withdrawal beyond the available amount: it
      goes through and leaves the row negative. */
  lemma OverdrawAccepted(lg: Ledger, req: TopupRequest, topUpId: string)
    requires req.kind == "WITHDRAW" && req.amount > Row(lg.balances, Key(req.address, req.asset)).available
    requires topUpId !in lg.topups
    ensures var e := ApplyTopupSpec(AsWritten, lg, req, topUpId);
      && e.reply.Ok?
      && e.ledger.balances[Key(req.address, req.asset)].available < 0
      && !NonNegative(e.ledger.balances)
      && ApplyTopupSpec(Corrected, lg, req, topUpId).reply.Err?
  {
    TopupChangesOneRow(AsWritten, lg, req, topUpId);
  }

  /** Such an input exists: an empty wallet withdrawing 5. */
  lemma OverdrawAdmissible()
    ensures var lg, req := Ledger(map[], map[]), TopupRequest("W", "USDT", 5, "WITHDRAW");
      && NonNegative(lg.balances)
      && req.amount > Row(lg.balances, Key(req.address, req.asset)).available
      && "T1" !in lg.topups
  {
  }
}
