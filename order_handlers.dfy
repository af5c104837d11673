/** The order handlers of controllers/ordersController.js as methods on the
    database. Each runs the statements of its transaction one after another on
    the tables and ends in exactly the state its `...Spec` function of module
    Orders describes, with the guards as evidently intended (`Corrected`).
    A thrown error rolls the transaction back: the method restores the tables
    it saved when the transaction began. */
module OrderHandlers {
  import opened Model
  import opened BalanceRows
  import opened Blockchain
  import opened Orders

  /** sell. */
  method Sell(db: Db, req: PlaceRequest, newId: OrderId) returns (r: Result<Reply, Error>)
    modifies db`balances, db`orders
    ensures var e := SellSpec(Corrected, db.assets, old(Books(db.balances, db.orders, db.trades)), req, newId);
      Books(db.balances, db.orders, db.trades) == e.books && r == e.reply
    ensures old(Inv(Books(db.balances, db.orders, db.trades))) ==> Inv(Books(db.balances, db.orders, db.trades))
  {
    ghost var bk := Books(db.balances, db.orders, db.trades);
    if Inv(bk) {
      SellKeepsInv(db.assets, bk, req, newId);
    }
    if Missing(req) {
      return Err(MissingFields);
    }
    if req.base !in db.assets || req.quote !in db.assets {
      return Err(Internal);
    }
    if !db.assets[req.base].active || !db.assets[req.quote].active {
      return Err(Internal);
    }
    if !(req.amountBase > 0 && req.price > 0) {
      return Err(InvalidAmountOrPrice);
    }
    var saved := db.balances;
    var k := Key(req.owner, req.base);
    db.balances := Ensure(db.balances, k);
    var available := db.balances[k].available;
    if available < req.amountBase {
      return Err(InsufficientFunds(available, req.amountBase));
    }
    db.balances := Patch(db.balances, k, -req.amountBase, req.amountBase);
    if newId in db.orders {
      // the insert of the order fails: roll back
      db.balances := saved;
      return Err(Internal);
    }
    var o := Order(newId, req.owner, Side.Sell, req.base, req.quote, req.amountBase, 0, req.price, Open);
    db.orders := db.orders[newId := o];
    r := Ok(Placed(o));
  }

  /** buyOpen. */
  method BuyOpen(db: Db, req: PlaceRequest, newId: OrderId) returns (r: Result<Reply, Error>)
    modifies db`balances, db`orders
    ensures var e := BuyOpenSpec(db.assets, old(Books(db.balances, db.orders, db.trades)), req, newId);
      Books(db.balances, db.orders, db.trades) == e.books && r == e.reply
    ensures old(Inv(Books(db.balances, db.orders, db.trades))) ==> Inv(Books(db.balances, db.orders, db.trades))
  {
    ghost var bk := Books(db.balances, db.orders, db.trades);
    if Inv(bk) {
      BuyOpenKeepsInv(db.assets, bk, req, newId);
    }
    if Missing(req) {
      return Err(MissingFields);
    }
    if req.base !in db.assets || req.quote !in db.assets {
      return Err(AssetNotFound);
    }
    if !db.assets[req.base].active || !db.assets[req.quote].active {
      return Err(AssetInactive);
    }
    if !(req.amountBase > 0) || !(req.price > 0) {
      return Err(InvalidAmountOrPrice);
    }
    var needQuote := req.amountBase * req.price;
    var saved := db.balances;
    var kq := Key(req.owner, req.quote);
    db.balances := Ensure(db.balances, Key(req.owner, req.base));
    db.balances := Ensure(db.balances, kq);
    var available := db.balances[kq].available;
    if available < needQuote {
      return Err(InsufficientFunds(available, needQuote));
    }
    db.balances := Patch(db.balances, kq, -needQuote, needQuote);
    if newId in db.orders {
      db.balances := saved;
      return Err(Internal);
    }
    var o := Order(newId, req.owner, Buy, req.base, req.quote, req.amountBase, 0, req.price, Open);
    db.orders := db.orders[newId := o];
    r := Ok(Placed(o));
  }

  /** Step 2 of a fill: the four `insert ... onConflict().ignore()` statements,
      the taker's two rows first. */
  method EnsureFillRows(db: Db, taker: Address, owner: Address, base: AssetCode, quote: AssetCode)
    modifies db`balances
    ensures db.balances == EnsureRows(old(db.balances), taker, owner, base, quote)
  {
    db.balances := Ensure(db.balances, Key(taker, base));
    db.balances := Ensure(db.balances, Key(taker, quote));
    db.balances := Ensure(db.balances, Key(owner, base));
    db.balances := Ensure(db.balances, Key(owner, quote));
  }

  /** Step 4 of buyFromOrder: the four patches of the settlement. */
  method SettleBuyLegs(db: Db, buyer: Address, seller: Address, base: AssetCode, quote: AssetCode, fill: int, cost: int)
    modifies db`balances
    ensures db.balances == BuyLegs(old(db.balances), buyer, seller, base, quote, fill, cost)
  {
    db.balances := Patch(db.balances, Key(buyer, quote), -cost, 0);
    db.balances := Patch(db.balances, Key(buyer, base), fill, 0);
    db.balances := Patch(db.balances, Key(seller, base), 0, -fill);
    db.balances := Patch(db.balances, Key(seller, quote), cost, 0);
  }

  /** Step 4 of sellFromOrder: the four patches of the settlement. */
  method SettleSellLegs(db: Db, seller: Address, buyer: Address, base: AssetCode, quote: AssetCode, fill: int, q: int)
    modifies db`balances
    ensures db.balances == SellLegs(old(db.balances), seller, buyer, base, quote, fill, q)
  {
    db.balances := Patch(db.balances, Key(seller, base), -fill, 0);
    db.balances := Patch(db.balances, Key(buyer, base), fill, 0);
    db.balances := Patch(db.balances, Key(buyer, quote), 0, -q);
    db.balances := Patch(db.balances, Key(seller, quote), q, 0);
  }

  /** buyFromOrder: the checks on the SELL order, then the fill. */
  method BuyFromOrder(db: Db, req: FillRequest, tradeId: TradeId, now: string) returns (r: Result<Reply, Error>)
    modifies db`balances, db`orders, db`trades, db`blocks
    ensures var e := BuyFromOrderSpec(Corrected, old(Books(db.balances, db.orders, db.trades)), req, tradeId);
      && Books(db.balances, db.orders, db.trades) == e.books && r == e.reply
      && db.blocks == AppendAll(db.hash, old(db.blocks), e.entries, now)
    ensures old(Inv(Books(db.balances, db.orders, db.trades))) ==> Inv(Books(db.balances, db.orders, db.trades))
    ensures old(ChainOk(db.hash, db.blocks)) ==> ChainOk(db.hash, db.blocks)
  {
    ghost var bk := Books(db.balances, db.orders, db.trades);
    if Inv(bk) {
      BuyFromOrderKeepsInv(bk, req, tradeId);
    }
    if ChainOk(db.hash, db.blocks) {
      AppendAllKeepsChainOk(db.hash, db.blocks, BuyFromOrderSpec(Corrected, bk, req, tradeId).entries, now);
    }
    if req.taker == "" {
      return Err(MissingFields);
    }
    var plan := PlanBuy(Corrected, db.orders, req);
    if plan.Err? {
      return Err(plan.error);
    }
    r := FillBuy(db, req.orderId, req.taker, plan.value, tradeId, now);
  }

  /** Steps 2 to 8 of buyFromOrder, once the checks on the order have passed. A
      check that fails returns normally, so the rows created stay. */
  method FillBuy(db: Db, orderId: OrderId, buyer: Address, p: Plan, tradeId: TradeId, now: string)
      returns (r: Result<Reply, Error>)
    requires 0 < p.fill <= Remaining(p.order)
    modifies db`balances, db`orders, db`trades, db`blocks
    ensures var e := BuyFill(old(Books(db.balances, db.orders, db.trades)), orderId, buyer, p, tradeId);
      && Books(db.balances, db.orders, db.trades) == e.books && r == e.reply
      && db.blocks == AppendAll(db.hash, old(db.blocks), e.entries, now)
  {
    ghost var bk, blocks0 := Books(db.balances, db.orders, db.trades), db.blocks;
    var o := p.order;
    var seller := o.owner;
    var saved := db.balances;
    EnsureFillRows(db, buyer, seller, o.base, o.quote);
    var buyerAvailable := db.balances[Key(buyer, o.quote)].available;
    if buyerAvailable < p.counter {
      return Err(InsufficientFunds(buyerAvailable, p.counter));
    }
    var sellerLocked := db.balances[Key(seller, o.base)].locked;
    if sellerLocked < p.fill {
      return Err(SellLockedNotEnough(sellerLocked, p.fill));
    }
    SettleBuyLegs(db, buyer, seller, o.base, o.quote, p.fill, p.counter);
    if tradeId in db.trades {
      // the insert of the trade fails: roll back
      db.balances := saved;
      return Err(Internal);
    }
    var t := Trade(tradeId, o.orderId, buyer, seller, o.base, o.quote, p.fill, o.price, p.counter);
    db.trades := db.trades[tradeId := t];
    var settled := Settle(o, p.fill);
    db.orders := db.orders[orderId := settled];
    assert db.blocks == blocks0;
    assert BuyFill(bk, orderId, buyer, p, tradeId).entries == TradeEntries(settled, seller, buyer, p.fill, p.counter);
    AppendEach(db, TradeEntries(settled, seller, buyer, p.fill, p.counter), now);
    r := Ok(Filled(settled, t, FillSummary(p.fill == p.requested, p.fill, p.requested, o.price, p.counter)));
  }

  /** sellFromOrder: the checks on the BUY order, then the fill. */
  method SellFromOrder(db: Db, req: FillRequest, tradeId: TradeId, now: string) returns (r: Result<Reply, Error>)
    modifies db`balances, db`orders, db`trades, db`blocks
    ensures var e := SellFromOrderSpec(Corrected, old(Books(db.balances, db.orders, db.trades)), req, tradeId);
      && Books(db.balances, db.orders, db.trades) == e.books && r == e.reply
      && db.blocks == AppendAll(db.hash, old(db.blocks), e.entries, now)
    ensures old(Inv(Books(db.balances, db.orders, db.trades))) ==> Inv(Books(db.balances, db.orders, db.trades))
    ensures old(ChainOk(db.hash, db.blocks)) ==> ChainOk(db.hash, db.blocks)
  {
    ghost var bk := Books(db.balances, db.orders, db.trades);
    if Inv(bk) {
      SellFromOrderKeepsInv(bk, req, tradeId);
    }
    if ChainOk(db.hash, db.blocks) {
      AppendAllKeepsChainOk(db.hash, db.blocks, SellFromOrderSpec(Corrected, bk, req, tradeId).entries, now);
    }
    if req.taker == "" {
      return Err(MissingFields);
    }
    var plan := PlanSell(Corrected, db.orders, req);
    if plan.Err? {
      return Err(plan.error);
    }
    r := FillSell(db, req.orderId, req.taker, plan.value, tradeId, now);
  }

  /** Steps 2 to 8 of sellFromOrder, once the checks on the order have passed. A
      check that fails returns normally, so the rows created stay. */
  method FillSell(db: Db, orderId: OrderId, seller: Address, p: Plan, tradeId: TradeId, now: string)
      returns (r: Result<Reply, Error>)
    requires 0 < p.fill <= Remaining(p.order)
    modifies db`balances, db`orders, db`trades, db`blocks
    ensures var e := SellFill(old(Books(db.balances, db.orders, db.trades)), orderId, seller, p, tradeId);
      && Books(db.balances, db.orders, db.trades) == e.books && r == e.reply
      && db.blocks == AppendAll(db.hash, old(db.blocks), e.entries, now)
  {
    ghost var bk, blocks0 := Books(db.balances, db.orders, db.trades), db.blocks;
    var o := p.order;
    var buyer := o.owner;
    var saved := db.balances;
    EnsureFillRows(db, seller, buyer, o.base, o.quote);
    var sellerAvailable := db.balances[Key(seller, o.base)].available;
    if sellerAvailable < p.fill {
      return Err(InsufficientBase(sellerAvailable, p.fill));
    }
    var buyerLocked := db.balances[Key(buyer, o.quote)].locked;
    if buyerLocked < p.counter {
      return Err(BuyLockedNotEnough(buyerLocked, p.counter));
    }
    SettleSellLegs(db, seller, buyer, o.base, o.quote, p.fill, p.counter);
    if tradeId in db.trades {
      // the insert of the trade fails: roll back
      db.balances := saved;
      return Err(Internal);
    }
    var t := Trade(tradeId, o.orderId, buyer, seller, o.base, o.quote, p.fill, o.price, p.counter);
    db.trades := db.trades[tradeId := t];
    var settled := Settle(o, p.fill);
    db.orders := db.orders[orderId := settled];
    assert db.blocks == blocks0;
    assert SellFill(bk, orderId, seller, p, tradeId).entries == TradeEntries(settled, seller, buyer, p.fill, p.counter);
    AppendEach(db, TradeEntries(settled, seller, buyer, p.fill, p.counter), now);
    r := Ok(Filled(settled, t, FillSummary(p.fill == p.requested, p.fill, p.requested, o.price, p.counter)));
  }

  /** cancelOrder. */
  method CancelOrder(db: Db, orderId: OrderId) returns (r: Result<Reply, Error>)
    modifies db`balances, db`orders
    ensures var e := CancelSpec(old(Books(db.balances, db.orders, db.trades)), orderId);
      Books(db.balances, db.orders, db.trades) == e.books && r == e.reply
    ensures old(Inv(Books(db.balances, db.orders, db.trades))) ==> Inv(Books(db.balances, db.orders, db.trades))
  {
    ghost var bk := Books(db.balances, db.orders, db.trades);
    if Inv(bk) {
      CancelKeepsInv(bk, orderId);
    }
    if orderId !in db.orders {
      return Err(OrderNotFound);
    }
    var o := db.orders[orderId];
    if o.status != Open {
      return Err(OrderNotCancellable(o.status));
    }
    var remainBase := Max(0, Remaining(o));
    var remainQuote := remainBase * o.price;
    if o.side == Side.Sell {
      if remainBase > 0 {
        db.balances := Patch(db.balances, Key(o.owner, o.base), remainBase, -remainBase);
      }
    } else {
      if remainQuote > 0 {
        db.balances := Patch(db.balances, Key(o.owner, o.quote), remainQuote, -remainQuote);
      }
    }
    db.orders := db.orders[orderId := o.(status := Cancelled)];
    r := Ok(CancelAck(orderId));
  }
}
