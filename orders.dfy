/** The order book of controllers/ordersController.js: placing a SELL or a BUY
    order (which locks the owner's funds), filling an open order in part or in
    full (which settles both legs at once and writes the ledger entries), and
    cancelling an open order (which releases what is still locked).

    Each handler is specified by a pure function from the tables before to the
    tables after (`...Spec`) and implemented by a method on the database that
    runs the statements one after another inside the handler's transaction. */
module Orders {
  import opened Model
  import opened Sums
  import opened BalanceRows
  import opened Blockchain

  /** The three tables the order handlers write. */
  datatype Books = Books(balances: Balances, orders: map<OrderId, Order>, trades: map<TradeId, Trade>)

  /** The body of a sell or buy-open request; an absent field is "" or 0. */
  datatype PlaceRequest = PlaceRequest(owner: Address, base: AssetCode, quote: AssetCode, amountBase: int, price: int)

  /** A fill of order orderId by taker; no amountBase means all that remains. */
  datatype FillRequest = FillRequest(orderId: OrderId, taker: Address, amountBase: Option<int>)

  /** The per-request summary of a fill (sellSummary or buySummary). */
  datatype FillSummary = FillSummary(completed: bool, filled: int, requested: int, price: int, counterAmount: int)

  datatype Reply =
    | Placed(order: Order)
    | Filled(order: Order, trade: Trade, summary: FillSummary)
    | CancelAck(orderId: OrderId)

  /** The outcome of one handler: the tables after its transaction, the ledger
      entries it appended, and its reply. */
  datatype Effect = Effect(books: Books, entries: seq<Payload>, reply: Result<Reply, Error>)

  function Fail(bk: Books, e: Error): Effect
  {
    Effect(bk, [], Err(e))
  }

  // ---------------------------------------------------------------- the invariant

  function Remaining(o: Order): int { o.amountBase - o.filled }

  /** The balance row that holds what an order has locked: base for a SELL, quote for a BUY. */
  function LockKey(o: Order): Key
  {
    if o.side == Sell then Key(o.owner, o.base) else Key(o.owner, o.quote)
  }

  /** What an order still holds locked: nothing once it is no longer open. */
  function Commitment(o: Order): int
  {
    if o.status != Open then 0
    else if o.side == Sell then Remaining(o)
    else Remaining(o) * o.price
  }

  function CommitmentsAt(orders: map<OrderId, Order>, k: Key): OrderId -> int
  {
    id => if id in orders && LockKey(orders[id]) == k then Commitment(orders[id]) else 0
  }

  /** The sum of the commitments of the orders locking row k. */
  ghost function Committed(orders: map<OrderId, Order>, k: Key): int
  {
    Sum(orders.Keys, CommitmentsAt(orders, k))
  }

  /** An order as the handlers keep it: positive amount and price, filled within
      the amount, an open order not yet full, a complete order exactly full. */
  predicate WellFormed(o: Order)
  {
    && 0 < o.amountBase && 0 < o.price
    && 0 <= o.filled <= o.amountBase
    && (o.status == Open ==> o.filled < o.amountBase)
    && (o.status == Complete ==> o.filled == o.amountBase)
  }

  predicate TradeWellFormed(t: Trade)
  {
    0 < t.amountBaseTraded && t.amountQuotePaid == t.amountBaseTraded * t.price
  }

  /** Every locked amount is exactly what the open orders on that row still commit. */
  ghost predicate LockedIsCommitted(m: Balances, orders: map<OrderId, Order>)
  {
    forall k {:trigger Committed(orders, k)} :: k in m ==> m[k].locked == Committed(orders, k)
  }

  /** Every order is stored under its own id and is well formed. */
  predicate OrdersOk(orders: map<OrderId, Order>)
  {
    forall id :: id in orders ==> orders[id].orderId == id && WellFormed(orders[id])
  }

  /** Every open order's locked row exists. */
  predicate LocksExist(m: Balances, orders: map<OrderId, Order>)
  {
    forall id :: id in orders && orders[id].status == Open ==> LockKey(orders[id]) in m
  }

  /** Every trade is stored under its own id and paid at its price. */
  predicate TradesOk(trades: map<TradeId, Trade>)
  {
    forall id :: id in trades ==> trades[id].tradeId == id && TradeWellFormed(trades[id])
  }

  /** The accounting invariant of the order book. */
  ghost predicate Inv(bk: Books)
  {
    && NonNegative(bk.balances)
    && OrdersOk(bk.orders)
    && LocksExist(bk.balances, bk.orders)
    && TradesOk(bk.trades)
    && LockedIsCommitted(bk.balances, bk.orders)
  }

  // ---------------------------------------------------------------- placing orders

  /** The falsy check: a missing or zero field. */
  predicate Missing(req: PlaceRequest)
  {
    req.owner == "" || req.base == "" || req.quote == "" || req.amountBase == 0 || req.price == 0
  }

  /** sell: lock amountBase of the owner's base asset and open a SELL order newId.
      Unknown or inactive assets throw; funds are checked after the owner's row
      is created, and that row stays when the funds are short. */
  function SellSpec(rule: Rule, assets: map<AssetCode, Asset>, bk: Books, req: PlaceRequest, newId: OrderId): Effect
  {
    if Missing(req) then Fail(bk, MissingFields)
    else if req.base !in assets || req.quote !in assets then Fail(bk, Internal)
    else if !assets[req.base].active || !assets[req.quote].active then Fail(bk, Internal)
    else if rule == Corrected && !(req.amountBase > 0 && req.price > 0) then Fail(bk, InvalidAmountOrPrice)
    else
      var k := Key(req.owner, req.base);
      var m1 := Ensure(bk.balances, k);
      if m1[k].available < req.amountBase then
        Fail(bk.(balances := m1), InsufficientFunds(m1[k].available, req.amountBase))
      else if newId in bk.orders then Fail(bk, Internal)
      else
        var o := Order(newId, req.owner, Sell, req.base, req.quote, req.amountBase, 0, req.price, Open);
        Effect(Books(Patch(m1, k, -req.amountBase, req.amountBase), bk.orders[newId := o], bk.trades),
               [], Ok(Placed(o)))
  }

  /** buyOpen: lock amountBase * price of the owner's quote asset and open a BUY
      order newId. Both of the owner's rows are created first. */
  function BuyOpenSpec(assets: map<AssetCode, Asset>, bk: Books, req: PlaceRequest, newId: OrderId): Effect
  {
    if Missing(req) then Fail(bk, MissingFields)
    else if req.base !in assets || req.quote !in assets then Fail(bk, AssetNotFound)
    else if !assets[req.base].active || !assets[req.quote].active then Fail(bk, AssetInactive)
    else if !(req.amountBase > 0) || !(req.price > 0) then Fail(bk, InvalidAmountOrPrice)
    else
      var needQuote := req.amountBase * req.price;
      var kq := Key(req.owner, req.quote);
      var m1 := Ensure(Ensure(bk.balances, Key(req.owner, req.base)), kq);
      if m1[kq].available < needQuote then
        Fail(bk.(balances := m1), InsufficientFunds(m1[kq].available, needQuote))
      else if newId in bk.orders then Fail(bk, Internal)
      else
        var o := Order(newId, req.owner, Buy, req.base, req.quote, req.amountBase, 0, req.price, Open);
        Effect(Books(Patch(m1, kq, -needQuote, needQuote), bk.orders[newId := o], bk.trades),
               [], Ok(Placed(o)))
  }

  // ---------------------------------------------------------------- filling orders

  /** Which orders a fill accepts: as written, any order of the side that is not
      COMPLETE; as intended, only an OPEN one. */
  predicate Admits(rule: Rule, o: Order, side: Side)
  {
    o.side == side && (if rule == AsWritten then o.status != Complete else o.status == Open)
  }

  /** The amounts of one fill, decided before any row is touched. */
  datatype Plan = Plan(order: Order, requested: int, fill: int, counter: int)

  /** What every accepted plan satisfies: the fill is the smaller of the request
      and the remainder, and the counter amount is the fill at the order's price. */
  predicate PlanOk(rule: Rule, orders: map<OrderId, Order>, req: FillRequest, side: Side, p: Plan)
  {
    && req.orderId in orders && p.order == orders[req.orderId]
    && Admits(rule, p.order, side) && p.order.owner != req.taker
    && 0 < p.order.price
    && 0 < p.requested && req.amountBase.GetOr(p.requested) == p.requested
    && p.fill == Min(p.requested, Remaining(p.order))
    && 0 < p.fill <= Remaining(p.order)
    && (req.amountBase == None ==> p.fill == Remaining(p.order))
    && p.counter == p.fill * p.order.price
  }

  /** The checks of buyFromOrder on the SELL order, in the source's order. */
  function PlanBuy(rule: Rule, orders: map<OrderId, Order>, req: FillRequest): (r: Result<Plan, Error>)
    ensures r.Ok? ==> PlanOk(rule, orders, req, Sell, r.value)
    ensures r == Err(OrderNotFound) <==> req.orderId !in orders
    ensures req.orderId in orders && !Admits(rule, orders[req.orderId], Sell) ==> r == Err(OrderNotOpenSell)
    ensures req.orderId in orders && Admits(rule, orders[req.orderId], Sell) && orders[req.orderId].owner == req.taker
      ==> r == Err(CannotBuyOwnOrder)
    ensures req.orderId in orders && Admits(rule, orders[req.orderId], Sell) && orders[req.orderId].owner != req.taker
      && Remaining(orders[req.orderId]) > 0 && orders[req.orderId].price > 0 && req.amountBase.GetOr(1) > 0
      ==> r.Ok?
  {
    if req.orderId !in orders then Err(OrderNotFound)
    else
      var o := orders[req.orderId];
      if !Admits(rule, o, Sell) then Err(OrderNotOpenSell)
      else if o.owner == req.taker then Err(CannotBuyOwnOrder)
      else
        var remain := Max(0, Remaining(o));
        if remain <= 0 then Err(OrderAlreadyComplete)
        else
          var requested := req.amountBase.GetOr(remain);
          if !(requested > 0) then Err(InvalidAmount)
          else if !(o.price > 0) then Err(InvalidPrice)
          else
            var fill := Min(requested, remain);
            Ok(Plan(o, requested, fill, fill * o.price))
  }

  /** The checks of sellFromOrder on the BUY order, in the source's order
      (the price is checked before the remainder here). */
  function PlanSell(rule: Rule, orders: map<OrderId, Order>, req: FillRequest): (r: Result<Plan, Error>)
    ensures r.Ok? ==> PlanOk(rule, orders, req, Buy, r.value)
    ensures r == Err(OrderNotFound) <==> req.orderId !in orders
    ensures req.orderId in orders && !Admits(rule, orders[req.orderId], Buy) ==> r == Err(OrderNotOpenBuy)
    ensures req.orderId in orders && Admits(rule, orders[req.orderId], Buy) && orders[req.orderId].owner == req.taker
      ==> r == Err(CannotSellToOwnOrder)
    ensures req.orderId in orders && Admits(rule, orders[req.orderId], Buy) && orders[req.orderId].owner != req.taker
      && Remaining(orders[req.orderId]) > 0 && orders[req.orderId].price > 0 && req.amountBase.GetOr(1) > 0
      ==> r.Ok?
  {
    if req.orderId !in orders then Err(OrderNotFound)
    else
      var o := orders[req.orderId];
      if !Admits(rule, o, Buy) then Err(OrderNotOpenBuy)
      else if o.owner == req.taker then Err(CannotSellToOwnOrder)
      else if !(o.price > 0) then Err(InvalidPrice)
      else
        var remain := Max(0, Remaining(o));
        if remain <= 0 then Err(OrderAlreadyComplete)
        else
          var requested := req.amountBase.GetOr(remain);
          if !(requested > 0) then Err(InvalidAmount)
          else
            var fill := Min(requested, remain);
            Ok(Plan(o, requested, fill, fill * o.price))
  }

  /** The order after a fill: filled grows by fill, clamped to the amount, and the
      order is COMPLETE exactly when it is full. */
  function Settle(o: Order, fill: int): (r: Order)
    requires 0 < fill <= Remaining(o)
    ensures r == o.(filled := r.filled, status := r.status)
    ensures r.filled == o.filled + fill
    ensures r.status == Complete <==> r.filled == o.amountBase
    ensures r.status != Complete ==> r.status == Open
  {
    var newFilled := o.filled + fill;
    var done := newFilled >= o.amountBase;
    o.(filled := if done then o.amountBase else newFilled, status := if done then Complete else Open)
  }

  /** The four rows a fill creates first: the taker's two, then the owner's two. */
  function EnsureRows(m: Balances, taker: Address, owner: Address, base: AssetCode, quote: AssetCode): Balances
  {
    Ensure(Ensure(Ensure(Ensure(m, Key(taker, base)), Key(taker, quote)), Key(owner, base)), Key(owner, quote))
  }

  /** After the four inserts the four rows exist, each reading as it did before. */
  lemma EnsureRowsRows(m: Balances, taker: Address, owner: Address, base: AssetCode, quote: AssetCode)
    ensures EnsureRows(m, taker, owner, base, quote).Keys
      == m.Keys + {Key(taker, base), Key(taker, quote), Key(owner, base), Key(owner, quote)}
    ensures forall j :: j in EnsureRows(m, taker, owner, base, quote) ==> EnsureRows(m, taker, owner, base, quote)[j] == Row(m, j)
  {
  }

  /** The ledger entries of a fill: base from seller to buyer, quote back, and an
      ORDER_COMPLETE marker when the order became full. */
  function TradeEntries(settled: Order, seller: Address, buyer: Address, fill: int, counter: int): (r: seq<Payload>)
    ensures |r| == if settled.status == Complete then 3 else 2
    ensures r[0].dataType == "TRADE_BASE_TRANSFER" && r[0].from == Some(seller) && r[0].to == Some(buyer)
      && r[0].asset == settled.base && DecimalForm(r[0].amount) && ParseDecimal(r[0].amount) == fill
    ensures r[1].dataType == "TRADE_QUOTE_TRANSFER" && r[1].from == Some(buyer) && r[1].to == Some(seller)
      && r[1].asset == settled.quote && DecimalForm(r[1].amount) && ParseDecimal(r[1].amount) == counter
    ensures settled.status == Complete ==>
      && r[2].dataType == "ORDER_COMPLETE" && r[2].from == None && r[2].to == None
      && r[2].asset == settled.base && DecimalForm(r[2].amount) && ParseDecimal(r[2].amount) == 0
    ensures forall i :: 0 <= i < |r| ==> r[i].orderId == Some(settled.orderId)
  {
    DecimalRoundTrip(fill);
    DecimalRoundTrip(counter);
    ZeroReadsBack();
    var base := Entry("TRADE_BASE_TRANSFER", Some(seller), Some(buyer), settled.base, Decimal(fill), Some(settled.orderId));
    var quote := Entry("TRADE_QUOTE_TRANSFER", Some(buyer), Some(seller), settled.quote, Decimal(counter), Some(settled.orderId));
    if settled.status == Complete then
      [base, quote, Entry("ORDER_COMPLETE", None, None, settled.base, "0", Some(settled.orderId))]
    else [base, quote]
  }

  /** The literal amount "0" of the ORDER_COMPLETE block reads back as zero. */
  lemma ZeroReadsBack()
    ensures DecimalForm("0") && ParseDecimal("0") == 0
  {
    assert ParseDecimal("0") == ParseDigits("0") == 0;
  }

  /** The four legs of buyFromOrder: the buyer pays from available quote, receives
      base; the seller's locked base goes, quote arrives. */
  function BuyLegs(m: Balances, buyer: Address, seller: Address, base: AssetCode, quote: AssetCode, fill: int, cost: int): Balances
  {
    var m1 := Patch(m, Key(buyer, quote), -cost, 0);
    var m2 := Patch(m1, Key(buyer, base), fill, 0);
    var m3 := Patch(m2, Key(seller, base), 0, -fill);
    Patch(m3, Key(seller, quote), cost, 0)
  }

  /** The four legs of sellFromOrder: the seller gives available base, the buyer
      receives it; the buyer's locked quote goes, the seller receives quote. */
  function SellLegs(m: Balances, seller: Address, buyer: Address, base: AssetCode, quote: AssetCode, fill: int, q: int): Balances
  {
    var m1 := Patch(m, Key(seller, base), -fill, 0);
    var m2 := Patch(m1, Key(buyer, base), fill, 0);
    var m3 := Patch(m2, Key(buyer, quote), 0, -q);
    Patch(m3, Key(seller, quote), q, 0)
  }

  /** buyFromOrder: the taker buys from a SELL order. */
  function BuyFromOrderSpec(rule: Rule, bk: Books, req: FillRequest, tradeId: TradeId): Effect
  {
    if req.taker == "" then Fail(bk, MissingFields)
    else match PlanBuy(rule, bk.orders, req)
    case Err(e) => Fail(bk, e)
    case Ok(p) => BuyFill(bk, req.orderId, req.taker, p, tradeId)
  }

  /** buyFromOrder once the checks on the SELL order have passed. */
  function BuyFill(bk: Books, orderId: OrderId, buyer: Address, p: Plan, tradeId: TradeId): Effect
    requires 0 < p.fill <= Remaining(p.order)
  {
    var o := p.order;
    var seller := o.owner;
    var m1 := EnsureRows(bk.balances, buyer, seller, o.base, o.quote);
    if m1[Key(buyer, o.quote)].available < p.counter then
      Fail(bk.(balances := m1), InsufficientFunds(m1[Key(buyer, o.quote)].available, p.counter))
    else if m1[Key(seller, o.base)].locked < p.fill then
      Fail(bk.(balances := m1), SellLockedNotEnough(m1[Key(seller, o.base)].locked, p.fill))
    else if tradeId in bk.trades then Fail(bk, Internal)
    else
      var settled := Settle(o, p.fill);
      var t := Trade(tradeId, o.orderId, buyer, seller, o.base, o.quote, p.fill, o.price, p.counter);
      Effect(Books(BuyLegs(m1, buyer, seller, o.base, o.quote, p.fill, p.counter),
                   bk.orders[orderId := settled], bk.trades[tradeId := t]),
             TradeEntries(settled, seller, buyer, p.fill, p.counter),
             Ok(Filled(settled, t, FillSummary(p.fill == p.requested, p.fill, p.requested, o.price, p.counter))))
  }

  /** sellFromOrder: the taker sells into a BUY order. */
  function SellFromOrderSpec(rule: Rule, bk: Books, req: FillRequest, tradeId: TradeId): Effect
  {
    if req.taker == "" then Fail(bk, MissingFields)
    else match PlanSell(rule, bk.orders, req)
    case Err(e) => Fail(bk, e)
    case Ok(p) => SellFill(bk, req.orderId, req.taker, p, tradeId)
  }

  /** sellFromOrder once the checks on the BUY order have passed. */
  function SellFill(bk: Books, orderId: OrderId, seller: Address, p: Plan, tradeId: TradeId): Effect
    requires 0 < p.fill <= Remaining(p.order)
  {
    var o := p.order;
    var buyer := o.owner;
    var m1 := EnsureRows(bk.balances, seller, buyer, o.base, o.quote);
    if m1[Key(seller, o.base)].available < p.fill then
      Fail(bk.(balances := m1), InsufficientBase(m1[Key(seller, o.base)].available, p.fill))
    else if m1[Key(buyer, o.quote)].locked < p.counter then
      Fail(bk.(balances := m1), BuyLockedNotEnough(m1[Key(buyer, o.quote)].locked, p.counter))
    else if tradeId in bk.trades then Fail(bk, Internal)
    else
      var settled := Settle(o, p.fill);
      var t := Trade(tradeId, o.orderId, buyer, seller, o.base, o.quote, p.fill, o.price, p.counter);
      Effect(Books(SellLegs(m1, seller, buyer, o.base, o.quote, p.fill, p.counter),
                   bk.orders[orderId := settled], bk.trades[tradeId := t]),
             TradeEntries(settled, seller, buyer, p.fill, p.counter),
             Ok(Filled(settled, t, FillSummary(p.fill == p.requested, p.fill, p.requested, o.price, p.counter))))
  }

  // ---------------------------------------------------------------- cancelling

  /** The balances after releasing what an order still holds: the unfilled base
      of a SELL, or the unfilled base at the order's price in quote for a BUY,
      moved from locked back to available when positive. */
  function Release(m: Balances, o: Order): Balances
  {
    var remainBase := Max(0, Remaining(o));
    var remainQuote := remainBase * o.price;
    if o.side == Sell then
      (if remainBase > 0 then Patch(m, Key(o.owner, o.base), remainBase, -remainBase) else m)
    else
      (if remainQuote > 0 then Patch(m, Key(o.owner, o.quote), remainQuote, -remainQuote) else m)
  }

  /** cancelOrder: only an OPEN order can be cancelled. */
  function CancelSpec(bk: Books, orderId: OrderId): Effect
  {
    if orderId !in bk.orders then Fail(bk, OrderNotFound)
    else
      var o := bk.orders[orderId];
      if o.status != Open then Fail(bk, OrderNotCancellable(o.status))
      else
        Effect(Books(Release(bk.balances, o), bk.orders[orderId := o.(status := Cancelled)], bk.trades),
               [], Ok(CancelAck(orderId)))
  }

  // ---------------------------------------------------------------- sums of commitments

  lemma CommitmentNonNegative(o: Order)
    requires WellFormed(o)
    ensures Commitment(o) >= 0
  {
    if o.status == Open && o.side == Buy {
      MulNonNegative(Remaining(o), o.price);
    }
  }

  lemma MulNonNegative(a: int, b: int)
    requires a >= 0 && b >= 0
    ensures a * b >= 0
  {
  }

  lemma MulPositive(a: int, b: int)
    requires a > 0 && b > 0
    ensures a * b > 0
  {
  }

  /** Multiplication by a non-negative price is monotone and distributes. */
  lemma MulSplit(a: int, b: int, p: int)
    requires 0 <= b <= a && p >= 0
    ensures a * p == (a - b) * p + b * p
    ensures b * p <= a * p
  {
    MulNonNegative(a - b, p);
  }

  /** A new open order commits its whole amount, at its price for a BUY. */
  lemma CommitmentOfNew(o: Order)
    requires o.status == Open && o.filled == 0
    ensures Commitment(o) == if o.side == Sell then o.amountBase else o.amountBase * o.price
  {
  }

  /** A row no open order locks commits nothing. */
  lemma CommittedNone(orders: map<OrderId, Order>, k: Key)
    requires forall id :: id in orders && orders[id].status == Open ==> LockKey(orders[id]) != k
    ensures Committed(orders, k) == 0
  {
    SumZero(orders.Keys, CommitmentsAt(orders, k));
  }

  /** Inserting order o under a fresh id adds its commitment to its own row. */
  lemma CommittedInsert(orders: map<OrderId, Order>, id: OrderId, o: Order, k: Key)
    requires id !in orders
    ensures Committed(orders[id := o], k) == Committed(orders, k) + (if LockKey(o) == k then Commitment(o) else 0)
  {
    var after := orders[id := o];
    assert after.Keys == orders.Keys + {id};
    SumInsert(orders.Keys, CommitmentsAt(orders, k), CommitmentsAt(after, k), id);
  }

  /** Replacing order id by o2 swaps its commitment for o2's. */
  lemma CommittedReplace(orders: map<OrderId, Order>, id: OrderId, o2: Order, k: Key)
    requires id in orders
    ensures Committed(orders[id := o2], k) ==
      Committed(orders, k)
      - (if LockKey(orders[id]) == k then Commitment(orders[id]) else 0)
      + (if LockKey(o2) == k then Commitment(o2) else 0)
  {
    var after := orders[id := o2];
    assert after.Keys == orders.Keys;
    SumUpdate(orders.Keys, CommitmentsAt(orders, k), CommitmentsAt(after, k), id);
  }

  /** A row commits at least what each single order on it commits. */
  lemma CommittedCoversEach(orders: map<OrderId, Order>, id: OrderId)
    requires id in orders
    requires forall j :: j in orders ==> WellFormed(orders[j])
    ensures Committed(orders, LockKey(orders[id])) >= Commitment(orders[id])
  {
    var k := LockKey(orders[id]);
    forall j | j in orders.Keys ensures CommitmentsAt(orders, k)(j) >= 0 {
      CommitmentNonNegative(orders[j]);
    }
    SumAtLeastTerm(orders.Keys, CommitmentsAt(orders, k), id);
  }

  /** Under the invariant, the locked amount of an open order's row covers what it commits. */
  lemma LockedCoversOrder(bk: Books, id: OrderId)
    requires Inv(bk) && id in bk.orders && bk.orders[id].status == Open
    ensures bk.balances[LockKey(bk.orders[id])].locked >= Commitment(bk.orders[id])
  {
    CommittedCoversEach(bk.orders, id);
  }

  /** A new order whose commitment is added to the locked amount of its row keeps
      locked equal to committed. */
  lemma InsertKeepsLocked(m: Balances, orders: map<OrderId, Order>, id: OrderId, o: Order, m2: Balances)
    requires LockedIsCommitted(m, orders) && id !in orders
    requires m2.Keys == m.Keys
    requires forall j :: j in m ==> m2[j].locked == m[j].locked + (if LockKey(o) == j then Commitment(o) else 0)
    ensures LockedIsCommitted(m2, orders[id := o])
  {
    forall j | j in m2 ensures m2[j].locked == Committed(orders[id := o], j) {
      CommittedInsert(orders, id, o, j);
    }
  }

  /** An order replaced by o2 while the locked amounts change by the difference of
      their commitments keeps locked equal to committed. */
  lemma ReplaceKeepsLocked(m: Balances, orders: map<OrderId, Order>, id: OrderId, o2: Order, m2: Balances)
    requires LockedIsCommitted(m, orders) && id in orders
    requires m2.Keys == m.Keys
    requires forall j :: j in m ==>
      (m2[j].locked == m[j].locked
        - (if LockKey(orders[id]) == j then Commitment(orders[id]) else 0)
        + (if LockKey(o2) == j then Commitment(o2) else 0))
    ensures LockedIsCommitted(m2, orders[id := o2])
  {
    forall j | j in m2 ensures m2[j].locked == Committed(orders[id := o2], j) {
      CommittedReplace(orders, id, o2, j);
    }
  }

  /** Creating a zero row keeps the invariant: no open order can lock a row that
      did not exist. */
  lemma EnsureKeepsInv(bk: Books, k: Key)
    requires Inv(bk)
    ensures Inv(bk.(balances := Ensure(bk.balances, k)))
  {
    if k !in bk.balances {
      CommittedNone(bk.orders, k);
    }
  }

  lemma EnsureRowsKeepsInv(bk: Books, taker: Address, owner: Address, base: AssetCode, quote: AssetCode)
    requires Inv(bk)
    ensures Inv(bk.(balances := EnsureRows(bk.balances, taker, owner, base, quote)))
  {
    var m1 := Ensure(bk.balances, Key(taker, base));
    EnsureKeepsInv(bk, Key(taker, base));
    var m2 := Ensure(m1, Key(taker, quote));
    EnsureKeepsInv(bk.(balances := m1), Key(taker, quote));
    var m3 := Ensure(m2, Key(owner, base));
    EnsureKeepsInv(bk.(balances := m2), Key(owner, base));
    EnsureKeepsInv(bk.(balances := m3), Key(owner, quote));
  }

  lemma EnsureRowsOnlyZeroRows(m: Balances, taker: Address, owner: Address, base: AssetCode, quote: AssetCode)
    ensures OnlyZeroRowsAdded(m, EnsureRows(m, taker, owner, base, quote))
  {
    var m1 := Ensure(m, Key(taker, base));
    var m2 := Ensure(m1, Key(taker, quote));
    var m3 := Ensure(m2, Key(owner, base));
    OnlyZeroRowsAddedTrans(m, m1, m2);
    OnlyZeroRowsAddedTrans(m, m2, m3);
    OnlyZeroRowsAddedTrans(m, m3, Ensure(m3, Key(owner, quote)));
  }

  lemma EnsureRowsKeepsTotal(m: Balances, taker: Address, owner: Address, base: AssetCode, quote: AssetCode, a: AssetCode)
    ensures Total(EnsureRows(m, taker, owner, base, quote), a) == Total(m, a)
  {
    var m1 := Ensure(m, Key(taker, base));
    var m2 := Ensure(m1, Key(taker, quote));
    var m3 := Ensure(m2, Key(owner, base));
    EnsureKeepsTotal(m, Key(taker, base), a);
    EnsureKeepsTotal(m1, Key(taker, quote), a);
    EnsureKeepsTotal(m2, Key(owner, base), a);
    EnsureKeepsTotal(m3, Key(owner, quote), a);
  }

  /** A new open order whose commitment moves from available to locked on its
      row keeps the invariant, when the row has that much available. */
  lemma InsertOrderKeepsInv(bk: Books, o: Order, m2: Balances)
    requires Inv(bk) && o.orderId !in bk.orders
    requires WellFormed(o) && o.status == Open && LockKey(o) in bk.balances
    requires bk.balances[LockKey(o)].available >= Commitment(o)
    requires m2 == Patch(bk.balances, LockKey(o), -Commitment(o), Commitment(o))
    ensures Inv(Books(m2, bk.orders[o.orderId := o], bk.trades))
  {
    var orders2 := bk.orders[o.orderId := o];
    CommitmentNonNegative(o);
    assert NonNegative(m2);
    assert OrdersOk(orders2) by {
      forall id | id in orders2 ensures orders2[id].orderId == id && WellFormed(orders2[id]) {
        if id != o.orderId {
          assert orders2[id] == bk.orders[id];
        }
      }
    }
    assert LocksExist(m2, orders2) by {
      forall id | id in orders2 && orders2[id].status == Open ensures LockKey(orders2[id]) in m2 {
        if id != o.orderId {
          assert orders2[id] == bk.orders[id];
        }
      }
    }
    InsertKeepsLocked(bk.balances, bk.orders, o.orderId, o, m2);
  }

  /** Replacing order id by o2, while the locked amounts change by the difference
      of the two commitments and any trade added is well formed, keeps the invariant. */
  lemma ReplaceOrderKeepsInv(bk: Books, id: OrderId, o2: Order, m2: Balances, trades2: map<TradeId, Trade>)
    requires Inv(bk) && id in bk.orders && bk.orders[id].status == Open
    requires o2.orderId == id && WellFormed(o2) && LockKey(o2) == LockKey(bk.orders[id])
    requires m2.Keys == bk.balances.Keys && NonNegative(m2)
    requires forall j :: j in bk.balances ==>
      (m2[j].locked == bk.balances[j].locked
        - (if j == LockKey(o2) then Commitment(bk.orders[id]) - Commitment(o2) else 0))
    requires TradesOk(trades2)
    ensures Inv(Books(m2, bk.orders[id := o2], trades2))
  {
    var orders2 := bk.orders[id := o2];
    assert OrdersOk(orders2) by {
      forall j | j in orders2 ensures orders2[j].orderId == j && WellFormed(orders2[j]) {
        if j != id {
          assert orders2[j] == bk.orders[j];
        }
      }
    }
    assert LocksExist(m2, orders2) by {
      forall j | j in orders2 && orders2[j].status == Open ensures LockKey(orders2[j]) in m2 {
        if j != id {
          assert orders2[j] == bk.orders[j];
        }
      }
    }
    ReplaceKeepsLocked(bk.balances, bk.orders, id, o2, m2);
  }

  // ---------------------------------------------------------------- placing keeps the invariant

  /** sell, as intended, keeps the accounting invariant. */
  lemma SellKeepsInv(assets: map<AssetCode, Asset>, bk: Books, req: PlaceRequest, newId: OrderId)
    requires Inv(bk)
    ensures Inv(SellSpec(Corrected, assets, bk, req, newId).books)
  {
    var k := Key(req.owner, req.base);
    var m1 := Ensure(bk.balances, k);
    if && !Missing(req) && req.base in assets && req.quote in assets
       && assets[req.base].active && assets[req.quote].active
       && req.amountBase > 0 && req.price > 0
    {
      EnsureKeepsInv(bk, k);
      if m1[k].available >= req.amountBase && newId !in bk.orders {
        var o := Order(newId, req.owner, Sell, req.base, req.quote, req.amountBase, 0, req.price, Open);
        InsertOrderKeepsInv(bk.(balances := m1), o, Patch(m1, k, -req.amountBase, req.amountBase));
      }
    }
  }

  /** buyOpen keeps the accounting invariant. */
  lemma BuyOpenKeepsInv(assets: map<AssetCode, Asset>, bk: Books, req: PlaceRequest, newId: OrderId)
    requires Inv(bk)
    ensures Inv(BuyOpenSpec(assets, bk, req, newId).books)
  {
    var e := BuyOpenSpec(assets, bk, req, newId);
    if && !Missing(req) && req.base in assets && req.quote in assets
       && assets[req.base].active && assets[req.quote].active
       && req.amountBase > 0 && req.price > 0
    {
      var kb, kq := Key(req.owner, req.base), Key(req.owner, req.quote);
      var m0 := Ensure(bk.balances, kb);
      var m1 := Ensure(m0, kq);
      var need := req.amountBase * req.price;
      EnsureKeepsInv(bk, kb);
      EnsureKeepsInv(bk.(balances := m0), kq);
      if m1[kq].available < need {
        assert e.books == bk.(balances := m1);
      } else if newId in bk.orders {
        assert e.books == bk;
      } else {
        var o := Order(newId, req.owner, Buy, req.base, req.quote, req.amountBase, 0, req.price, Open);
        var m2 := Patch(m1, kq, -need, need);
        assert e.books == Books(m2, bk.orders[newId := o], bk.trades);
        CommitmentOfNew(o);
        InsertOrderKeepsInv(bk.(balances := m1), o, m2);
      }
    } else {
      assert e.books == bk;
    }
  }

  // ---------------------------------------------------------------- cancelling keeps the invariant

  /** Releasing an open order moves exactly its commitment from locked back to available. */
  lemma ReleaseIsUnlock(m: Balances, o: Order)
    requires WellFormed(o) && o.status == Open
    ensures Commitment(o) > 0
    ensures Release(m, o) == Patch(m, LockKey(o), Commitment(o), -Commitment(o))
  {
    if o.side == Buy {
      MulPositive(Remaining(o), o.price);
    }
  }

  /** cancelOrder keeps the accounting invariant. */
  lemma CancelKeepsInv(bk: Books, orderId: OrderId)
    requires Inv(bk)
    ensures Inv(CancelSpec(bk, orderId).books)
  {
    var e := CancelSpec(bk, orderId);
    if orderId in bk.orders && bk.orders[orderId].status == Open {
      var o := bk.orders[orderId];
      var c := Commitment(o);
      var m2 := Release(bk.balances, o);
      assert e.books == Books(m2, bk.orders[orderId := o.(status := Cancelled)], bk.trades);
      ReleaseIsUnlock(bk.balances, o);
      LockedCoversOrder(bk, orderId);
      ReplaceOrderKeepsInv(bk, orderId, o.(status := Cancelled), m2, bk.trades);
    } else {
      assert e.books == bk;
    }
  }

  // ---------------------------------------------------------------- filling keeps the invariant

  /** A fill takes exactly the filled amount off what the order commits (at its
      price for a BUY) and leaves it well formed on the same row. */
  lemma SettleCommitment(o: Order, fill: int)
    requires WellFormed(o) && o.status == Open && 0 < fill <= Remaining(o)
    ensures WellFormed(Settle(o, fill)) && LockKey(Settle(o, fill)) == LockKey(o)
    ensures Commitment(o) - Commitment(Settle(o, fill)) == if o.side == Sell then fill else fill * o.price
  {
    if o.side == Buy {
      MulSplit(Remaining(o), fill, o.price);
    }
  }

  /** The four legs of buyFromOrder row by row, when the four rows exist. */
  lemma BuyLegsAt(m: Balances, buyer: Address, seller: Address, base: AssetCode, quote: AssetCode, fill: int, cost: int)
    requires Key(buyer, base) in m && Key(buyer, quote) in m && Key(seller, base) in m && Key(seller, quote) in m
    ensures BuyLegs(m, buyer, seller, base, quote, fill, cost).Keys == m.Keys
    ensures forall j :: j in m ==> (BuyLegs(m, buyer, seller, base, quote, fill, cost)[j] ==
      Balance(m[j].available
                - (if j == Key(buyer, quote) then cost else 0)
                + (if j == Key(buyer, base) then fill else 0)
                + (if j == Key(seller, quote) then cost else 0),
              m[j].locked - (if j == Key(seller, base) then fill else 0)))
  {
  }

  /** The four legs of sellFromOrder row by row, when the four rows exist. */
  lemma SellLegsAt(m: Balances, seller: Address, buyer: Address, base: AssetCode, quote: AssetCode, fill: int, q: int)
    requires Key(seller, base) in m && Key(buyer, base) in m && Key(buyer, quote) in m && Key(seller, quote) in m
    ensures SellLegs(m, seller, buyer, base, quote, fill, q).Keys == m.Keys
    ensures forall j :: j in m ==> (SellLegs(m, seller, buyer, base, quote, fill, q)[j] ==
      Balance(m[j].available
                - (if j == Key(seller, base) then fill else 0)
                + (if j == Key(buyer, base) then fill else 0)
                + (if j == Key(seller, quote) then q else 0),
              m[j].locked - (if j == Key(buyer, quote) then q else 0)))
  {
  }

  /** The legs of buyFromOrder keep every amount non-negative when the buyer's
      quote covers the cost and the seller's locked base covers the fill. */
  lemma BuyLegsNonNegative(m: Balances, buyer: Address, seller: Address, base: AssetCode, quote: AssetCode, fill: int, cost: int)
    requires NonNegative(m) && 0 < fill && 0 < cost
    requires Key(buyer, base) in m && Key(buyer, quote) in m && Key(seller, base) in m && Key(seller, quote) in m
    requires m[Key(buyer, quote)].available >= cost && m[Key(seller, base)].locked >= fill
    ensures NonNegative(BuyLegs(m, buyer, seller, base, quote, fill, cost))
  {
    BuyLegsAt(m, buyer, seller, base, quote, fill, cost);
  }

  /** The legs of sellFromOrder keep every amount non-negative when the seller's
      base covers the fill and the buyer's locked quote covers the payment. */
  lemma SellLegsNonNegative(m: Balances, seller: Address, buyer: Address, base: AssetCode, quote: AssetCode, fill: int, q: int)
    requires NonNegative(m) && 0 < fill && 0 < q
    requires Key(seller, base) in m && Key(buyer, base) in m && Key(buyer, quote) in m && Key(seller, quote) in m
    requires m[Key(seller, base)].available >= fill && m[Key(buyer, quote)].locked >= q
    ensures NonNegative(SellLegs(m, seller, buyer, base, quote, fill, q))
  {
    SellLegsAt(m, seller, buyer, base, quote, fill, q);
  }

  /** buyFromOrder, as intended, keeps the accounting invariant. */
  lemma BuyFromOrderKeepsInv(bk: Books, req: FillRequest, tradeId: TradeId)
    requires Inv(bk)
    ensures Inv(BuyFromOrderSpec(Corrected, bk, req, tradeId).books)
  {
    var e := BuyFromOrderSpec(Corrected, bk, req, tradeId);
    if req.taker == "" {
      assert e.books == bk;
    } else {
      match PlanBuy(Corrected, bk.orders, req)
      case Err(_) =>
        assert e.books == bk;
      case Ok(p) =>
        var o := p.order;
        var buyer, seller := req.taker, o.owner;
        var m1 := EnsureRows(bk.balances, buyer, seller, o.base, o.quote);
        EnsureRowsKeepsInv(bk, buyer, seller, o.base, o.quote);
        if m1[Key(buyer, o.quote)].available < p.counter || m1[Key(seller, o.base)].locked < p.fill {
          assert e.books == bk.(balances := m1);
        } else if tradeId in bk.trades {
          assert e.books == bk;
        } else {
          var settled := Settle(o, p.fill);
          var t := Trade(tradeId, o.orderId, buyer, seller, o.base, o.quote, p.fill, o.price, p.counter);
          var m2 := BuyLegs(m1, buyer, seller, o.base, o.quote, p.fill, p.counter);
          assert e.books == Books(m2, bk.orders[req.orderId := settled], bk.trades[tradeId := t]);
          FillSellOrderKeepsInv(bk.(balances := m1), req.orderId, p.fill, t);
        }
    }
  }

  /** sellFromOrder, as intended, keeps the accounting invariant. */
  lemma SellFromOrderKeepsInv(bk: Books, req: FillRequest, tradeId: TradeId)
    requires Inv(bk)
    ensures Inv(SellFromOrderSpec(Corrected, bk, req, tradeId).books)
  {
    var e := SellFromOrderSpec(Corrected, bk, req, tradeId);
    if req.taker == "" {
      assert e.books == bk;
    } else {
      match PlanSell(Corrected, bk.orders, req)
      case Err(_) =>
        assert e.books == bk;
      case Ok(p) =>
        var o := p.order;
        var seller, buyer := req.taker, o.owner;
        var m1 := EnsureRows(bk.balances, seller, buyer, o.base, o.quote);
        EnsureRowsKeepsInv(bk, seller, buyer, o.base, o.quote);
        if m1[Key(seller, o.base)].available < p.fill || m1[Key(buyer, o.quote)].locked < p.counter {
          assert e.books == bk.(balances := m1);
        } else if tradeId in bk.trades {
          assert e.books == bk;
        } else {
          var settled := Settle(o, p.fill);
          var t := Trade(tradeId, o.orderId, buyer, seller, o.base, o.quote, p.fill, o.price, p.counter);
          var m2 := SellLegs(m1, seller, buyer, o.base, o.quote, p.fill, p.counter);
          assert e.books == Books(m2, bk.orders[req.orderId := settled], bk.trades[tradeId := t]);
          FillBuyOrderKeepsInv(bk.(balances := m1), req.orderId, p.fill, t);
        }
    }
  }

  /** Recording a well-formed trade under its own fresh id keeps the trades table well formed. */
  lemma AddTradeKeepsOk(trades: map<TradeId, Trade>, t: Trade)
    requires TradesOk(trades) && TradeWellFormed(t)
    ensures TradesOk(trades[t.tradeId := t])
  {
    var trades2 := trades[t.tradeId := t];
    forall j | j in trades2 ensures trades2[j].tradeId == j && TradeWellFormed(trades2[j]) {
      if j != t.tradeId {
        assert trades2[j] == trades[j];
      }
    }
  }

  /** A fill of an open SELL order by another address whose quote covers the cost:
      the seller's locked base drops by the fill, the rest moves between available
      amounts, and the trade is recorded. */
  lemma FillSellOrderKeepsInv(bk: Books, id: OrderId, fill: int, t: Trade)
    requires Inv(bk) && id in bk.orders
    requires var o := bk.orders[id];
      && o.status == Open && o.side == Sell && 0 < fill <= Remaining(o)
      && t == Trade(t.tradeId, id, t.buyer, o.owner, o.base, o.quote, fill, o.price, fill * o.price)
      && t.buyer != o.owner
      && Key(t.buyer, o.base) in bk.balances && Key(t.buyer, o.quote) in bk.balances
      && Key(o.owner, o.quote) in bk.balances
      && bk.balances[Key(t.buyer, o.quote)].available >= fill * o.price
    ensures var o := bk.orders[id];
      Inv(Books(BuyLegs(bk.balances, t.buyer, o.owner, o.base, o.quote, fill, fill * o.price),
                bk.orders[id := Settle(o, fill)], bk.trades[t.tradeId := t]))
  {
    var o := bk.orders[id];
    var q := fill * o.price;
    var m2 := BuyLegs(bk.balances, t.buyer, o.owner, o.base, o.quote, fill, q);
    var o2 := Settle(o, fill);
    MulPositive(fill, o.price);
    SettleCommitment(o, fill);
    CommitmentNonNegative(o2);
    LockedCoversOrder(bk, id);
    assert LockKey(o) == Key(o.owner, o.base) == LockKey(o2);
    assert bk.balances[Key(o.owner, o.base)].locked >= fill;
    BuyLegsAt(bk.balances, t.buyer, o.owner, o.base, o.quote, fill, q);
    BuyLegsNonNegative(bk.balances, t.buyer, o.owner, o.base, o.quote, fill, q);
    forall j | j in bk.balances
      ensures m2[j].locked == bk.balances[j].locked - (if j == LockKey(o2) then Commitment(o) - Commitment(o2) else 0)
    {
    }
    AddTradeKeepsOk(bk.trades, t);
    ReplaceOrderKeepsInv(bk, id, o2, m2, bk.trades[t.tradeId := t]);
  }

  /** A fill of an open BUY order by another address whose base covers the fill:
      the buyer's locked quote drops by the fill at the order's price, the rest
      moves between available amounts, and the trade is recorded. */
  lemma FillBuyOrderKeepsInv(bk: Books, id: OrderId, fill: int, t: Trade)
    requires Inv(bk) && id in bk.orders
    requires var o := bk.orders[id];
      && o.status == Open && o.side == Buy && 0 < fill <= Remaining(o)
      && t == Trade(t.tradeId, id, o.owner, t.seller, o.base, o.quote, fill, o.price, fill * o.price)
      && t.seller != o.owner
      && Key(t.seller, o.base) in bk.balances && Key(t.seller, o.quote) in bk.balances
      && Key(o.owner, o.base) in bk.balances
      && bk.balances[Key(t.seller, o.base)].available >= fill
    ensures var o := bk.orders[id];
      Inv(Books(SellLegs(bk.balances, t.seller, o.owner, o.base, o.quote, fill, fill * o.price),
                bk.orders[id := Settle(o, fill)], bk.trades[t.tradeId := t]))
  {
    var o := bk.orders[id];
    var q := fill * o.price;
    var m2 := SellLegs(bk.balances, t.seller, o.owner, o.base, o.quote, fill, q);
    var o2 := Settle(o, fill);
    MulPositive(fill, o.price);
    SettleCommitment(o, fill);
    CommitmentNonNegative(o2);
    LockedCoversOrder(bk, id);
    assert LockKey(o) == Key(o.owner, o.quote) == LockKey(o2);
    assert bk.balances[Key(o.owner, o.quote)].locked >= q;
    SellLegsAt(bk.balances, t.seller, o.owner, o.base, o.quote, fill, q);
    SellLegsNonNegative(bk.balances, t.seller, o.owner, o.base, o.quote, fill, q);
    forall j | j in bk.balances
      ensures m2[j].locked == bk.balances[j].locked - (if j == LockKey(o2) then Commitment(o) - Commitment(o2) else 0)
    {
    }
    AddTradeKeepsOk(bk.trades, t);
    ReplaceOrderKeepsInv(bk, id, o2, m2, bk.trades[t.tradeId := t]);
  }

  // ---------------------------------------------------------------- what each handler does

  /** A rejected request writes no order, no trade and no block, and the only
      balance rows it may leave behind are new zero rows. */
  predicate Rejected(bk: Books, e: Effect)
  {
    e.reply.Err? ==>
      e.entries == [] && e.books.orders == bk.orders && e.books.trades == bk.trades
      && OnlyZeroRowsAdded(bk.balances, e.books.balances)
  }

  /** The asset checks of sell and buyOpen. */
  predicate AssetsOk(assets: map<AssetCode, Asset>, req: PlaceRequest)
  {
    req.base in assets && req.quote in assets && assets[req.base].active && assets[req.quote].active
  }

  /** sell: a missing field or an unknown or inactive asset is refused, and so,
      as intended, is a non-positive amount or price; short funds are refused;
      otherwise amountBase moves from available to locked on the owner's base row
      and a new OPEN order with nothing filled is stored under the fresh id. */
  lemma SellOutcome(rule: Rule, assets: map<AssetCode, Asset>, bk: Books, req: PlaceRequest, newId: OrderId)
    ensures var e := SellSpec(rule, assets, bk, req, newId);
      && Rejected(bk, e)
      && (Missing(req) ==> e.reply == Err(MissingFields))
      && (!Missing(req) && !AssetsOk(assets, req) ==> e.reply == Err(Internal))
      && (!Missing(req) && AssetsOk(assets, req) && rule == Corrected && !(req.amountBase > 0 && req.price > 0)
          ==> e.reply == Err(InvalidAmountOrPrice))
      && (!Missing(req) && AssetsOk(assets, req) && (rule == Corrected ==> req.amountBase > 0 && req.price > 0)
          && Row(bk.balances, Key(req.owner, req.base)).available < req.amountBase
          ==> e.reply == Err(InsufficientFunds(Row(bk.balances, Key(req.owner, req.base)).available, req.amountBase)))
      && (!Missing(req) && AssetsOk(assets, req) && (rule == Corrected ==> req.amountBase > 0 && req.price > 0)
          && Row(bk.balances, Key(req.owner, req.base)).available >= req.amountBase && newId in bk.orders
          ==> e.reply == Err(Internal))
      && (e.reply.Ok? <==>
            && !Missing(req) && AssetsOk(assets, req)
            && (rule == Corrected ==> req.amountBase > 0 && req.price > 0)
            && Row(bk.balances, Key(req.owner, req.base)).available >= req.amountBase
            && newId !in bk.orders)
  {
    var e := SellSpec(rule, assets, bk, req, newId);
    var k := Key(req.owner, req.base);
    assert OnlyZeroRowsAdded(bk.balances, Ensure(bk.balances, k));
  }

  lemma SellPlaced(rule: Rule, assets: map<AssetCode, Asset>, bk: Books, req: PlaceRequest, newId: OrderId)
    ensures var e := SellSpec(rule, assets, bk, req, newId);
      var k := Key(req.owner, req.base);
      var o := Order(newId, req.owner, Sell, req.base, req.quote, req.amountBase, 0, req.price, Open);
      e.reply.Ok? ==>
        && e.reply == Ok(Placed(o)) && e.entries == []
        && e.books.orders == bk.orders[newId := o] && e.books.trades == bk.trades
        && e.books.balances.Keys == bk.balances.Keys + {k}
        && e.books.balances[k] == Balance(Row(bk.balances, k).available - req.amountBase,
                                          Row(bk.balances, k).locked + req.amountBase)
        && (forall j :: j in bk.balances && j != k ==> e.books.balances[j] == bk.balances[j])
  {
  }

  /** buyOpen: missing fields, unknown assets, inactive assets and non-positive
      amounts are refused in that order, as is short quote; otherwise
      amountBase * price of quote moves from available to locked on the owner's
      quote row, the owner's base row exists, and a new OPEN BUY order is stored. */
  lemma BuyOpenOutcome(assets: map<AssetCode, Asset>, bk: Books, req: PlaceRequest, newId: OrderId)
    ensures var e := BuyOpenSpec(assets, bk, req, newId);
      && Rejected(bk, e)
      && (Missing(req) ==> e.reply == Err(MissingFields))
      && (!Missing(req) && (req.base !in assets || req.quote !in assets) ==> e.reply == Err(AssetNotFound))
      && (!Missing(req) && req.base in assets && req.quote in assets && !AssetsOk(assets, req)
          ==> e.reply == Err(AssetInactive))
      && (!Missing(req) && AssetsOk(assets, req) && !(req.amountBase > 0 && req.price > 0)
          ==> e.reply == Err(InvalidAmountOrPrice))
      && (!Missing(req) && AssetsOk(assets, req) && req.amountBase > 0 && req.price > 0
          && Row(bk.balances, Key(req.owner, req.quote)).available < req.amountBase * req.price
          ==> e.reply == Err(InsufficientFunds(Row(bk.balances, Key(req.owner, req.quote)).available,
                                               req.amountBase * req.price)))
      && (!Missing(req) && AssetsOk(assets, req) && req.amountBase > 0 && req.price > 0
          && Row(bk.balances, Key(req.owner, req.quote)).available >= req.amountBase * req.price
          && newId in bk.orders
          ==> e.reply == Err(Internal))
      && (e.reply.Ok? <==>
            && !Missing(req) && AssetsOk(assets, req) && req.amountBase > 0 && req.price > 0
            && Row(bk.balances, Key(req.owner, req.quote)).available >= req.amountBase * req.price
            && newId !in bk.orders)
  {
    var kb, kq := Key(req.owner, req.base), Key(req.owner, req.quote);
    var m0 := Ensure(bk.balances, kb);
    assert OnlyZeroRowsAdded(bk.balances, m0);
    assert OnlyZeroRowsAdded(m0, Ensure(m0, kq));
    OnlyZeroRowsAddedTrans(bk.balances, m0, Ensure(m0, kq));
  }

  lemma BuyOpenPlaced(assets: map<AssetCode, Asset>, bk: Books, req: PlaceRequest, newId: OrderId)
    ensures var e := BuyOpenSpec(assets, bk, req, newId);
      var kb, kq := Key(req.owner, req.base), Key(req.owner, req.quote);
      var need := req.amountBase * req.price;
      var o := Order(newId, req.owner, Buy, req.base, req.quote, req.amountBase, 0, req.price, Open);
      e.reply.Ok? ==>
        && e.reply == Ok(Placed(o)) && e.entries == []
        && e.books.orders == bk.orders[newId := o] && e.books.trades == bk.trades
        && e.books.balances.Keys == bk.balances.Keys + {kb, kq}
        && e.books.balances[kq] == Balance(Row(bk.balances, kq).available - need, Row(bk.balances, kq).locked + need)
        && (kb != kq ==> e.books.balances[kb] == Row(bk.balances, kb))
        && (forall j :: j in bk.balances && j != kq ==> e.books.balances[j] == bk.balances[j])
  {
  }

  /** A fill that succeeded: the plan behind it and everything it wrote. */
  predicate FilledAs(bk: Books, req: FillRequest, tradeId: TradeId, side: Side, e: Effect)
    requires e.reply.Ok? && req.orderId in bk.orders
  {
    var o := bk.orders[req.orderId];
    var buyer := if side == Sell then req.taker else o.owner;
    var seller := if side == Sell then o.owner else req.taker;
    && e.reply.value.Filled?
    && var f := e.reply.value; var fill := f.summary.filled; var q := fill * o.price;
    && 0 < fill <= Remaining(o)
    && f.summary.requested == req.amountBase.GetOr(Remaining(o))
    && fill == Min(f.summary.requested, Remaining(o))
    && (f.summary.completed <==> fill == f.summary.requested)
    && f.summary.price == o.price && f.summary.counterAmount == q
    && f.order == Settle(o, fill)
    && f.order.filled == o.filled + fill
    && (f.order.status == Complete <==> f.order.filled == o.amountBase)
    && e.books.orders == bk.orders[req.orderId := f.order]
    && var m1 := EnsureRows(bk.balances, req.taker, o.owner, o.base, o.quote);
    && e.books.balances == (if side == Sell then BuyLegs(m1, buyer, seller, o.base, o.quote, fill, q)
                            else SellLegs(m1, seller, buyer, o.base, o.quote, fill, q))
    && tradeId !in bk.trades
    && f.trade == Trade(tradeId, o.orderId, buyer, seller, o.base, o.quote, fill, o.price, q)
    && e.books.trades == bk.trades[tradeId := f.trade]
    && e.entries == TradeEntries(f.order, seller, buyer, fill, q)
    && |e.entries| == (if f.order.status == Complete then 3 else 2)
  }

  /** buyFromOrder: the guards in order; once the plan stands, the rows are
      created and short quote of the buyer or short locked base of the seller is
      refused. */
  lemma BuyFromOrderGuards(rule: Rule, bk: Books, req: FillRequest, tradeId: TradeId)
    ensures var e := BuyFromOrderSpec(rule, bk, req, tradeId);
      && (req.taker == "" ==> e.reply == Err(MissingFields))
      && (req.taker != "" && req.orderId !in bk.orders ==> e.reply == Err(OrderNotFound))
      && (req.taker != "" && req.orderId in bk.orders && !Admits(rule, bk.orders[req.orderId], Sell)
          ==> e.reply == Err(OrderNotOpenSell))
      && (req.taker != "" && req.orderId in bk.orders && Admits(rule, bk.orders[req.orderId], Sell)
          && bk.orders[req.orderId].owner == req.taker
          ==> e.reply == Err(CannotBuyOwnOrder))
      && (req.taker != "" && req.orderId in bk.orders ==>
            var o := bk.orders[req.orderId];
            Admits(rule, o, Sell) && o.owner != req.taker ==>
              && (Remaining(o) <= 0 ==> e.reply == Err(OrderAlreadyComplete))
              && (Remaining(o) > 0 && req.amountBase.GetOr(Remaining(o)) <= 0 ==> e.reply == Err(InvalidAmount))
              && (Remaining(o) > 0 && req.amountBase.GetOr(Remaining(o)) > 0 && o.price <= 0
                  ==> e.reply == Err(InvalidPrice)))
      && (req.taker != "" && PlanBuy(rule, bk.orders, req).Ok? ==>
            var p := PlanBuy(rule, bk.orders, req).value;
            var avail := Row(bk.balances, Key(req.taker, p.order.quote)).available;
            var locked := Row(bk.balances, Key(p.order.owner, p.order.base)).locked;
            && (avail < p.counter ==> e.reply == Err(InsufficientFunds(avail, p.counter)))
            && (avail >= p.counter && locked < p.fill ==> e.reply == Err(SellLockedNotEnough(locked, p.fill)))
            && (avail >= p.counter && locked >= p.fill && tradeId in bk.trades ==> e.reply == Err(Internal)))
  {
  }

  /** A refused buyFromOrder writes nothing but zero rows. */
  lemma BuyFromOrderRejected(rule: Rule, bk: Books, req: FillRequest, tradeId: TradeId)
    ensures Rejected(bk, BuyFromOrderSpec(rule, bk, req, tradeId))
  {
    if req.taker != "" && PlanBuy(rule, bk.orders, req).Ok? {
      var o := PlanBuy(rule, bk.orders, req).value.order;
      EnsureRowsOnlyZeroRows(bk.balances, req.taker, o.owner, o.base, o.quote);
    }
  }

  /** A buyFromOrder that succeeded filled an admitted SELL order of another
      address, as FilledAs states. */
  lemma BuyFromOrderFilled(rule: Rule, bk: Books, req: FillRequest, tradeId: TradeId)
    ensures var e := BuyFromOrderSpec(rule, bk, req, tradeId);
      e.reply.Ok? ==>
        && req.taker != "" && req.orderId in bk.orders
        && Admits(rule, bk.orders[req.orderId], Sell) && bk.orders[req.orderId].owner != req.taker
        && FilledAs(bk, req, tradeId, Sell, e)
  {
  }

  /** buyFromOrder succeeds exactly when every guard passes: the plan stands, the
      buyer's available quote covers the cost, the seller's locked base covers the
      fill, and the trade id is new. */
  lemma BuyFromOrderSucceeds(rule: Rule, bk: Books, req: FillRequest, tradeId: TradeId)
    ensures BuyFromOrderSpec(rule, bk, req, tradeId).reply.Ok? <==>
      && req.taker != "" && PlanBuy(rule, bk.orders, req).Ok?
      && var p := PlanBuy(rule, bk.orders, req).value;
      && Row(bk.balances, Key(req.taker, p.order.quote)).available >= p.counter
      && Row(bk.balances, Key(p.order.owner, p.order.base)).locked >= p.fill
      && tradeId !in bk.trades
  {
    if req.taker != "" && PlanBuy(rule, bk.orders, req).Ok? {
      var o := PlanBuy(rule, bk.orders, req).value.order;
      EnsureRowsRows(bk.balances, req.taker, o.owner, o.base, o.quote);
    }
  }


  /** sellFromOrder: the guards in order; once the plan stands, the rows are
      created and short base of the seller or short locked quote of the buyer is
      refused. */
  lemma SellFromOrderGuards(rule: Rule, bk: Books, req: FillRequest, tradeId: TradeId)
    ensures var e := SellFromOrderSpec(rule, bk, req, tradeId);
      && (req.taker == "" ==> e.reply == Err(MissingFields))
      && (req.taker != "" && req.orderId !in bk.orders ==> e.reply == Err(OrderNotFound))
      && (req.taker != "" && req.orderId in bk.orders && !Admits(rule, bk.orders[req.orderId], Buy)
          ==> e.reply == Err(OrderNotOpenBuy))
      && (req.taker != "" && req.orderId in bk.orders && Admits(rule, bk.orders[req.orderId], Buy)
          && bk.orders[req.orderId].owner == req.taker
          ==> e.reply == Err(CannotSellToOwnOrder))
      && (req.taker != "" && req.orderId in bk.orders ==>
            var o := bk.orders[req.orderId];
            Admits(rule, o, Buy) && o.owner != req.taker ==>
              && (o.price <= 0 ==> e.reply == Err(InvalidPrice))
              && (o.price > 0 && Remaining(o) <= 0 ==> e.reply == Err(OrderAlreadyComplete))
              && (o.price > 0 && Remaining(o) > 0 && req.amountBase.GetOr(Remaining(o)) <= 0
                  ==> e.reply == Err(InvalidAmount)))
      && (req.taker != "" && PlanSell(rule, bk.orders, req).Ok? ==>
            var p := PlanSell(rule, bk.orders, req).value;
            var avail := Row(bk.balances, Key(req.taker, p.order.base)).available;
            var locked := Row(bk.balances, Key(p.order.owner, p.order.quote)).locked;
            && (avail < p.fill ==> e.reply == Err(InsufficientBase(avail, p.fill)))
            && (avail >= p.fill && locked < p.counter ==> e.reply == Err(BuyLockedNotEnough(locked, p.counter)))
            && (avail >= p.fill && locked >= p.counter && tradeId in bk.trades ==> e.reply == Err(Internal)))
  {
  }

  /** A refused sellFromOrder writes nothing but zero rows. */
  lemma SellFromOrderRejected(rule: Rule, bk: Books, req: FillRequest, tradeId: TradeId)
    ensures Rejected(bk, SellFromOrderSpec(rule, bk, req, tradeId))
  {
    if req.taker != "" && PlanSell(rule, bk.orders, req).Ok? {
      var o := PlanSell(rule, bk.orders, req).value.order;
      EnsureRowsOnlyZeroRows(bk.balances, req.taker, o.owner, o.base, o.quote);
    }
  }

  /** A sellFromOrder that succeeded filled an admitted BUY order of another
      address, as FilledAs states. */
  lemma SellFromOrderFilled(rule: Rule, bk: Books, req: FillRequest, tradeId: TradeId)
    ensures var e := SellFromOrderSpec(rule, bk, req, tradeId);
      e.reply.Ok? ==>
        && req.taker != "" && req.orderId in bk.orders
        && Admits(rule, bk.orders[req.orderId], Buy) && bk.orders[req.orderId].owner != req.taker
        && FilledAs(bk, req, tradeId, Buy, e)
  {
  }

  /** sellFromOrder succeeds exactly when every guard passes: the plan stands, the
      seller's available base covers the fill, the buyer's locked quote covers the
      cost, and the trade id is new. */
  lemma SellFromOrderSucceeds(rule: Rule, bk: Books, req: FillRequest, tradeId: TradeId)
    ensures SellFromOrderSpec(rule, bk, req, tradeId).reply.Ok? <==>
      && req.taker != "" && PlanSell(rule, bk.orders, req).Ok?
      && var p := PlanSell(rule, bk.orders, req).value;
      && Row(bk.balances, Key(req.taker, p.order.base)).available >= p.fill
      && Row(bk.balances, Key(p.order.owner, p.order.quote)).locked >= p.counter
      && tradeId !in bk.trades
  {
    if req.taker != "" && PlanSell(rule, bk.orders, req).Ok? {
      var o := PlanSell(rule, bk.orders, req).value.order;
      EnsureRowsRows(bk.balances, req.taker, o.owner, o.base, o.quote);
    }
  }


  /** cancelOrder: only an OPEN order is cancelled; it becomes CANCELLED, what it
      still commits moves from locked back to available on its row, and no trade
      or block is written. Anything else changes nothing. */
  lemma CancelOutcome(bk: Books, orderId: OrderId)
    ensures var e := CancelSpec(bk, orderId);
      && (e.reply.Err? ==> e.books == bk && e.entries == [])
      && (orderId !in bk.orders ==> e.reply == Err(OrderNotFound))
      && (orderId in bk.orders && bk.orders[orderId].status != Open
          ==> e.reply == Err(OrderNotCancellable(bk.orders[orderId].status)))
      && (e.reply.Ok? <==> orderId in bk.orders && bk.orders[orderId].status == Open)
      && (e.reply.Ok? ==>
            var o := bk.orders[orderId];
            && e.reply == Ok(CancelAck(orderId)) && e.entries == [] && e.books.trades == bk.trades
            && e.books.orders == bk.orders[orderId := o.(status := Cancelled)]
            && (WellFormed(o) ==>
                  e.books.balances == Patch(bk.balances, LockKey(o), Commitment(o), -Commitment(o))))
  {
    if orderId in bk.orders && bk.orders[orderId].status == Open && WellFormed(bk.orders[orderId]) {
      ReleaseIsUnlock(bk.balances, bk.orders[orderId]);
    }
  }

  // ---------------------------------------------------------------- conservation

  /** The four legs of buyFromOrder conserve every asset held: quote moves buyer
      to seller, base leaves the seller's lock and arrives at the buyer. */
  lemma BuyLegsTotal(m: Balances, buyer: Address, seller: Address, base: AssetCode, quote: AssetCode, fill: int, cost: int, a: AssetCode)
    requires Key(buyer, base) in m && Key(buyer, quote) in m && Key(seller, base) in m && Key(seller, quote) in m
    ensures Total(BuyLegs(m, buyer, seller, base, quote, fill, cost), a) == Total(m, a)
  {
    var m2 := Patch(Patch(m, Key(buyer, quote), -cost, 0), Key(buyer, base), fill, 0);
    PatchTwiceTotal(m, Key(buyer, quote), -cost, 0, Key(buyer, base), fill, 0, a);
    PatchTwiceTotal(m2, Key(seller, base), 0, -fill, Key(seller, quote), cost, 0, a);
    assert BuyLegs(m, buyer, seller, base, quote, fill, cost)
      == Patch(Patch(m2, Key(seller, base), 0, -fill), Key(seller, quote), cost, 0);
  }

  /** The four legs of sellFromOrder conserve every asset held. */
  lemma SellLegsTotal(m: Balances, seller: Address, buyer: Address, base: AssetCode, quote: AssetCode, fill: int, q: int, a: AssetCode)
    requires Key(seller, base) in m && Key(buyer, base) in m && Key(buyer, quote) in m && Key(seller, quote) in m
    ensures Total(SellLegs(m, seller, buyer, base, quote, fill, q), a) == Total(m, a)
  {
    var m2 := Patch(Patch(m, Key(seller, base), -fill, 0), Key(buyer, base), fill, 0);
    PatchTwiceTotal(m, Key(seller, base), -fill, 0, Key(buyer, base), fill, 0, a);
    PatchTwiceTotal(m2, Key(buyer, quote), 0, -q, Key(seller, quote), q, 0, a);
    assert SellLegs(m, seller, buyer, base, quote, fill, q)
      == Patch(Patch(m2, Key(buyer, quote), 0, -q), Key(seller, quote), q, 0);
  }

  /** sell never changes how much of any asset is held, under either rule. */
  lemma SellConserves(rule: Rule, assets: map<AssetCode, Asset>, bk: Books, req: PlaceRequest, newId: OrderId, a: AssetCode)
    ensures Total(SellSpec(rule, assets, bk, req, newId).books.balances, a) == Total(bk.balances, a)
  {
    var e := SellSpec(rule, assets, bk, req, newId);
    var k := Key(req.owner, req.base);
    var m1 := Ensure(bk.balances, k);
    if !Missing(req) && AssetsOk(assets, req) && (rule == Corrected ==> req.amountBase > 0 && req.price > 0) {
      EnsureKeepsTotal(bk.balances, k, a);
      if m1[k].available < req.amountBase {
        assert e.books.balances == m1;
      } else if newId in bk.orders {
        assert e.books.balances == bk.balances;
      } else {
        assert e.books.balances == Patch(m1, k, -req.amountBase, req.amountBase);
        PatchTotal(m1, k, -req.amountBase, req.amountBase, a);
      }
    } else {
      assert e.books.balances == bk.balances;
    }
  }

  /** buyOpen never changes how much of any asset is held. */
  lemma BuyOpenConserves(assets: map<AssetCode, Asset>, bk: Books, req: PlaceRequest, newId: OrderId, a: AssetCode)
    ensures Total(BuyOpenSpec(assets, bk, req, newId).books.balances, a) == Total(bk.balances, a)
  {
    var e := BuyOpenSpec(assets, bk, req, newId);
    var kb, kq := Key(req.owner, req.base), Key(req.owner, req.quote);
    var m0 := Ensure(bk.balances, kb);
    var m1 := Ensure(m0, kq);
    var need := req.amountBase * req.price;
    if !Missing(req) && AssetsOk(assets, req) && req.amountBase > 0 && req.price > 0 {
      EnsureKeepsTotal(bk.balances, kb, a);
      EnsureKeepsTotal(m0, kq, a);
      if m1[kq].available < need {
        assert e.books.balances == m1;
      } else if newId in bk.orders {
        assert e.books.balances == bk.balances;
      } else {
        assert e.books.balances == Patch(m1, kq, -need, need);
        PatchTotal(m1, kq, -need, need, a);
      }
    } else {
      assert e.books.balances == bk.balances;
    }
  }

  /** buyFromOrder never changes how much of any asset is held, under either rule. */
  lemma BuyFromOrderConserves(rule: Rule, bk: Books, req: FillRequest, tradeId: TradeId, a: AssetCode)
    ensures Total(BuyFromOrderSpec(rule, bk, req, tradeId).books.balances, a) == Total(bk.balances, a)
  {
    var e := BuyFromOrderSpec(rule, bk, req, tradeId);
    if req.taker == "" || PlanBuy(rule, bk.orders, req).Err? {
      assert e.books == bk;
    } else {
      var p := PlanBuy(rule, bk.orders, req).value;
      var o := p.order;
      var m1 := EnsureRows(bk.balances, req.taker, o.owner, o.base, o.quote);
      EnsureRowsKeepsTotal(bk.balances, req.taker, o.owner, o.base, o.quote, a);
      if m1[Key(req.taker, o.quote)].available < p.counter || m1[Key(o.owner, o.base)].locked < p.fill {
        assert e.books.balances == m1;
      } else if tradeId in bk.trades {
        assert e.books.balances == bk.balances;
      } else {
        assert e.books.balances == BuyLegs(m1, req.taker, o.owner, o.base, o.quote, p.fill, p.counter);
        BuyLegsTotal(m1, req.taker, o.owner, o.base, o.quote, p.fill, p.counter, a);
      }
    }
  }

  /** sellFromOrder never changes how much of any asset is held, under either rule. */
  lemma SellFromOrderConserves(rule: Rule, bk: Books, req: FillRequest, tradeId: TradeId, a: AssetCode)
    ensures Total(SellFromOrderSpec(rule, bk, req, tradeId).books.balances, a) == Total(bk.balances, a)
  {
    var e := SellFromOrderSpec(rule, bk, req, tradeId);
    if req.taker == "" || PlanSell(rule, bk.orders, req).Err? {
      assert e.books == bk;
    } else {
      var p := PlanSell(rule, bk.orders, req).value;
      var o := p.order;
      var m1 := EnsureRows(bk.balances, req.taker, o.owner, o.base, o.quote);
      EnsureRowsKeepsTotal(bk.balances, req.taker, o.owner, o.base, o.quote, a);
      if m1[Key(req.taker, o.base)].available < p.fill || m1[Key(o.owner, o.quote)].locked < p.counter {
        assert e.books.balances == m1;
      } else if tradeId in bk.trades {
        assert e.books.balances == bk.balances;
      } else {
        assert e.books.balances == SellLegs(m1, req.taker, o.owner, o.base, o.quote, p.fill, p.counter);
        SellLegsTotal(m1, req.taker, o.owner, o.base, o.quote, p.fill, p.counter, a);
      }
    }
  }

  /** cancelOrder never changes how much of any asset is held. */
  lemma CancelConserves(bk: Books, orderId: OrderId, a: AssetCode)
    ensures Total(CancelSpec(bk, orderId).books.balances, a) == Total(bk.balances, a)
  {
    if orderId in bk.orders && bk.orders[orderId].status == Open {
      var o := bk.orders[orderId];
      var r := Max(0, Remaining(o));
      PatchTotal(bk.balances, Key(o.owner, o.base), r, -r, a);
      PatchTotal(bk.balances, Key(o.owner, o.quote), r * o.price, -(r * o.price), a);
    }
  }

  // ---------------------------------------------------------------- the aggregate locked checks

  /** With only OPEN orders fillable, the check of the seller's aggregate locked
      base in buyFromOrder can never fail under the invariant: the row holds at
      least what the order itself still commits. */
  lemma SellLockedCheckRedundant(bk: Books, req: FillRequest, tradeId: TradeId)
    requires Inv(bk)
    ensures var r := BuyFromOrderSpec(Corrected, bk, req, tradeId).reply;
      !(r.Err? && r.error.SellLockedNotEnough?)
  {
    if req.taker != "" && PlanBuy(Corrected, bk.orders, req).Ok? {
      var p := PlanBuy(Corrected, bk.orders, req).value;
      var o := p.order;
      var m1 := EnsureRows(bk.balances, req.taker, o.owner, o.base, o.quote);
      EnsureRowsKeepsInv(bk, req.taker, o.owner, o.base, o.quote);
      LockedCoversOrder(bk.(balances := m1), req.orderId);
      assert m1[Key(o.owner, o.base)].locked >= p.fill;
    }
  }

  /** Likewise the check of the buyer's aggregate locked quote in sellFromOrder. */
  lemma BuyLockedCheckRedundant(bk: Books, req: FillRequest, tradeId: TradeId)
    requires Inv(bk)
    ensures var r := SellFromOrderSpec(Corrected, bk, req, tradeId).reply;
      !(r.Err? && r.error.BuyLockedNotEnough?)
  {
    if req.taker != "" && PlanSell(Corrected, bk.orders, req).Ok? {
      var p := PlanSell(Corrected, bk.orders, req).value;
      var o := p.order;
      var m1 := EnsureRows(bk.balances, req.taker, o.owner, o.base, o.quote);
      EnsureRowsKeepsInv(bk, req.taker, o.owner, o.base, o.quote);
      LockedCoversOrder(bk.(balances := m1), req.orderId);
      MulSplit(Remaining(o), p.fill, o.price);
      assert m1[Key(o.owner, o.quote)].locked >= p.counter;
    }
  }

  // ---------------------------------------------------------------- the order lifecycle

  /** One step of an order's life: nothing, or an OPEN order that fills further
      (staying OPEN or becoming COMPLETE) or is CANCELLED. COMPLETE and CANCELLED
      orders never change again. */
  predicate Evolves(o: Order, o2: Order)
  {
    o2 == o || (o.status == Open && o2 == o.(filled := o2.filled, status := o2.status) && o2.filled >= o.filled)
  }

  /** Orders are never removed, only evolve, and new ones start OPEN and unfilled. */
  predicate OrdersEvolve(orders: map<OrderId, Order>, orders2: map<OrderId, Order>)
  {
    && orders.Keys <= orders2.Keys
    && (forall id :: id in orders ==> Evolves(orders[id], orders2[id]))
    && (forall id :: id in orders2 && id !in orders ==> orders2[id].status == Open && orders2[id].filled == 0)
  }

  lemma InsertEvolves(orders: map<OrderId, Order>, o: Order)
    requires o.orderId !in orders && o.status == Open && o.filled == 0
    ensures OrdersEvolve(orders, orders[o.orderId := o])
  {
    var orders2 := orders[o.orderId := o];
    forall id | id in orders ensures Evolves(orders[id], orders2[id]) {
      assert orders2[id] == orders[id];
    }
  }

  lemma ReplaceEvolves(orders: map<OrderId, Order>, id: OrderId, o2: Order)
    requires id in orders && Evolves(orders[id], o2)
    ensures OrdersEvolve(orders, orders[id := o2])
  {
    var orders2 := orders[id := o2];
    forall j | j in orders ensures Evolves(orders[j], orders2[j]) {
      if j != id {
        assert orders2[j] == orders[j];
      }
    }
  }

  /** sell and buyOpen only add a new OPEN order. */
  lemma PlacingEvolves(rule: Rule, assets: map<AssetCode, Asset>, bk: Books, req: PlaceRequest, newId: OrderId)
    ensures OrdersEvolve(bk.orders, SellSpec(rule, assets, bk, req, newId).books.orders)
    ensures OrdersEvolve(bk.orders, BuyOpenSpec(assets, bk, req, newId).books.orders)
  {
    if newId !in bk.orders {
      InsertEvolves(bk.orders, Order(newId, req.owner, Sell, req.base, req.quote, req.amountBase, 0, req.price, Open));
      InsertEvolves(bk.orders, Order(newId, req.owner, Buy, req.base, req.quote, req.amountBase, 0, req.price, Open));
    }
  }

  /** As intended, a fill only moves its OPEN order further along. */
  lemma FillsEvolve(bk: Books, req: FillRequest, tradeId: TradeId)
    ensures OrdersEvolve(bk.orders, BuyFromOrderSpec(Corrected, bk, req, tradeId).books.orders)
    ensures OrdersEvolve(bk.orders, SellFromOrderSpec(Corrected, bk, req, tradeId).books.orders)
  {
    BuyFromOrderFilled(Corrected, bk, req, tradeId);
    SellFromOrderFilled(Corrected, bk, req, tradeId);
    BuyFromOrderRejected(Corrected, bk, req, tradeId);
    SellFromOrderRejected(Corrected, bk, req, tradeId);
    if req.orderId in bk.orders && bk.orders[req.orderId].status == Open {
      var o := bk.orders[req.orderId];
      forall fill | 0 < fill <= Remaining(o) ensures OrdersEvolve(bk.orders, bk.orders[req.orderId := Settle(o, fill)]) {
        ReplaceEvolves(bk.orders, req.orderId, Settle(o, fill));
      }
    }
  }

  /** cancelOrder only moves an OPEN order to CANCELLED. */
  lemma CancelEvolves(bk: Books, orderId: OrderId)
    ensures OrdersEvolve(bk.orders, CancelSpec(bk, orderId).books.orders)
  {
    if orderId in bk.orders && bk.orders[orderId].status == Open {
      ReplaceEvolves(bk.orders, orderId, bk.orders[orderId].(status := Cancelled));
    }
  }

  // ---------------------------------------------------------------- the findings, exhibited

  /** Seller S has two SELL orders of 10 X at price 1 in Y: O1, already cancelled,
      and O2, open, whose 10 X are all that S holds locked. B holds 100 Y. */
  function RefillBooks(): Books
  {
    var o1 := Order("O1", "S", Sell, "X", "Y", 10, 0, 1, Cancelled);
    var o2 := Order("O2", "S", Sell, "X", "Y", 10, 0, 1, Open);
    Books(map[Key("S", "X") := Balance(0, 10), Key("B", "Y") := Balance(100, 0)],
          map["O1" := o1, "O2" := o2],
          map[])
  }

  /** The commitments of those books: O2's 10 X on S's base row, nothing elsewhere. */
  lemma RefillBooksCommitted(k: Key)
    ensures Committed(RefillBooks().orders, k) == if k == Key("S", "X") then 10 else 0
  {
    var bk := RefillBooks();
    var o1, o2 := bk.orders["O1"], bk.orders["O2"];
    var none: map<OrderId, Order> := map[];
    var one := none["O1" := o1];
    assert none.Keys == {};
    assert bk.orders == one["O2" := o2];
    CommittedInsert(none, "O1", o1, k);
    CommittedInsert(one, "O2", o2, k);
  }

  lemma RefillBooksInv()
    ensures Inv(RefillBooks())
  {
    var bk := RefillBooks();
    forall k | k in bk.balances ensures bk.balances[k].locked == Committed(bk.orders, k) {
      RefillBooksCommitted(k);
    }
  }

  /** As written, a partial fill of a CANCELLED SELL order goes through whenever
      the buyer's quote and the seller's aggregate locked base cover it: the order
      is OPEN again, and the seller's locked base no longer equals what the open
      orders commit. */
  lemma CancelledOrderRefilled(bk: Books, req: FillRequest, tradeId: TradeId, f: int)
    requires Inv(bk) && req.taker != "" && req.orderId in bk.orders && req.amountBase == Some(f)
    requires var o := bk.orders[req.orderId];
      && o.status == Cancelled && o.side == Sell && o.owner != req.taker
      && 0 < f < Remaining(o)
      && Row(bk.balances, Key(req.taker, o.quote)).available >= f * o.price
      && Row(bk.balances, LockKey(o)).locked >= f
    requires tradeId !in bk.trades
    ensures var e := BuyFromOrderSpec(AsWritten, bk, req, tradeId);
      && e.reply.Ok?
      && e.books.orders[req.orderId].status == Open
      && !Evolves(bk.orders[req.orderId], e.books.orders[req.orderId])
      && !Inv(e.books)
  {
    var e := BuyFromOrderSpec(AsWritten, bk, req, tradeId);
    var o := bk.orders[req.orderId];
    var m1 := EnsureRows(bk.balances, req.taker, o.owner, o.base, o.quote);
    EnsureRowsKeepsInv(bk, req.taker, o.owner, o.base, o.quote);
    CancelledFillGoesThrough(bk, req, tradeId, f);
    BuyLegsAt(m1, req.taker, o.owner, o.base, o.quote, f, f * o.price);
    RefillBreaksLock(bk.(balances := m1), req.orderId, f, e.books.balances, e.books.trades);
  }

  /** The effect of such a fill, as written. */
  lemma CancelledFillGoesThrough(bk: Books, req: FillRequest, tradeId: TradeId, f: int)
    requires Inv(bk) && req.taker != "" && req.orderId in bk.orders && req.amountBase == Some(f)
    requires var o := bk.orders[req.orderId];
      && o.status == Cancelled && o.side == Sell && o.owner != req.taker
      && 0 < f < Remaining(o)
      && Row(bk.balances, Key(req.taker, o.quote)).available >= f * o.price
      && Row(bk.balances, LockKey(o)).locked >= f
    requires tradeId !in bk.trades
    ensures var e := BuyFromOrderSpec(AsWritten, bk, req, tradeId);
      var o := bk.orders[req.orderId];
      && e.reply.Ok?
      && e.books.orders == bk.orders[req.orderId := Settle(o, f)]
      && e.books.balances
         == BuyLegs(EnsureRows(bk.balances, req.taker, o.owner, o.base, o.quote), req.taker, o.owner, o.base, o.quote, f, f * o.price)
  {
    var o := bk.orders[req.orderId];
    assert PlanBuy(AsWritten, bk.orders, req) == Ok(Plan(o, f, f, f * o.price));
  }

  /** Reopening a CANCELLED order with part of it filled, while its row's locked
      amount only drops by the fill, breaks locked = committed. */
  lemma RefillBreaksLock(bk: Books, id: OrderId, f: int, m2: Balances, trades2: map<TradeId, Trade>)
    requires Inv(bk) && id in bk.orders && bk.orders[id].status == Cancelled
    requires 0 < f < Remaining(bk.orders[id])
    requires var k := LockKey(bk.orders[id]);
      k in bk.balances && k in m2 && m2[k].locked == bk.balances[k].locked - f
    ensures !Inv(Books(m2, bk.orders[id := Settle(bk.orders[id], f)], trades2))
  {
    var o := bk.orders[id];
    CommittedReplace(bk.orders, id, Settle(o, f), LockKey(o));
    assert m2[LockKey(o)].locked != Committed(bk.orders[id := Settle(o, f)], LockKey(o));
  }

  /** Such an input exists: seller S has two SELL orders of 10 X at price 1 in Y,
      O1 already cancelled and O2 open with all of S's 10 locked X, and B, holding
      100 Y, asks for 5 X of O1. */
  lemma CancelledOrderRefillable()
    ensures var bk, o := RefillBooks(), RefillBooks().orders["O1"];
      && Inv(bk) && "O1" in bk.orders && o.status == Cancelled && o.side == Sell && o.owner != "B"
      && 0 < 5 < Remaining(o)
      && Row(bk.balances, Key("B", o.quote)).available >= 5 * o.price
      && Row(bk.balances, LockKey(o)).locked >= 5
      && "T1" !in bk.trades
  {
    RefillBooksInv();
  }

  /** As written, sell takes a negative amount: the order is placed, the owner's
      row gains that much available out of its locked amount, and the order book
      holds an order that is not well formed. */
  lemma NegativeSellPlaced(assets: map<AssetCode, Asset>, bk: Books, req: PlaceRequest, newId: OrderId)
    requires Inv(bk) && !Missing(req) && AssetsOk(assets, req) && req.amountBase < 0 && newId !in bk.orders
    ensures var e, k := SellSpec(AsWritten, assets, bk, req, newId), Key(req.owner, req.base);
      && e.reply.Ok?
      && k in e.books.balances
      && e.books.balances[k].available == Row(bk.balances, k).available - req.amountBase
      && e.books.balances[k].locked == Row(bk.balances, k).locked + req.amountBase
      && e.books.balances[k].available > Row(bk.balances, k).available
      && !Inv(e.books)
  {
    var k := Key(req.owner, req.base);
    EnsureRow(bk.balances, k);
    PatchRow(Ensure(bk.balances, k), k, -req.amountBase, req.amountBase);
    var e := SellSpec(AsWritten, assets, bk, req, newId);
    assert newId in e.books.orders && !WellFormed(e.books.orders[newId]);
  }

  /** Such an input exists: empty books, two active assets, and S selling -5 X. */
  lemma NegativeSellAdmissible()
    ensures var bk, req := Books(map[], map[], map[]), PlaceRequest("S", "X", "Y", -5, 1);
      && Inv(bk) && !Missing(req) && req.amountBase < 0 && "O1" !in bk.orders
      && AssetsOk(map["X" := Asset("X", 8, true), "Y" := Asset("Y", 2, true)], req)
  {
  }
}
