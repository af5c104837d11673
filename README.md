# P2P-Crypto exchange core, modelled in Dafny

P2P-Crypto is a small peer-to-peer exchange with a hash-chained ledger.

- **Wallets.** Each wallet holds, per asset, one `WalletBalance` row with an *available* amount and a *locked* amount.
- **Orders.** A SELL order locks its base asset in the owner's row. A BUY order locks its quote cost (amount × price).
- **Fills.** A taker fills an open order at the order's price. The locked side flows to the counterparty and the taker's side flows back. A `Trade` row is recorded, and transfer blocks are appended to the ledger.
- **Cancelling.** Cancelling an open order releases what it still locks.
- **Top-ups.** A deposit or withdrawal moves a row's available amount, records a `TopUp` row and appends one block.
- **The ledger.** Every block carries the hash of the previous block (or `GENESIS`) and a SHA-256 hash over its own nine canonical fields. `verifyChain` recomputes both.
- **Replication.** A peer replicates the chain by pushing blocks to `ingest`. A block is accepted only if it extends the local tip and its hash is right.

## Project layout

| file | module | contents |
|---|---|---|
| `sums.dfy` | `Sums` | finite sums over a map's keys, used for per-asset totals |
| `model.dfy` | `Model` | the database class `Db`, its row types, the error replies, decimal rendering of amounts |
| `balance_rows.dfy` | `BalanceRows` | insert-or-ignore of a balance row (`Ensure`), the relative patch (`Patch`), per-asset totals |
| `blockchain.dfy` | `Blockchain` | `computeHash`, `appendBlock`, `verifyChain`, and the chain invariant `ChainOk` |
| `chain_controller.dfy` | `ChainController` | `head`, `blocks` paging, and `ingest` of a batch of pushed blocks |
| `orders.dfy` | `Orders` | pure specifications of `sell`, `buyOpen`, `buyFromOrder`, `sellFromOrder` and `cancelOrder`, the accounting invariant `Inv`, and their lemmas |
| `order_handlers.dfy` | `OrderHandlers` | the same handlers as methods on `Db`, each proved equal to its specification |
| `wallet_identity.dfy` | `WalletIdentity` | `applyTopup`, as a specification and as a method, with its lemmas |
| `wallet_controller.dfy` | `WalletController` | the `topup` and `create` handlers, and the asset filter of `getBalance` |

## Design decisions

- **Handlers.** Each handler is a method on `Db` that updates the fields (tables) it writes. Its `ensures` ties the new tables, the reply and the appended blocks to a pure specification function of the old tables. The lemmas then prove what matters about those specifications:
  - `Inv`: no amount is negative, and every row's locked amount equals what its OPEN orders still commit;
  - conservation of every asset's total;
  - the exact rejection conditions;
  - the order life cycle;
  - validity of the chain.
- **The hash function.** The hash is an uninterpreted function, a constant field of `Db`. The lemmas that need collision-freedom assume `IdealHash`: injective and never `GENESIS`.
- **Amounts.** Amounts are exact integers, so the source's `EPS` tolerance becomes exact comparison.
- **Guard readings.** Where a guard of the source is evidently wrong (see Findings), the specification takes a `Rule`. With `AsWritten` it follows the code and exhibits the problem. With `Corrected` it applies the intended guard. The database methods use `Corrected`.

## Model

| member | source | states |
|---|---|---|
| Model.Db.constructor | Models/LedgerBlock.js:4-25 | a fresh database has every table empty (the LedgerBlock schema cited, and likewise the WalletBalance, Order, Trade, TopUp and WalletIdentity schemas under Models) and the given hash function and asset table |
| Model.Decimal | controllers/ordersController.js:187 | `String(n)` of an amount is an optional minus sign followed by a non-empty run of decimal digits |
| Model.DecimalRoundTrip | controllers/ordersController.js:187 | reading back the decimal string written for an amount gives that amount |
| Model.DecimalInjective | controllers/ordersController.js:187 | distinct amounts are written as distinct strings |
| BalanceRows.EnsureRow | controllers/ordersController.js:25-27 | insert-or-ignore adds row k as zeroes when it is absent, keeps it as it was when present, and adds no other row |
| BalanceRows.PatchRow | controllers/ordersController.js:38-44 | a relative patch changes only row k, by exactly the two deltas; it adds no row and changes nothing when k is absent |
| BalanceRows.EnsureKeepsTotal | controllers/ordersController.js:25-27 | creating a zero row changes no asset's total |
| BalanceRows.PatchTotal | controllers/ordersController.js:38-44 | a patch of row k changes the total of k's asset by the sum of its deltas, and no other asset's total |
| BalanceRows.PatchTwiceTotal | controllers/ordersController.js:292-321 | two successive patches change each asset's total by the sum of the deltas on that asset's rows |
| BalanceRows.OnlyZeroRowsAddedTrans | controllers/ordersController.js:267-274 | successive ensure steps still only add zero rows and keep the existing ones |
| Blockchain.OrNull | services/blockchain.js:10-14 | an absent or empty optional field hashes as null; any other value is kept |
| Blockchain.HashDependsOnContentOnly | services/blockchain.js:6-19 | the hash depends only on the nine canonical fields and the previous hash; for an ideal hash, equal hashes imply equal content |
| Blockchain.EmptyHashesAsNull | services/blockchain.js:10-14 | an empty from, to or orderId gives the same hash as an absent one |
| Blockchain.NewBlock | services/blockchain.js:25-59 | the appended block has the next index, the tip's hash (or GENESIS) as prevHash, the payload's fields, nonce 0 by default, the given timestamp, and a hash over its own stored fields, the timestamp included (the corrected reading of line 46, see Findings) |
| Blockchain.NewBlockAsWritten | services/blockchain.js:30-59 | as written, the stored block is NewBlock's in every field but the hash, which is computed over the value the insert returned for the timestamp; the two agree exactly when that value is the stored time |
| Blockchain.AsWrittenAppendBreaksChain | services/blockchain.js:45-77 | as written, when the returned timestamp differs from the stored one, verifyChain of a valid chain plus the appended block fails, and its first mismatch is exactly the new block |
| Blockchain.ExtendChainOk | services/blockchain.js:64-77 | a valid chain extended by one block is valid exactly when that block fits the tip |
| Blockchain.NextIndexOfIndexed | services/blockchain.js:30-43 | on a chain indexed 1..n the next index is n+1 |
| Blockchain.FitKeepsChainOk | services/blockchain.js:64-77 | a block that fits the tip keeps the chain valid |
| Blockchain.ChainOkNeedsFit | services/blockchain.js:64-77 | if the extended chain is valid, the added block fits the tip |
| Blockchain.AppendKeepsChainOk | services/blockchain.js:25-77 | appendBlock keeps a valid chain valid |
| Blockchain.AppendAll | services/blockchain.js:25-62 | appending payloads adds exactly one block per payload after the unchanged old chain, and each block carries its payload's fields |
| Blockchain.AppendAllKeepsChainOk | services/blockchain.js:25-77 | appending any sequence of payloads keeps a valid chain valid |
| Blockchain.AppendBlock | services/blockchain.js:25-62 | the method appends exactly the block NewBlock describes and keeps the chain valid |
| Blockchain.AppendEach | controllers/ordersController.js:181-211 | repeated appendBlock calls leave the chain AppendAll describes, still valid |
| Blockchain.VerifyChain | services/blockchain.js:64-78 | reports ok exactly when every block's hash equals the hash of its fields chained to the running previous hash (GENESIS, then each block's hash), with the length and head; otherwise reports the index of the first broken block with reason hash mismatch |
| Blockchain.HashesDistinct | services/blockchain.js:64-77 | for an ideal hash, the blocks of a verifying chain have pairwise distinct hashes |
| Blockchain.ChainedToIsNotTip | services/blockchain.js:64-77 | for an ideal hash, no block of a verifying chain has the tip's hash as its prevHash |
| ChainController.Head | controllers/chainController.js:11-22 | head reports the chain id and the highest block's index and hash, or 0 and GENESIS for an empty chain |
| ChainController.HeadIsTip | controllers/chainController.js:13-21 | head's hash is the tip appendBlock links to, and its index is one less than the next index |
| ChainController.After | controllers/chainController.js:34-36 | the blocks served after an index are blocks of the chain, each with index above `from` |
| ChainController.AfterMembers | controllers/chainController.js:34-36 | a block is returned exactly when it is in the chain with index above `from` |
| ChainController.AfterAppend | controllers/chainController.js:34-36 | selecting after `from` distributes over concatenation, so the served blocks keep the chain's order |
| ChainController.Cap | controllers/chainController.js:32-33 | the limit defaults to 200 and is capped at MAX_BATCH (500) |
| ChainController.Page | controllers/chainController.js:30-37 | a page holds at most the capped limit of blocks |
| ChainController.PageMembers | controllers/chainController.js:34-37 | a page holds only blocks after `from`, and a page shorter than the limit holds all of them |
| ChainController.Skip | controllers/chainController.js:34-36 | the number of leading blocks skipped is at most the chain's length |
| ChainController.AfterOfConsecutive | controllers/chainController.js:34-36 | on consecutively indexed blocks, the blocks after `from` form one suffix |
| ChainController.PageOfIndexed | controllers/chainController.js:34-37 | on an indexed chain a page is one contiguous slice of the chain |
| ChainController.PagesAreContiguous | controllers/chainController.js:32-37 | paging from the last index of one page gives the very next slice, with no gap and no overlap |
| ChainController.Check | controllers/chainController.js:58-79 | a pushed block is accepted exactly when its chainId matches, its prevHash is the local tip and its hash is right; otherwise the reason is the first failing check, and with the chain id right and the tip matched a wrong hash is rejected with hash mismatch |
| ChainController.Run | controllers/chainController.js:54-102 | blocks are counted accepted or rejected one each; only accepted blocks are appended; the old chain is kept; a reason is reported exactly when something was rejected |
| ChainController.RunKeepsChainOk | controllers/chainController.js:83-100 | ingesting any batch keeps a valid chain valid |
| ChainController.Batch | controllers/chainController.js:48-52 | a single block or the first MAX_BATCH of an array is processed |
| ChainController.IngestSpec | controllers/chainController.js:47-105 | an empty array is refused with no change; otherwise the counts add up to the batch, the chain only grows by the accepted blocks, and validity is kept |
| ChainController.RunSnoc | controllers/chainController.js:58-102 | ingesting a batch then one more block is one more step |
| ChainController.RunConcat | controllers/chainController.js:54-102 | ingesting two batches in turn, the running tally carried over, is ingesting their concatenation, so catching up page by page or batch by batch ends where the single run over the served blocks does |
| ChainController.LastRejectionWins | controllers/chainController.js:54-79 | the reported reason is that of the last rejected block |
| ChainController.ReplayRejected | controllers/chainController.js:63-65 | for an ideal hash, pushing again a block already stored is rejected, with prevHash mismatch when the chain id is right |
| ChainController.AsWrittenBlockRejectedByPeer | controllers/chainController.js:67-79 | as written, a block appended with a returned timestamp other than the stored one is refused by a peer with hash mismatch when served to it |
| ChainController.ClaimedIndexIgnored | controllers/chainController.js:83-100 | the index claimed by a pushed block has no effect; the store assigns the index |
| ChainController.ExportAll | controllers/chainController.js:34-38 | the blocks endpoint serves each stored block in the form a peer pushes it |
| ChainController.ExportStored | controllers/chainController.js:34-38 | a served row carries no chain id (the LedgerBlock schema has no such column), the peer rechecks it against its stored prevHash and hash, and stores it as it was under the peer's next index |
| ChainController.ReplicaCatchesUp | controllers/chainController.js:58-101 | a replica holding a prefix of a valid chain that ingests the rest as served, taken as one run over the served blocks, accepts all of it and ends with the same chain |
| ChainController.IngestBlock | controllers/chainController.js:58-101 | the method stores the pushed block exactly when Check accepts it, and otherwise changes nothing |
| ChainController.Ingest | controllers/chainController.js:47-105 | the method's reply and final chain are those of IngestSpec, and it keeps the chain valid |
| Orders.PlanBuy | controllers/ordersController.js:247-262 | buyFromOrder's plan: not found exactly when the order is absent; rejects a non-open or BUY order and the owner's own order; otherwise plans a fill of the smaller of the request and the remainder, at the order's price |
| Orders.PlanSell | controllers/ordersController.js:81-96 | sellFromOrder's plan, with the same guards for a BUY order |
| Orders.Settle | controllers/ordersController.js:171-178 | a fill only adds to `filled`, and the order is COMPLETE exactly when fully filled, otherwise OPEN |
| Orders.EnsureRowsRows | controllers/ordersController.js:267-274 | a fill ensures the four rows of taker and owner in base and quote, and keeps existing rows |
| Orders.TradeEntries | controllers/ordersController.js:348-378 | a fill appends TRADE_BASE_TRANSFER of the base asset from seller to buyer for the fill, TRADE_QUOTE_TRANSFER of the quote asset from buyer to seller for the counter amount, and, exactly when the order completes, ORDER_COMPLETE of 0 with no addresses; every amount string reads back as its amount and every block carries the order id |
| Orders.CommitmentNonNegative | controllers/ordersController.js:541-547 | a well-formed order never commits a negative amount |
| Orders.CommitmentOfNew | controllers/ordersController.js:38-58 | a new order commits its whole amount: base for a SELL, amount × price for a BUY |
| Orders.CommittedNone | controllers/ordersController.js:541-547 | a row no open order locks on has nothing committed |
| Orders.CommittedInsert | controllers/ordersController.js:47-58 | inserting an order adds its commitment to its lock row only |
| Orders.CommittedReplace | controllers/ordersController.js:171-178 | replacing an order changes its lock row's commitment by the difference only |
| Orders.CommittedCoversEach | controllers/ordersController.js:541-547 | a row's committed amount covers each of its open orders |
| Orders.LockedCoversOrder | controllers/ordersController.js:117-121 | under the invariant, an open order's lock row holds at least what the order commits |
| Orders.InsertKeepsLocked | controllers/ordersController.js:38-58 | locking exactly a new order's commitment keeps locked equal to committed |
| Orders.ReplaceKeepsLocked | controllers/ordersController.js:125-178 | unlocking exactly what a fill or cancel frees keeps locked equal to committed |
| Orders.EnsureKeepsInv | controllers/ordersController.js:25-27 | creating a zero row keeps the invariant |
| Orders.EnsureRowsKeepsInv | controllers/ordersController.js:267-274 | ensuring the fill's four rows keeps the invariant |
| Orders.EnsureRowsOnlyZeroRows | controllers/ordersController.js:267-274 | ensuring the fill's rows only adds zero rows |
| Orders.EnsureRowsKeepsTotal | controllers/ordersController.js:267-274 | ensuring the fill's rows changes no asset's total |
| Orders.InsertOrderKeepsInv | controllers/ordersController.js:38-58 | placing a well-formed open order whose lock the available amount covers keeps the invariant |
| Orders.ReplaceOrderKeepsInv | controllers/ordersController.js:171-178 | updating an open order while unlocking exactly the freed commitment keeps the invariant |
| Orders.SellKeepsInv | controllers/ordersController.js:8-69 | with the corrected guard, sell keeps the accounting invariant |
| Orders.BuyOpenKeepsInv | controllers/ordersController.js:404-468 | buyOpen keeps the accounting invariant |
| Orders.ReleaseIsUnlock | controllers/ordersController.js:541-571 | cancelling moves exactly the remaining commitment, which is positive, from locked back to available on the lock row |
| Orders.CancelKeepsInv | controllers/ordersController.js:526-587 | cancelOrder keeps the accounting invariant |
| Orders.SettleCommitment | controllers/ordersController.js:171-178 | a fill lowers the order's commitment by the fill (SELL) or fill × price (BUY) |
| Orders.BuyLegsAt | controllers/ordersController.js:292-321 | buying moves cost from buyer's available quote to seller's available quote, and the fill from seller's locked base to buyer's available base, with no other change |
| Orders.SellLegsAt | controllers/ordersController.js:125-154 | selling moves the fill from seller's available base to buyer's available base, and the quote from buyer's locked quote to seller's available quote, with no other change |
| Orders.BuyLegsNonNegative | controllers/ordersController.js:277-288 | when the covering checks pass, the buy legs leave no amount negative |
| Orders.SellLegsNonNegative | controllers/ordersController.js:110-121 | when the covering checks pass, the sell legs leave no amount negative |
| Orders.BuyFromOrderKeepsInv | controllers/ordersController.js:237-402 | buyFromOrder, which fills only OPEN orders, keeps the accounting invariant |
| Orders.SellFromOrderKeepsInv | controllers/ordersController.js:71-235 | sellFromOrder, which fills only OPEN orders, keeps the accounting invariant |
| Orders.AddTradeKeepsOk | controllers/ordersController.js:324-335 | recording a well-formed trade keeps every trade well formed |
| Orders.FillSellOrderKeepsInv | controllers/ordersController.js:290-345 | a fill of an open SELL order that the buyer's quote covers keeps the invariant |
| Orders.FillBuyOrderKeepsInv | controllers/ordersController.js:123-178 | a fill of an open BUY order that the seller's base covers keeps the invariant |
| Orders.SellOutcome | controllers/ordersController.js:10-58 | a rejected sell adds only zero balance rows and writes no order, trade or block; its errors in source order: missing fields, an unknown or inactive asset (internal error), with the corrected guard a non-positive amount or price, short funds with the available and requested amounts, an id clash (internal error); it succeeds exactly when all checks pass and the id is new |
| Orders.SellPlaced | controllers/ordersController.js:37-58 | a placed sell inserts the OPEN unfilled order and moves its amount from available to locked on the owner's base row only |
| Orders.BuyOpenOutcome | controllers/ordersController.js:406-437 | a rejected buyOpen adds only zero balance rows and writes no order, trade or block; its errors in source order: missing fields, asset not found, asset inactive, non-positive amount or price, short quote with the available and needed amounts, an id clash (internal error); success exactly when all pass |
| Orders.BuyOpenPlaced | controllers/ordersController.js:427-459 | a placed buy inserts the OPEN order and moves amount × price from available to locked on the owner's quote row only |
| Orders.BuyFromOrderGuards | controllers/ordersController.js:240-288 | each guard of buyFromOrder yields its own error in source order: missing taker, order not found, not an open SELL, own order, already complete, non-positive amount, non-positive price, short quote funds, short seller lock, trade id clash |
| Orders.BuyFromOrderRejected | controllers/ordersController.js:248-288 | a rejected buyFromOrder adds only zero balance rows, changes no order or trade and appends no block |
| Orders.BuyFromOrderFilled | controllers/ordersController.js:290-393 | an accepted buyFromOrder settles the order, leaves the balances BuyLegs gives on the four ensured rows (buyer pays quote, receives base; seller's locked base goes, quote arrives), records the trade, appends its blocks and returns the summary |
| Orders.BuyFromOrderSucceeds | controllers/ordersController.js:240-288 | buyFromOrder succeeds exactly when every guard passes: a taker is given, the plan stands, the buyer's available quote covers the cost, the seller's locked base covers the fill, and the trade id is new |
| Orders.SellFromOrderGuards | controllers/ordersController.js:74-121 | each guard of sellFromOrder yields its own error in source order: missing taker, order not found, not an open BUY, own order, non-positive price, already complete, non-positive amount, short base, short buyer lock, trade id clash |
| Orders.SellFromOrderRejected | controllers/ordersController.js:81-121 | a rejected sellFromOrder adds only zero balance rows, changes no order or trade and appends no block |
| Orders.SellFromOrderFilled | controllers/ordersController.js:123-226 | an accepted sellFromOrder settles the order, leaves the balances SellLegs gives on the four ensured rows (seller's available base goes to the buyer; buyer's locked quote goes to the seller), records the trade, appends its blocks and returns the summary |
| Orders.SellFromOrderSucceeds | controllers/ordersController.js:74-121 | sellFromOrder succeeds exactly when every guard passes: a taker is given, the plan stands, the seller's available base covers the fill, the buyer's locked quote covers the cost, and the trade id is new |
| Orders.CancelOutcome | controllers/ordersController.js:533-578 | cancel succeeds exactly for an OPEN order, marks it CANCELLED and releases its remaining commitment; otherwise not found or not cancellable with its status and no change |
| Orders.BuyLegsTotal | controllers/ordersController.js:292-321 | the buy legs conserve every asset's total |
| Orders.SellLegsTotal | controllers/ordersController.js:125-154 | the sell legs conserve every asset's total |
| Orders.SellConserves | controllers/ordersController.js:8-69 | sell conserves every asset's total |
| Orders.BuyOpenConserves | controllers/ordersController.js:404-468 | buyOpen conserves every asset's total |
| Orders.BuyFromOrderConserves | controllers/ordersController.js:237-402 | buyFromOrder conserves every asset's total |
| Orders.SellFromOrderConserves | controllers/ordersController.js:71-235 | sellFromOrder conserves every asset's total |
| Orders.CancelConserves | controllers/ordersController.js:526-587 | cancelOrder conserves every asset's total |
| Orders.SellLockedCheckRedundant | controllers/ordersController.js:284-288 | with the corrected guard, under the invariant buyFromOrder never fails the seller-locked check |
| Orders.BuyLockedCheckRedundant | controllers/ordersController.js:117-121 | with the corrected guard, under the invariant sellFromOrder never fails the buyer-locked check |
| Orders.InsertEvolves | controllers/ordersController.js:47-58 | inserting a fresh OPEN unfilled order is a legal step of the order table |
| Orders.ReplaceEvolves | controllers/ordersController.js:171-178 | replacing an order by a legal successor is a legal step of the order table |
| Orders.PlacingEvolves | controllers/ordersController.js:47-58 | sell and buyOpen only add OPEN unfilled orders |
| Orders.FillsEvolve | controllers/ordersController.js:171-178 | with the corrected guard, fills only add to open orders' filled amounts, and COMPLETE or CANCELLED orders never change |
| Orders.CancelEvolves | controllers/ordersController.js:573-576 | cancel only turns an OPEN order CANCELLED |
| Orders.RefillBooksCommitted | controllers/ordersController.js:249 | in the example books only O2 commits, 10 X on S's base row |
| Orders.RefillBooksInv | controllers/ordersController.js:249 | the example books satisfy the invariant |
| Orders.CancelledOrderRefilled | controllers/ordersController.js:249 | as written, a partial buy of a CANCELLED SELL order goes through, reopens the order, is not a legal step and breaks the invariant |
| Orders.CancelledFillGoesThrough | controllers/ordersController.js:249 | as written, such a buy settles the cancelled order and performs the usual legs |
| Orders.RefillBreaksLock | controllers/ordersController.js:249 | reopening a cancelled order while unlocking only the fill breaks locked = committed |
| Orders.CancelledOrderRefillable | controllers/ordersController.js:249 | such an input exists: O1 cancelled, O2 open, B buys 5 of O1 |
| Orders.NegativeSellPlaced | controllers/ordersController.js:10 | as written, a sell of a negative amount is placed, raises the owner's available amount out of locked, and breaks the invariant |
| Orders.NegativeSellAdmissible | controllers/ordersController.js:10 | such an input exists: an empty wallet selling -5 X |
| OrderHandlers.Sell | controllers/ordersController.js:8-69 | the method leaves the tables and reply of SellSpec and keeps the invariant |
| OrderHandlers.BuyOpen | controllers/ordersController.js:404-468 | the method leaves the tables and reply of BuyOpenSpec and keeps the invariant |
| OrderHandlers.EnsureFillRows | controllers/ordersController.js:267-274 | the four insert-or-ignore statements leave the rows EnsureRows describes |
| OrderHandlers.SettleBuyLegs | controllers/ordersController.js:292-321 | the four patches of a buy leave the rows BuyLegs describes |
| OrderHandlers.SettleSellLegs | controllers/ordersController.js:125-154 | the four patches of a sell leave the rows SellLegs describes |
| OrderHandlers.BuyFromOrder | controllers/ordersController.js:237-402 | the method leaves the tables, reply and blocks of BuyFromOrderSpec, and keeps the invariant and the chain valid |
| OrderHandlers.FillBuy | controllers/ordersController.js:266-393 | the accepted part of buyFromOrder leaves the tables, reply and blocks of BuyFill |
| OrderHandlers.SellFromOrder | controllers/ordersController.js:71-235 | the method leaves the tables, reply and blocks of SellFromOrderSpec, and keeps the invariant and the chain valid |
| OrderHandlers.FillSell | controllers/ordersController.js:99-226 | the accepted part of sellFromOrder leaves the tables, reply and blocks of SellFill |
| OrderHandlers.CancelOrder | controllers/ordersController.js:526-587 | the method leaves the tables and reply of CancelSpec and keeps the invariant |
| WalletIdentity.ApplyTopup | Models/WalletIdentity.js:53-86 | the method leaves the balance and TopUp tables and the receipt of ApplyTopupSpec, and rolls the balance back on an id clash |
| WalletIdentity.ApplyTopupOutcome | Models/WalletIdentity.js:53-80 | a top-up goes through exactly when its guard passes and its id is new; otherwise neither table changes |
| WalletIdentity.CorrectedGuard | Models/WalletIdentity.js:53-56 | the corrected guard admits exactly positive deposits and positive withdrawals covered by the available amount |
| WalletIdentity.TopupChangesOneRow | Models/WalletIdentity.js:57-86 | a top-up moves the available amount of its row by the signed amount, leaves locked and every other row alone, records one COMPLETED TopUp and returns the updated row |
| WalletIdentity.TopupTotal | Models/WalletIdentity.js:64-71 | only the topped-up asset's total changes, by exactly the signed amount |
| WalletIdentity.TopupKeepsInv | Models/WalletIdentity.js:53-71 | with the corrected guard a top-up keeps the accounting invariant |
| WalletIdentity.WithdrawUndoesDeposit | Models/WalletIdentity.js:54-71 | a withdrawal of the amount just deposited restores the row |
| WalletIdentity.OverdrawAccepted | Models/WalletIdentity.js:53-71 | as written, a withdrawal beyond the available amount goes through and leaves the row negative |
| WalletIdentity.OverdrawAdmissible | Models/WalletIdentity.js:53-71 | such an input exists: an empty wallet withdrawing 5 USDT |
| WalletController.TopupEntry | controllers/walletController.js:48-54 | the top-up block is WITHDRAW from the address or TOPUP to it, and its amount string reads back as the amount |
| WalletController.Topup | controllers/walletController.js:36-68 | the method leaves the tables, reply and one block of TopupSpec, keeps the chain valid and keeps the accounting invariant |
| WalletController.TopupAllOrNothing | controllers/walletController.js:37-57 | missing fields are refused; a refused top-up changes no table and appends no block; it succeeds exactly when no field is missing and applyTopup succeeds, and then appends exactly one block |
| WalletController.TopupBlockMatchesBalance | controllers/walletController.js:43-54 | the appended block's type and amount account for exactly the change to the row's available amount |
| WalletController.Create | controllers/walletController.js:71-99 | the method leaves the wallet table, reply and block of CreateSpec, and keeps the chain valid |
| WalletController.CreateEmitsOneBlock | controllers/walletController.js:75-85 | create succeeds exactly for a new address, inserts only that wallet with its key, and appends one WALLET_CREATE block of 0 USDT to it |
| WalletController.TrimStartSpec | controllers/walletController.js:15 | trimming the start drops exactly the leading white space |
| WalletController.TrimEndSpec | controllers/walletController.js:15 | trimming the end drops exactly the trailing white space |
| WalletController.TrimSlice | controllers/walletController.js:15 | trim returns the slice between the leading and trailing white space, with no space at either end |
| WalletController.TrimmedIsFixed | controllers/walletController.js:15 | a string with no space at either end is its own trim |
| WalletController.TrimIdempotent | controllers/walletController.js:15 | trimming twice is trimming once |
| WalletController.ToUpperSpec | controllers/walletController.js:15 | upper-casing maps each character by itself and keeps the length |
| WalletController.ToUpperUpper | controllers/walletController.js:15 | upper-casing leaves no lower-case letter and changes no white space |
| WalletController.UpperIdempotent | controllers/walletController.js:15 | upper-casing twice is upper-casing once |
| WalletController.NormalizeIdempotent | controllers/walletController.js:15 | normalizing a normalized code changes nothing |
| WalletController.IndexOf | controllers/walletController.js:19 | finds the first occurrence of the separator |
| WalletController.IndexOfAt | controllers/walletController.js:19 | the first occurrence is unique |
| WalletController.Split | controllers/walletController.js:19 | splitting gives at least one part and no part holds the separator |
| WalletController.SplitJoin | controllers/walletController.js:19 | joining the parts of a split gives back the string |
| WalletController.JoinSplit | controllers/walletController.js:19 | splitting a join of separator-free parts gives back the parts |
| WalletController.AssetSet | controllers/walletController.js:17-20 | the asset set holds exactly the non-empty normalized parts of the query |
| WalletController.AssetSetOfJoin | controllers/walletController.js:17-20 | a query joining normalized codes selects exactly those codes |
| WalletController.FilterLines | controllers/walletController.js:25 | filtering never lengthens the list |
| WalletController.FilterLinesMembers | controllers/walletController.js:25 | a row is kept exactly when it was listed and its normalized code is in the set |
| WalletController.FilterLinesAppend | controllers/walletController.js:25 | filtering keeps the rows in their listed order |
| WalletController.FilterLinesAll | controllers/walletController.js:25 | when every listed code is selected the list is unchanged |
| WalletController.GetBalance | controllers/walletController.js:7-28 | an unknown address is wallet not found; with no or empty asset query every listed row is returned; otherwise exactly the rows whose normalized code the query names, in their listed order and multiplicity (FilterLines) |
| WalletController.FilterMatchesQuery | controllers/walletController.js:15-25 | a row is returned exactly when some part of the query normalizes to its normalized, non-empty code |

## Specification functions

These definitions carry no contract of their own; the lemmas named beside each state what they mean.

| definition | source | stated by |
|---|---|---|
| Orders.SellSpec | controllers/ordersController.js:8-69 | SellOutcome, SellPlaced, SellKeepsInv, SellConserves |
| Orders.BuyOpenSpec | controllers/ordersController.js:404-468 | BuyOpenOutcome, BuyOpenPlaced, BuyOpenKeepsInv, BuyOpenConserves |
| Orders.BuyFromOrderSpec | controllers/ordersController.js:237-402 | BuyFromOrderGuards, BuyFromOrderRejected, BuyFromOrderFilled, BuyFromOrderKeepsInv, BuyFromOrderConserves |
| Orders.SellFromOrderSpec | controllers/ordersController.js:71-235 | SellFromOrderGuards, SellFromOrderRejected, SellFromOrderFilled, SellFromOrderKeepsInv, SellFromOrderConserves |
| Orders.CancelSpec | controllers/ordersController.js:526-587 | CancelOutcome, CancelKeepsInv, CancelConserves, CancelEvolves |
| Orders.BuyLegs | controllers/ordersController.js:292-321 | BuyLegsAt, BuyLegsNonNegative, BuyLegsTotal |
| Orders.SellLegs | controllers/ordersController.js:125-154 | SellLegsAt, SellLegsNonNegative, SellLegsTotal |
| Orders.Release | controllers/ordersController.js:541-571 | ReleaseIsUnlock |
| BalanceRows.Ensure | controllers/ordersController.js:25-27 | EnsureRow, EnsureKeepsTotal |
| BalanceRows.Patch | controllers/ordersController.js:38-44 | PatchRow, PatchTotal |
| Blockchain.CanonicalOf | services/blockchain.js:6-19 | HashDependsOnContentOnly, EmptyHashesAsNull |
| Blockchain.ComputeHash | services/blockchain.js:6-19 | HashDependsOnContentOnly, VerifyChain |
| ChainController.Step | controllers/chainController.js:58-101 | Run, RunSnoc, LastRejectionWins, ClaimedIndexIgnored |
| ChainController.Stored | controllers/chainController.js:85-100 | IngestBlock, ExportStored |
| ChainController.Export | controllers/chainController.js:34-38 | ExportStored, ExportAll |
| WalletIdentity.ApplyTopupSpec | Models/WalletIdentity.js:53-86 | ApplyTopupOutcome, TopupChangesOneRow, TopupTotal, TopupKeepsInv |
| WalletIdentity.TopupGuard | Models/WalletIdentity.js:53-56 | CorrectedGuard, OverdrawAccepted |
| WalletController.TopupSpec | controllers/walletController.js:36-68 | TopupAllOrNothing, TopupBlockMatchesBalance |
| WalletController.CreateSpec | controllers/walletController.js:71-99 | CreateEmitsOneBlock |
| WalletController.CreateEntry | controllers/walletController.js:75-85 | CreateEmitsOneBlock |
| WalletController.Trim | controllers/walletController.js:15 | TrimSlice, TrimmedIsFixed, TrimIdempotent |
| WalletController.ToUpper | controllers/walletController.js:15 | ToUpperSpec, ToUpperUpper, UpperIdempotent |
| WalletController.Normalize | controllers/walletController.js:15 | NormalizeIdempotent, AssetSet |
| WalletController.Join | controllers/walletController.js:19 | SplitJoin, JoinSplit |

## Left out

- Floating point: amounts are stored as numeric strings. They are read with `parseFloat` or `CAST AS REAL`, and compared with the tolerance `EPS = 1e-9`. The model uses exact integers and exact comparisons, so rounding and strings that do not parse (NaN) are not modelled.
- Amounts in request bodies: they arrive as JSON values and are modelled as integers. `0` or an absent value counts as missing, because amount 0 is falsy. A non-empty string such as `"0"` is truthy in the source but cannot be stated this way.
- Identifiers and clocks: `Date.now()` and `Math.random()` ids, `datetime('now')`, `knex.fn.now()` and block timestamps become parameters (`newId`, `tradeId`, `topUpId`, `now`). The `updatedAt` columns are not modelled.
- SHA-256 and the JSON serialisation of the canonical fields: these are the uninterpreted hash function `Db.hash` over the `Canonical` record of the nine fields.
- `createWithKeypair` and `addressFromPublicKey` (Models/WalletIdentity.js:7-51): Ed25519 key generation, PEM export and address derivation are left out. The address and public key are parameters of `WalletController.Create`. The private key in the reply is not modelled.
- Block signatures and public keys are not modelled; only the hash fields are checked.
- `listBuyOpen` and `listSellOpen` (controllers/ordersController.js:470-523) are plain SQL listings with no state change, and are not modelled.
- The SQL listing of a wallet's balances in `getBalance` (controllers/walletController.js:13) is a parameter (`listed`). Its row order is taken as given. `String(asset)` of an array-valued query is not modelled: the query is a string.
- `toUpperCase` is modelled on ASCII letters only; other Unicode case mappings are not modelled. `trim` uses the ECMAScript white-space and line-terminator set.
- `ChainController.Page`: a negative or NaN `limit` or `from` is not modelled. The model takes a natural limit and an integer index.
- Blockchain.NewBlockAsWritten: what the insert returns for the raw `datetime('now')` timestamp is a parameter (`hashed`); the ORM's exact form of that value is not modelled, only that it is not the stored time.
- `appendBlock` inserts the block first and patches its hash in afterwards. The model writes the complete block in one step: inside one transaction no other reader observes the intermediate row.
- Transactions, rollback on thrown errors and concurrency: each handler is one atomic method. A thrown error is the reply `Internal` with no change, including the rollback of the balance row in `WalletIdentity.ApplyTopup` on an id clash.
- HTTP status codes, the JSON shapes of replies and `console.log` traces are not modelled. Replies are the `Result` datatypes.
- The guards of the database methods: `OrderHandlers.BuyFromOrder`, `OrderHandlers.SellFromOrder`, `OrderHandlers.Sell`, `WalletIdentity.ApplyTopup` and `WalletController.Topup` use the corrected guards of the Findings, and `Blockchain.AppendBlock` (with every handler that appends through it) uses the corrected `NewBlock`, which hashes the stored timestamp. The behaviour as written is kept in the pure specifications with `Rule.AsWritten`.
- `OrderHandlers.Sell`: besides the falsy check, it refuses a non-positive amount or price with `InvalidAmountOrPrice`, as `buyOpen` does (see Findings).
- `CHAIN_ID` is the default value; the `process.env` override is not modelled.
- authController, topupController, syncService, sign.js, the routes, app.js and db.js are not part of this model. `syncService` is represented only by `ChainController.ReplicaCatchesUp`, which pushes a peer's served blocks to `ingest`.

## Findings

| source | as written | input that shows it | evidently intended | confidence | as-written member | corrected member |
|---|---|---|---|---|---|---|
| services/blockchain.js:46 | `appendBlock` hashes `inserted.timestamp`, which is what the insert returned for the raw `datetime('now')` of line 31, not the time the row stores; `verifyChain` (lines 64-77) and a peer's `ingest` hash the stored string | any block appended to a valid chain: its hash is over the returned value, so `verifyChain` reports hash mismatch at that block and a peer refuses it | hash the stored timestamp, reading the row back before computing the hash | medium, not executed | Blockchain.AsWrittenAppendBreaksChain | Blockchain.AppendKeepsChainOk |
| controllers/ordersController.js:249 | `buyFromOrder` refuses a SELL order only when its status is COMPLETE, so a CANCELLED order, whose lock was already released, can still be filled (the same guard is at line 83 for `sellFromOrder`) | seller S: O1, a cancelled SELL of 10 X at 1 Y, and O2, an open SELL of 10 X, so S has 10 X locked; B, holding 100 Y, buys 5 of O1: the fill succeeds, O1 becomes OPEN again, and S's locked 5 X no longer equals the 10 X that O2 commits | only OPEN orders can be filled | high, not executed | Orders.CancelledOrderRefilled | Orders.BuyFromOrderKeepsInv |
| controllers/ordersController.js:10 | `sell` checks only that `amountBase` and `price` are truthy, so a negative amount passes, and the funds check at lines 33-35 passes too | an empty wallet sells -5 X at price 1: the order is placed, available X becomes 5 and locked X becomes -5 | refuse a non-positive amount or price, as `buyOpen` does at line 422 | high, not executed | Orders.NegativeSellPlaced | Orders.SellKeepsInv |
| Models/WalletIdentity.js:53-71 | `applyTopup` adds the signed amount with no check of the amount or of the balance, and `topup` checks only that the amount is truthy | an empty wallet withdraws 5 USDT: the withdrawal is COMPLETED and available USDT becomes -5 | refuse a non-positive amount or a withdrawal beyond the available amount | medium, not executed | WalletIdentity.OverdrawAccepted | WalletIdentity.TopupKeepsInv |
