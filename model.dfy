/** The persisted records of the exchange (the tables under Models/) and the
    database that holds them. Amounts are exact integers in smallest units. */
module Model {

  datatype Option<T> = None | Some(value: T) {
    function GetOr(default: T): T {
      match this
      case Some(v) => v
      case None => default
    }
  }

  function Min(a: int, b: int): int { if a <= b then a else b }
  function Max(a: int, b: int): int { if a >= b then a else b }

  datatype Result<T, E> = Ok(value: T) | Err(error: E)

  /** The error replies of the handlers, one per reason code. `Internal` stands
      for a thrown error: the transaction is rolled back and the reply is 500. */
  datatype Error =
    | Internal
    | MissingFields
    | EmptyPayload
    | WalletNotFound
    | AssetNotFound
    | AssetInactive
    | InvalidAmountOrPrice
    | InsufficientFunds(available: int, need: int)
    | OrderNotFound
    | OrderNotOpenBuy
    | OrderNotOpenSell
    | CannotSellToOwnOrder
    | CannotBuyOwnOrder
    | InvalidPrice
    | OrderAlreadyComplete
    | InvalidAmount
    | InsufficientBase(available: int, need: int)
    | BuyLockedNotEnough(locked: int, need: int)
    | SellLockedNotEnough(locked: int, need: int)
    | OrderNotCancellable(status: Status)

  type Address = string
  type AssetCode = string
  type OrderId = string
  type TradeId = string

  /** Which reading of a guard the source has: the rule as written, or the one
      evidently intended (see the Findings of README.md). The database methods
      use `Corrected`; `AsWritten` is kept to exhibit the discrepancies. */
  datatype Rule = AsWritten | Corrected

  /** An Asset row; `active` is false exactly when `isActive` is 0. */
  datatype Asset = Asset(code: AssetCode, precision: int, active: bool)

  datatype Side = Buy | Sell
  datatype Status = Open | Complete | Cancelled

  datatype Order = Order(
    orderId: OrderId,
    owner: Address,
    side: Side,
    base: AssetCode,
    quote: AssetCode,
    amountBase: int,
    filled: int,
    price: int,
    status: Status)

  datatype Trade = Trade(
    tradeId: TradeId,
    orderId: OrderId,
    buyer: Address,
    seller: Address,
    base: AssetCode,
    quote: AssetCode,
    amountBaseTraded: int,
    price: int,
    amountQuotePaid: int)

  /** The composite primary key of a WalletBalance row. */
  datatype Key = Key(address: Address, asset: AssetCode)

  /** The two amounts of a WalletBalance row. */
  datatype Balance = Balance(available: int, locked: int)

  type Balances = map<Key, Balance>

  datatype TopUp = TopUp(
    topUpId: string,
    address: Address,
    asset: AssetCode,
    kind: string,
    amount: int,
    status: string,
    note: string)

  datatype Wallet = Wallet(address: Address, publicKey: string, walletLabel: Option<string>)

  /** A LedgerBlock row. `index` is the store-assigned blockIndex. */
  datatype Block = Block(
    index: int,
    timestamp: string,
    dataType: string,
    from: Option<Address>,
    to: Option<Address>,
    asset: AssetCode,
    amount: string,
    orderId: Option<OrderId>,
    nonce: int,
    prevHash: string,
    hash: string,
    signature: Option<string>,
    publicKey: Option<string>)

  /** The nine fields, in the fixed order of their serialisation, from which a
      block's hash is computed. */
  datatype Canonical = Canonical(
    timestamp: string,
    dataType: string,
    from: Option<Address>,
    to: Option<Address>,
    asset: AssetCode,
    amount: string,
    orderId: Option<OrderId>,
    nonce: int,
    prevHash: string)

  /** SHA-256 over the serialised canonical fields, hex-encoded. It is left
      uninterpreted: every property below holds for any function of this type,
      and the few that need collision-freedom say so. */
  type HashFn = Canonical -> string

  /** The database: one field per table. Asset rows are read, never written,
      by the modelled handlers. */
  class Db {
    const hash: HashFn
    const assets: map<AssetCode, Asset>
    var blocks: seq<Block>
    var balances: Balances
    var orders: map<OrderId, Order>
    var trades: map<TradeId, Trade>
    var topups: map<string, TopUp>
    var wallets: map<Address, Wallet>

    constructor (hash: HashFn, assets: map<AssetCode, Asset>)
      ensures this.hash == hash && this.assets == assets
      ensures blocks == [] && balances == map[] && orders == map[]
      ensures trades == map[] && topups == map[] && wallets == map[]
    {
      this.hash := hash;
      this.assets := assets;
      blocks := [];
      balances := map[];
      orders := map[];
      trades := map[];
      topups := map[];
      wallets := map[];
    }
  }

  /** JavaScript's String(n) for an integer amount: decimal digits, no leading
      zeros, a leading '-' for negatives. */
  function Decimal(n: int): (s: string)
    ensures DecimalForm(s)
  {
    if n < 0 then "-" + Digits(-n) else Digits(n)
  }

  function Digits(n: nat): (s: string)
    ensures s != [] && forall i :: 0 <= i < |s| ==> '0' <= s[i] <= '9'
  {
    if n < 10 then [DigitChar(n)] else Digits(n / 10) + [DigitChar(n % 10)]
  }

  function DigitChar(d: nat): (c: char)
    requires d < 10
    ensures '0' <= c <= '9' && c as int - '0' as int == d
  {
    (d + '0' as int) as char
  }

  /** Reads back a string of decimal digits. */
  function ParseDigits(s: string): nat
    requires forall i :: 0 <= i < |s| ==> '0' <= s[i] <= '9'
  {
    if s == [] then 0 else ParseDigits(s[..|s| - 1]) * 10 + (s[|s| - 1] as int - '0' as int)
  }

  /** An optional '-' followed by decimal digits. */
  predicate DecimalForm(s: string)
  {
    s != [] && forall i :: (if s[0] == '-' then 1 else 0) <= i < |s| ==> '0' <= s[i] <= '9'
  }

  /** Reads back the output of Decimal. */
  function ParseDecimal(s: string): int
    requires DecimalForm(s)
  {
    if s[0] == '-' then -(ParseDigits(s[1..]) as int) else ParseDigits(s)
  }

  lemma {:induction false} DigitsRoundTrip(n: nat)
    ensures ParseDigits(Digits(n)) == n
  {
    if n >= 10 {
      var s := Digits(n);
      assert s[..|s| - 1] == Digits(n / 10);
      DigitsRoundTrip(n / 10);
    }
  }

  /** String(n) loses nothing: the amount written into a block reads back. */
  lemma DecimalRoundTrip(n: int)
    ensures ParseDecimal(Decimal(n)) == n
  {
    if n < 0 {
      assert Decimal(n)[1..] == Digits(-n);
      DigitsRoundTrip(-n);
    } else {
      DigitsRoundTrip(n);
    }
  }

  /** Different amounts are written as different strings. */
  lemma DecimalInjective(a: int, b: int)
    requires Decimal(a) == Decimal(b)
    ensures a == b
  {
    DecimalRoundTrip(a);
    DecimalRoundTrip(b);
  }
}
