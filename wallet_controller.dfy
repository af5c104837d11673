/** The wallet handlers: topup and create, each one transaction of a table
    write and its ledger block, and the asset-code filter of getBalance. */
module WalletController {
  import opened Model
  import opened BalanceRows
  import opened Blockchain
  import opened Orders
  import opened WalletIdentity

  // ---------------------------------------------------------------- topup

  /** The body of POST /api/wallet/topup. A missing `type` is None. */
  datatype TopupBody = TopupBody(address: Address, assetCode: AssetCode, amount: int, kind: Option<string>)

  /** The reply of a successful topup. */
  datatype TopupAck = TopupAck(topUpId: string, address: Address, assetCode: AssetCode, kind: string, balance: Balance)

  datatype TopupOutcome = TopupOutcome(ledger: Ledger, entries: seq<Payload>, reply: Result<TopupAck, Error>)

  /** The falsy check on address, assetCode and amount. */
  predicate MissingTopup(body: TopupBody)
  {
    body.address == "" || body.assetCode == "" || body.amount == 0
  }

  function KindOf(body: TopupBody): string
  {
    body.kind.GetOr("DEPOSIT")
  }

  /** The block of a top-up: a WITHDRAW leaves the address, anything else is a
      TOPUP arriving at it. */
  function TopupEntry(address: Address, asset: AssetCode, amount: int, kind: string): (p: Payload)
    ensures p.dataType == (if kind == "WITHDRAW" then "WITHDRAW" else "TOPUP")
    ensures p.from == Some(address) <==> kind == "WITHDRAW"
    ensures p.to == Some(address) <==> kind != "WITHDRAW"
    ensures p.from == None || p.to == None
    ensures DecimalForm(p.amount) && ParseDecimal(p.amount) == amount
  {
    DecimalRoundTrip(amount);
    if kind == "WITHDRAW" then Entry("WITHDRAW", Some(address), None, asset, Decimal(amount), None)
    else Entry("TOPUP", None, Some(address), asset, Decimal(amount), None)
  }

  /** topup: reject a missing field, then applyTopup and appendBlock in one
      transaction; a failure of either leaves nothing behind. */
  function TopupSpec(rule: Rule, lg: Ledger, body: TopupBody, topUpId: string): TopupOutcome
  {
    if MissingTopup(body) then TopupOutcome(lg, [], Err(MissingFields))
    else
      var req := TopupRequest(body.address, body.assetCode, body.amount, KindOf(body));
      var e := ApplyTopupSpec(rule, lg, req, topUpId);
      match e.reply
      case Err(err) => TopupOutcome(lg, [], Err(err))
      case Ok(rc) =>
        TopupOutcome(e.ledger, [TopupEntry(body.address, body.assetCode, body.amount, req.kind)],
                     Ok(TopupAck(rc.topUpId, body.address, body.assetCode, req.kind, rc.balance)))
  }

  method Topup(db: Db, body: TopupBody, topUpId: string, now: string) returns (r: Result<TopupAck, Error>)
    modifies db`balances, db`topups, db`blocks
    ensures var e := TopupSpec(Corrected, old(Ledger(db.balances, db.topups)), body, topUpId);
      && Ledger(db.balances, db.topups) == e.ledger && r == e.reply
      && db.blocks == AppendAll(db.hash, old(db.blocks), e.entries, now)
    ensures old(ChainOk(db.hash, db.blocks)) ==> ChainOk(db.hash, db.blocks)
    ensures old(Inv(Books(db.balances, db.orders, db.trades))) ==> Inv(Books(db.balances, db.orders, db.trades))
  {
    ghost var lg := Ledger(db.balances, db.topups);
    if Inv(Books(db.balances, db.orders, db.trades)) {
      TopupKeepsInv(lg, db.orders, db.trades, TopupRequest(body.address, body.assetCode, body.amount, KindOf(body)), topUpId);
    }
    if MissingTopup(body) {
      return Err(MissingFields);
    }
    var kind := body.kind.GetOr("DEPOSIT");
    var rc := ApplyTopup(db, TopupRequest(body.address, body.assetCode, body.amount, kind), topUpId);
    if rc.Err? {
      return Err(rc.error);
    }
    var p := TopupEntry(body.address, body.assetCode, body.amount, kind);
    assert TopupSpec(Corrected, lg, body, topUpId).entries == [p];
    AppendEach(db, [p], now);
    r := Ok(TopupAck(rc.value.topUpId, body.address, body.assetCode, kind, rc.value.balance));
  }

  /** All or nothing: a rejected topup changes no table and emits no block; an
      accepted one emits exactly one, and a missing field is always rejected. */
  lemma TopupAllOrNothing(rule: Rule, lg: Ledger, body: TopupBody, topUpId: string)
    ensures var e := TopupSpec(rule, lg, body, topUpId);
      && (MissingTopup(body) ==> e.reply == Err(MissingFields))
      && (e.reply.Err? ==> e.ledger == lg && e.entries == [])
      && (e.reply.Ok? ==> |e.entries| == 1 && !MissingTopup(body) && topUpId !in lg.topups)
      && (e.reply.Ok? <==>
            (!MissingTopup(body)
             && ApplyTopupSpec(rule, lg, TopupRequest(body.address, body.assetCode, body.amount, KindOf(body)), topUpId).reply.Ok?))
  {
    if !MissingTopup(body) {
      ApplyTopupOutcome(rule, lg, TopupRequest(body.address, body.assetCode, body.amount, KindOf(body)), topUpId);
    }
  }

  /** The block agrees with the balance: the row's available amount moves by the
      block's amount, down for a WITHDRAW block and up for a TOPUP block. */
  lemma TopupBlockMatchesBalance(rule: Rule, lg: Ledger, body: TopupBody, topUpId: string)
    requires TopupSpec(rule, lg, body, topUpId).reply.Ok?
    ensures var e, k := TopupSpec(rule, lg, body, topUpId), Key(body.address, body.assetCode);
      && |e.entries| == 1
      && var p := e.entries[0];
      && p.asset == body.assetCode
      && (p.dataType == "WITHDRAW" || p.dataType == "TOPUP")
      && k in e.ledger.balances
      && e.ledger.balances[k].available ==
           Row(lg.balances, k).available + (if p.dataType == "WITHDRAW" then -ParseDecimal(p.amount) else ParseDecimal(p.amount))
      && e.ledger.balances[k].locked == Row(lg.balances, k).locked
      && e.reply.value.balance == e.ledger.balances[k]
  {
    var req := TopupRequest(body.address, body.assetCode, body.amount, KindOf(body));
    TopupChangesOneRow(rule, lg, req, topUpId);
  }

  // ---------------------------------------------------------------- create

  /** The reply of create; the private key is handed back too, and is not modelled. */
  datatype Created = Created(address: Address, publicKey: string, walletLabel: Option<string>)

  datatype CreateOutcome = CreateOutcome(wallets: map<Address, Wallet>, entries: seq<Payload>, reply: Result<Created, Error>)

  /** The WALLET_CREATE block of a new address. */
  function CreateEntry(address: Address): Payload
  {
    Entry("WALLET_CREATE", None, Some(address), "USDT", "0", None)
  }

  /** create: insert the wallet (address and key come from the key generator)
      and append its block, in one transaction. An address already taken
      fails the insert and nothing persists. */
  function CreateSpec(wallets: map<Address, Wallet>, walletLabel: Option<string>, address: Address, publicKey: string): CreateOutcome
  {
    if address in wallets then CreateOutcome(wallets, [], Err(Internal))
    else CreateOutcome(wallets[address := Wallet(address, publicKey, walletLabel)], [CreateEntry(address)],
                       Ok(Created(address, publicKey, walletLabel)))
  }

  method Create(db: Db, walletLabel: Option<string>, address: Address, publicKey: string, now: string) returns (r: Result<Created, Error>)
    modifies db`wallets, db`blocks
    ensures var e := CreateSpec(old(db.wallets), walletLabel, address, publicKey);
      && db.wallets == e.wallets && r == e.reply
      && db.blocks == AppendAll(db.hash, old(db.blocks), e.entries, now)
    ensures old(ChainOk(db.hash, db.blocks)) ==> ChainOk(db.hash, db.blocks)
  {
    if address in db.wallets {
      return Err(Internal);
    }
    db.wallets := db.wallets[address := Wallet(address, publicKey, walletLabel)];
    AppendEach(db, [CreateEntry(address)], now);
    r := Ok(Created(address, publicKey, walletLabel));
  }

  /** A create either adds exactly the new wallet and one WALLET_CREATE block
      of zero USDT to it, or changes nothing. */
  lemma CreateEmitsOneBlock(wallets: map<Address, Wallet>, walletLabel: Option<string>, address: Address, publicKey: string)
    ensures var e := CreateSpec(wallets, walletLabel, address, publicKey);
      && (e.reply.Ok? <==> address !in wallets)
      && (e.reply.Err? ==> e.wallets == wallets && e.entries == [])
      && (e.reply.Ok? ==>
            && e.wallets.Keys == wallets.Keys + {address}
            && (forall a :: a in wallets ==> e.wallets[a] == wallets[a])
            && e.wallets[address].publicKey == publicKey
            && |e.entries| == 1
            && e.entries[0].dataType == "WALLET_CREATE"
            && e.entries[0].from == None && e.entries[0].to == Some(address)
            && e.entries[0].asset == "USDT" && ParseDecimal(e.entries[0].amount) == 0)
  {
    DecimalRoundTrip(0);
    assert Decimal(0) == "0";
  }

  // ---------------------------------------------------------------- the getBalance filter

  /** The white space String.prototype.trim removes. */
  predicate IsSpace(c: char)
  {
    || c == ' ' || c == '\t' || c == '\n' || c == '\r' || c == '\U{000B}' || c == '\U{000C}'
    || c == '\U{00A0}' || c == '\U{1680}' || ('\U{2000}' <= c <= '\U{200A}')
    || c == '\U{2028}' || c == '\U{2029}' || c == '\U{202F}' || c == '\U{205F}'
    || c == '\U{3000}' || c == '\U{FEFF}'
  }

  /** s without its leading white space. */
  function TrimStart(s: string): string
  {
    if s != [] && IsSpace(s[0]) then TrimStart(s[1..]) else s
  }

  /** s without its trailing white space. */
  function TrimEnd(s: string): string
  {
    if s != [] && IsSpace(s[|s| - 1]) then TrimEnd(s[..|s| - 1]) else s
  }

  /** TrimStart drops a prefix of white space and stops at the first other character. */
  lemma {:induction false} TrimStartSpec(s: string)
    ensures var r := TrimStart(s);
      && |r| <= |s| && r == s[|s| - |r|..]
      && (forall i :: 0 <= i < |s| - |r| ==> IsSpace(s[i]))
      && (r != [] ==> !IsSpace(r[0]))
  {
    if s != [] && IsSpace(s[0]) {
      TrimStartSpec(s[1..]);
    }
  }

  /** TrimEnd drops a suffix of white space and stops at the last other character. */
  lemma {:induction false} TrimEndSpec(s: string)
    ensures var r := TrimEnd(s);
      && |r| <= |s| && r == s[..|r|]
      && (forall i :: |r| <= i < |s| ==> IsSpace(s[i]))
      && (r != [] ==> !IsSpace(r[|r| - 1]))
  {
    if s != [] && IsSpace(s[|s| - 1]) {
      TrimEndSpec(s[..|s| - 1]);
    }
  }

  function Trim(s: string): string
  {
    TrimEnd(TrimStart(s))
  }

  /** Trim keeps the middle slice of s that starts after the leading white
      space, removes only white space around it, and leaves none at either end. */
  lemma TrimSlice(s: string)
    ensures var i, r := |s| - |TrimStart(s)|, Trim(s);
      && 0 <= i && i + |r| <= |s| && r == s[i..i + |r|]
      && (forall j :: 0 <= j < i ==> IsSpace(s[j]))
      && (forall j :: i + |r| <= j < |s| ==> IsSpace(s[j]))
      && (r != [] ==> !IsSpace(r[0]) && !IsSpace(r[|r| - 1]))
  {
    var t := TrimStart(s);
    TrimStartSpec(s);
    var r := TrimEnd(t);
    TrimEndSpec(t);
    var i := |s| - |t|;
    assert t == s[i..];
    assert r == s[i..i + |r|] by {
      assert r == t[..|r|];
      assert t[..|r|] == s[i..i + |r|];
    }
    forall j | i + |r| <= j < |s|
      ensures IsSpace(s[j])
    {
      assert s[j] == t[j - i];
    }
  }

  /** A string with no white space at either end is its own trim. */
  lemma TrimmedIsFixed(s: string)
    requires s == [] || (!IsSpace(s[0]) && !IsSpace(s[|s| - 1]))
    ensures Trim(s) == s
  {
    assert TrimStart(s) == s;
  }

  lemma TrimIdempotent(s: string)
    ensures Trim(Trim(s)) == Trim(s)
  {
    TrimSlice(s);
    TrimmedIsFixed(Trim(s));
  }

  /** toUpperCase on the ASCII letters; every other character is kept. */
  function UpperChar(c: char): char
  {
    if 'a' <= c <= 'z' then (c as int - 'a' as int + 'A' as int) as char else c
  }

  function ToUpper(s: string): string
  {
    if s == [] then [] else [UpperChar(s[0])] + ToUpper(s[1..])
  }

  /** ToUpper maps each character by itself and keeps the length. */
  lemma {:induction false} ToUpperSpec(s: string)
    ensures |ToUpper(s)| == |s|
    ensures forall i :: 0 <= i < |s| ==> ToUpper(s)[i] == UpperChar(s[i])
  {
    if s != [] {
      ToUpperSpec(s[1..]);
    }
  }

  /** No lower-case ASCII letter survives, and white space is kept where it was. */
  lemma ToUpperUpper(s: string)
    ensures |ToUpper(s)| == |s|
    ensures forall i :: 0 <= i < |s| ==> !('a' <= ToUpper(s)[i] <= 'z')
    ensures forall i :: 0 <= i < |s| ==> (IsSpace(ToUpper(s)[i]) <==> IsSpace(s[i]))
  {
    ToUpperSpec(s);
  }

  lemma UpperIdempotent(s: string)
    ensures ToUpper(ToUpper(s)) == ToUpper(s)
  {
    ToUpperSpec(s);
    ToUpperSpec(ToUpper(s));
  }

  /** The filter's `normalize`: trimmed and upper-cased. */
  function Normalize(v: string): string
  {
    ToUpper(Trim(v))
  }

  /** Normalising twice is normalising once, so a code reads the same whether
      it comes from the query or from a stored row. */
  lemma NormalizeIdempotent(v: string)
    ensures Normalize(Normalize(v)) == Normalize(v)
  {
    var t := Trim(v);
    TrimSlice(v);
    var u := ToUpper(t);
    ToUpperUpper(t);
    ToUpperSpec(t);
    TrimmedIsFixed(u);
    UpperIdempotent(t);
  }

  /** The first position of c in s. */
  function IndexOf(s: string, c: char): (i: nat)
    requires c in s
    ensures i < |s| && s[i] == c && c !in s[..i]
  {
    if s[0] == c then 0 else 1 + IndexOf(s[1..], c)
  }

  /** String.prototype.split on one character. */
  function Split(s: string, sep: char): (parts: seq<string>)
    ensures |parts| >= 1
    ensures forall p :: p in parts ==> sep !in p
    decreases |s|
  {
    if sep !in s then [s]
    else
      var i := IndexOf(s, sep);
      [s[..i]] + Split(s[i + 1..], sep)
  }

  /** Array.prototype.join on one character. */
  function Join(parts: seq<string>, sep: char): string
    requires |parts| >= 1
  {
    if |parts| == 1 then parts[0] else parts[0] + [sep] + Join(parts[1..], sep)
  }

  /** Splitting loses nothing: the pieces join back to the query. */
  lemma {:induction false} SplitJoin(s: string, sep: char)
    ensures Join(Split(s, sep), sep) == s
    decreases |s|
  {
    if sep in s {
      var i := IndexOf(s, sep);
      SplitJoin(s[i + 1..], sep);
      assert s == s[..i] + [sep] + s[i + 1..];
    }
  }

  /** And joining pieces free of the separator splits back into them. */
  lemma {:induction false} JoinSplit(parts: seq<string>, sep: char)
    requires |parts| >= 1 && forall j :: 0 <= j < |parts| ==> sep !in parts[j]
    ensures Split(Join(parts, sep), sep) == parts
  {
    if |parts| > 1 {
      var s := Join(parts, sep);
      var p := parts[0];
      assert s == p + [sep] + Join(parts[1..], sep);
      assert sep in s by { assert s[|p|] == sep; }
      assert IndexOf(s, sep) == |p| by {
        assert s[..|p|] == p;
        IndexOfAt(s, sep, |p|);
      }
      assert s[|p| + 1..] == Join(parts[1..], sep);
      JoinSplit(parts[1..], sep);
    }
  }

  lemma IndexOfAt(s: string, c: char, i: nat)
    requires i < |s| && s[i] == c && c !in s[..i]
    ensures IndexOf(s, c) == i
  {
  }

  /** The set built from the `asset` query: its comma-separated codes,
      normalised, the empty ones dropped. */
  function AssetSet(query: string): (codes: set<string>)
    ensures "" !in codes
    ensures forall t :: t in Split(query, ',') && Normalize(t) != "" ==> Normalize(t) in codes
    ensures forall c :: c in codes ==> exists t :: t in Split(query, ',') && Normalize(t) == c
  {
    set t | t in Split(query, ',') && Normalize(t) != "" :: Normalize(t)
  }

  /** A query written from codes that are already normal names exactly those codes. */
  lemma AssetSetOfJoin(codes: seq<string>)
    requires |codes| >= 1
    requires forall j :: 0 <= j < |codes| && codes[j] != "" ==> ',' !in codes[j] && Normalize(codes[j]) == codes[j]
    requires forall j :: 0 <= j < |codes| ==> codes[j] != ""
    ensures AssetSet(Join(codes, ',')) == set j | 0 <= j < |codes| :: codes[j]
  {
    JoinSplit(codes, ',');
    var lhs := AssetSet(Join(codes, ','));
    var rhs := set j | 0 <= j < |codes| :: codes[j];
    forall c | c in rhs ensures c in lhs {
      var j :| 0 <= j < |codes| && codes[j] == c;
      assert codes[j] in Split(Join(codes, ','), ',');
    }
  }

  /** One line of the reply's balances. */
  datatype BalanceLine = BalanceLine(assetCode: AssetCode, available: int, locked: int)

  datatype BalanceView = BalanceView(address: Address, balances: seq<BalanceLine>)

  /** The lines whose normalised code is in codes, in their order. */
  function FilterLines(lines: seq<BalanceLine>, codes: set<string>): (r: seq<BalanceLine>)
    ensures |r| <= |lines|
  {
    if lines == [] then []
    else (if Normalize(lines[0].assetCode) in codes then [lines[0]] else []) + FilterLines(lines[1..], codes)
  }

  /** Exactly the lines whose normalised code is in codes are kept. */
  lemma {:induction false} FilterLinesMembers(lines: seq<BalanceLine>, codes: set<string>)
    ensures forall l :: l in FilterLines(lines, codes) <==> l in lines && Normalize(l.assetCode) in codes
  {
    if lines != [] {
      FilterLinesMembers(lines[1..], codes);
      assert lines == [lines[0]] + lines[1..];
    }
  }

  /** Order is kept: filtering a concatenation concatenates the filtered parts. */
  lemma {:induction false} FilterLinesAppend(a: seq<BalanceLine>, b: seq<BalanceLine>, codes: set<string>)
    ensures FilterLines(a + b, codes) == FilterLines(a, codes) + FilterLines(b, codes)
  {
    if a != [] {
      assert (a + b)[0] == a[0];
      assert (a + b)[1..] == a[1..] + b;
      FilterLinesAppend(a[1..], b, codes);
      var head := if Normalize(a[0].assetCode) in codes then [a[0]] else [];
      assert FilterLines(a, codes) == head + FilterLines(a[1..], codes);
      calc {
        FilterLines(a + b, codes);
        head + FilterLines(a[1..] + b, codes);
        head + (FilterLines(a[1..], codes) + FilterLines(b, codes));
        (head + FilterLines(a[1..], codes)) + FilterLines(b, codes);
      }
    } else {
      assert a + b == b;
    }
  }

  /** Lines that all pass come through unchanged. */
  lemma {:induction false} FilterLinesAll(lines: seq<BalanceLine>, codes: set<string>)
    requires forall j :: 0 <= j < |lines| ==> Normalize(lines[j].assetCode) in codes
    ensures FilterLines(lines, codes) == lines
  {
    if lines != [] {
      FilterLinesAll(lines[1..], codes);
    }
  }

  /** getBalance: the wallet's rows (`listed`, the rows of this address ordered
      by asset code, as the query returns them), filtered when an `asset`
      query is given and not empty. */
  function GetBalance(wallets: map<Address, Wallet>, address: Address, asset: Option<string>, listed: seq<BalanceLine>): (r: Result<BalanceView, Error>)
    ensures r.Err? <==> address !in wallets
    ensures r.Err? ==> r.error == WalletNotFound
    ensures r.Ok? ==> r.value.address == wallets[address].address
    ensures r.Ok? && (asset == None || asset == Some("")) ==> r.value.balances == listed
    ensures r.Ok? && asset.Some? && asset.value != [] ==>
      forall l :: l in r.value.balances <==> l in listed && Normalize(l.assetCode) in AssetSet(asset.value)
    ensures r.Ok? && asset.Some? && asset.value != [] ==> r.value.balances == FilterLines(listed, AssetSet(asset.value))
  {
    if address !in wallets then Err(WalletNotFound)
    else if asset == None || asset == Some("") then Ok(BalanceView(wallets[address].address, listed))
    else
      FilterLinesMembers(listed, AssetSet(asset.value));
      Ok(BalanceView(wallets[address].address, FilterLines(listed, AssetSet(asset.value))))
  }

  /** The filter ignores case and surrounding white space in the query: a line
      is kept exactly when its normalised code matches a normalised code of the
      query. */
  lemma FilterMatchesQuery(wallets: map<Address, Wallet>, address: Address, query: string, listed: seq<BalanceLine>, l: BalanceLine)
    requires address in wallets && query != []
    ensures var r := GetBalance(wallets, address, Some(query), listed);
      l in r.value.balances <==>
        l in listed && Normalize(l.assetCode) != "" &&
        exists t :: t in Split(query, ',') && Normalize(t) == Normalize(l.assetCode)
  {
  }
}
