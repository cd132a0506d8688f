/** The position ledger: free balances per asset and entry prices per coin
    (`0.0` meaning flat), the storage object that holds them, and the pure
    effect of `buy` and `sell` on them in both modes. */
module Ledger {
  import opened Wrappers
  import opened Symbols

  /** The named values read through `gblConf`. */
  datatype Config = Config(
    baseSymbol: string,
    totalCost: real,
    longCandle: string,
    shortCandle: string,
    sellLossMult: real)

  /** What `buy` and `sell` read besides the ledger: the configuration, the
      venue's trade fee and whether the bot runs in test (paper) mode. */
  datatype Setup = Setup(conf: Config, fee: real, testMode: bool)

  /** A snapshot of the storage's balances and entries. An asset that was
      never written reads as `0.0`. */
  datatype Ledger = Ledger(balances: map<string, real>, entries: map<string, real>)
  {
    function Balance(asset: string): real
    {
      if asset in balances then balances[asset] else 0.0
    }

    function Entry(coin: string): real
    {
      if coin in entries then entries[coin] else 0.0
    }

    /** An open position: a non-zero entry price. */
    predicate HasEntry(coin: string)
    {
      Entry(coin) != 0.0
    }

    function SetBalance(asset: string, value: real): Ledger
    {
      this.(balances := balances[asset := value])
    }

    function AddBalance(asset: string, delta: real): Ledger
    {
      SetBalance(asset, Balance(asset) + delta)
    }

    function SetEntry(coin: string, price: real): Ledger
    {
      this.(entries := entries[coin := price])
    }
  }

  /** `resetBalance(symbols)`: every listed asset at zero and flat, nothing else. */
  function ResetLedger(symbols: seq<string>): (l: Ledger)
    ensures forall a :: l.Balance(a) == 0.0 && !l.HasEntry(a)
    ensures forall a :: a in l.balances <==> a in symbols
  {
    Ledger(map a | a in symbols :: 0.0, map a | a in symbols :: 0.0)
  }

  /** `updateBalance` without its final `saveBalance`: both balances are set
      (absolute) or shifted (relative), then the coin's entry is written. */
  function BalanceUpdate(l: Ledger, coin: string, fiat: string, coinValue: real, fiatValue: real,
                         entry: real, setAbsolute: bool): (r: Ledger)
    ensures forall a :: a != coin && a != fiat ==> r.Balance(a) == l.Balance(a)
    ensures coin != fiat ==>
      && r.Balance(coin) == (if setAbsolute then coinValue else l.Balance(coin) + coinValue)
      && r.Balance(fiat) == (if setAbsolute then fiatValue else l.Balance(fiat) + fiatValue)
    ensures coin == fiat ==>
      r.Balance(coin) == (if setAbsolute then fiatValue else l.Balance(coin) + coinValue + fiatValue)
    ensures r.Entry(coin) == entry && (entry != 0.0 <==> r.HasEntry(coin))
    ensures forall c :: c != coin ==> r.Entry(c) == l.Entry(c)
  {
    var moved :=
      if setAbsolute then l.SetBalance(coin, coinValue).SetBalance(fiat, fiatValue)
      else l.AddBalance(coin, coinValue).AddBalance(fiat, fiatValue);
    moved.SetEntry(coin, entry)
  }

  /** How `buy` and `sell` end; the message text is not modelled. */
  datatype Outcome = Filled | InsufficientBalance | ExecutionFailed
  {
    predicate Success() { Filled? }
  }

  /** The ledger after an order and how the order ended. */
  datatype Trade = Trade(ledger: Ledger, outcome: Outcome)

  /** The venue's reply to an order: the free balance of each asset after the
      fill, or `None` when the order failed. */
  type Reply = Option<map<string, real>>

  /** Reading `balances[coin]["free"]` and `balances[fiat]["free"]` from a
      reply needs both assets in it. */
  predicate Covers(reply: Reply, coin: string, fiat: string)
  {
    reply.Some? ==> coin in reply.value && fiat in reply.value
  }

  /** What `buy` and `sell` demand of their arguments: a symbol that unpacks
      into two pieces, no division by zero, and a venue reply that names both
      assets whenever it is read. */
  predicate OrderOk(setup: Setup, symbol: string, reply: Reply)
  {
    && IsPair(symbol)
    && setup.fee != -1.0
    && (!setup.testMode ==> Covers(reply, Coin(symbol), Fiat(symbol).value))
  }

  /** The quantity `buy` orders: sized from the configured `totalCost`, not
      from its `totalCost` argument. */
  function BuyAmount(setup: Setup, price: real): (amount: real)
    requires price != 0.0 && setup.fee != -1.0
    ensures amount * price * (1.0 + setup.fee) == setup.conf.totalCost
  {
    var perUnit := setup.conf.totalCost / price;
    assert perUnit * price == setup.conf.totalCost;
    var amount := perUnit / (1.0 + setup.fee);
    assert amount * (1.0 + setup.fee) == perUnit;
    assert amount * price * (1.0 + setup.fee) == amount * (1.0 + setup.fee) * price;
    amount
  }

  /** The effect of `buy(symbol, price, totalCost)` on the ledger. */
  function BuyStep(setup: Setup, l: Ledger, symbol: string, price: real, totalCost: real, reply: Reply): (t: Trade)
    requires OrderOk(setup, symbol, reply) && price != 0.0
    ensures var coin, fiat := Coin(symbol), Fiat(symbol).value;
      && (t.outcome == InsufficientBalance <==> l.Balance(fiat) < totalCost)
      && (t.outcome == ExecutionFailed <==> l.Balance(fiat) >= totalCost && !setup.testMode && reply.None?)
      && (!t.outcome.Success() ==> t.ledger == l)
      && (forall a :: a != coin && a != fiat ==> t.ledger.Balance(a) == l.Balance(a))
      && (forall c :: c != coin ==> t.ledger.Entry(c) == l.Entry(c))
      && (t.outcome.Success() ==> t.ledger.Entry(coin) == price)
      && (t.outcome.Success() && setup.testMode && coin != fiat ==>
            && t.ledger.Balance(coin) == l.Balance(coin) + BuyAmount(setup, price)
            && t.ledger.Balance(fiat) == l.Balance(fiat) - totalCost)
      && (t.outcome.Success() && !setup.testMode && coin != fiat ==>
            && t.ledger.Balance(coin) == reply.value[fiat]
            && t.ledger.Balance(fiat) == reply.value[coin])
      && (t.outcome.Success() && setup.testMode && coin == fiat ==>
            t.ledger.Balance(coin) == l.Balance(coin) + BuyAmount(setup, price) - totalCost)
      && (t.outcome.Success() && !setup.testMode && coin == fiat ==>
            t.ledger.Balance(coin) == reply.value[coin])
  {
    PairIsJoined(symbol);
    var coin, fiat := Coin(symbol), Fiat(symbol).value;
    if l.Balance(fiat) < totalCost then Trade(l, InsufficientBalance)
    else
      var amount := BuyAmount(setup, price);
      if !setup.testMode then
        if reply.None? then Trade(l, ExecutionFailed)
        else Trade(BalanceUpdate(l, coin, fiat, reply.value[fiat], reply.value[coin], price, true), Filled)
      else Trade(BalanceUpdate(l, coin, fiat, amount, -totalCost, price, false), Filled)
  }

  /** The quantity `sell` orders: everything when `totalCost` is zero,
      otherwise the configured `totalCost` worth at `price`. */
  function SellAmount(setup: Setup, l: Ledger, coin: string, price: real, totalCost: real): (amount: real)
    requires totalCost != 0.0 ==> price != 0.0
    ensures totalCost == 0.0 ==> amount == l.Balance(coin)
    ensures totalCost != 0.0 ==> amount * price == setup.conf.totalCost
  {
    if totalCost == 0.0 then l.Balance(coin) else setup.conf.totalCost / price
  }

  /** What a test-mode sale of `amount` at `price` credits: its value less the fee. */
  function Proceeds(setup: Setup, amount: real, price: real): (credit: real)
    requires setup.fee != -1.0
    ensures credit * (1.0 + setup.fee) == amount * price
  {
    amount * price / (1.0 + setup.fee)
  }

  /** The effect of `sell(symbol, price, totalCost)` on the ledger. */
  function SellStep(setup: Setup, l: Ledger, symbol: string, price: real, totalCost: real, reply: Reply): (t: Trade)
    requires OrderOk(setup, symbol, reply) && (totalCost != 0.0 ==> price != 0.0)
    ensures var coin, fiat := Coin(symbol), Fiat(symbol).value;
      var amount := SellAmount(setup, l, coin, price, totalCost);
      && (t.outcome == InsufficientBalance <==> totalCost != 0.0 && amount > l.Balance(coin))
      && (t.outcome == ExecutionFailed <==>
            !(totalCost != 0.0 && amount > l.Balance(coin)) && !setup.testMode && reply.None?)
      && (!t.outcome.Success() ==> t.ledger == l)
      && (forall a :: a != coin && a != fiat ==> t.ledger.Balance(a) == l.Balance(a))
      && (forall c :: c != coin ==> t.ledger.Entry(c) == l.Entry(c))
      && (t.outcome.Success() ==> !t.ledger.HasEntry(coin))
      && (t.outcome.Success() && setup.testMode && coin != fiat ==>
            && t.ledger.Balance(coin) == l.Balance(coin) - amount
            && t.ledger.Balance(fiat) == l.Balance(fiat) + Proceeds(setup, amount, price))
      && (t.outcome.Success() && !setup.testMode && coin != fiat ==>
            && t.ledger.Balance(coin) == reply.value[coin]
            && t.ledger.Balance(fiat) == reply.value[fiat])
      && (t.outcome.Success() && setup.testMode && coin == fiat ==>
            t.ledger.Balance(coin) == l.Balance(coin) - amount + Proceeds(setup, amount, price))
      && (t.outcome.Success() && !setup.testMode && coin == fiat ==>
            t.ledger.Balance(coin) == reply.value[coin])
  {
    PairIsJoined(symbol);
    var coin, fiat := Coin(symbol), Fiat(symbol).value;
    var amount := SellAmount(setup, l, coin, price, totalCost);
    if totalCost != 0.0 && amount > l.Balance(coin) then Trade(l, InsufficientBalance)
    else if !setup.testMode then
      if reply.None? then Trade(l, ExecutionFailed)
      else Trade(BalanceUpdate(l, coin, fiat, reply.value[coin], reply.value[fiat], 0.0, true), Filled)
    else
      var cost := Proceeds(setup, amount, price);
      Trade(BalanceUpdate(l, coin, fiat, -amount, cost, 0.0, false), Filled)
  }

  /** A full test-mode sell leaves exactly nothing of the coin, credits the
      whole position at `price` less the fee, and closes the position. */
  lemma SellAllClosesPosition(setup: Setup, l: Ledger, symbol: string, price: real, reply: Reply)
    requires OrderOk(setup, symbol, reply) && setup.testMode
    requires Coin(symbol) != Fiat(symbol).value
    ensures var t := SellStep(setup, l, symbol, price, 0.0, reply);
      && t.outcome == Filled
      && t.ledger.Balance(Coin(symbol)) == 0.0
      && t.ledger.Balance(Fiat(symbol).value)
         == l.Balance(Fiat(symbol).value) + Proceeds(setup, l.Balance(Coin(symbol)), price)
      && !t.ledger.HasEntry(Coin(symbol))
  {
  }

  /** Round trip at zero fee: buying `totalCost` worth (the configured size)
      of a coin not held and then selling all of it at the same price gives
      the fiat balance back, leaves no coin, and leaves the position flat. */
  lemma BuyThenSellRestoresFiat(setup: Setup, l: Ledger, symbol: string, price: real, reply: Reply)
    requires OrderOk(setup, symbol, reply) && setup.testMode && setup.fee == 0.0
    requires price > 0.0
    requires Coin(symbol) != Fiat(symbol).value
    requires l.Balance(Coin(symbol)) == 0.0
    requires l.Balance(Fiat(symbol).value) >= setup.conf.totalCost
    ensures var bought := BuyStep(setup, l, symbol, price, setup.conf.totalCost, reply);
      var sold := SellStep(setup, bought.ledger, symbol, price, 0.0, reply);
      && bought.outcome == Filled && sold.outcome == Filled
      && sold.ledger.Balance(Fiat(symbol).value) == l.Balance(Fiat(symbol).value)
      && sold.ledger.Balance(Coin(symbol)) == 0.0
      && !sold.ledger.HasEntry(Coin(symbol))
  {
    var coin, fiat := Coin(symbol), Fiat(symbol).value;
    var total := setup.conf.totalCost;
    var bought := BuyStep(setup, l, symbol, price, total, reply);
    var amount := total / price / 1.0;
    assert bought.ledger.Balance(coin) == amount;
    assert amount * price == total;
    var sold := SellStep(setup, bought.ledger, symbol, price, 0.0, reply);
    assert sold.ledger.Balance(fiat) == l.Balance(fiat) - total + Proceeds(setup, amount, price);
  }

  /** The ledger invariant: no balance is negative, and an open
      position (a non-zero entry) comes with a positive coin balance. */
  ghost predicate Funded(l: Ledger)
  {
    forall a :: l.Balance(a) >= 0.0 && (l.HasEntry(a) ==> l.Balance(a) > 0.0)
  }

  /** What keeps test-mode fills inside `Funded`: a positive configured trade
      size, a positive price and a fee above -100%. */
  predicate SaneTestSetup(setup: Setup, price: real)
  {
    setup.testMode && setup.conf.totalCost > 0.0 && setup.fee > -1.0 && price > 0.0
  }

  lemma PositiveQuotient(x: real, y: real)
    requires x > 0.0 && y > 0.0
    ensures x / y > 0.0
  {
  }

  lemma NonNegativeQuotient(x: real, y: real)
    requires x >= 0.0 && y > 0.0
    ensures x / y >= 0.0
  {
  }

  lemma NonNegativeProduct(x: real, y: real)
    requires x >= 0.0 && y > 0.0
    ensures x * y >= 0.0
  {
  }

  /** A sane test-mode buy adds a positive quantity of the coin. */
  lemma BuyAmountPositive(setup: Setup, price: real)
    requires SaneTestSetup(setup, price)
    ensures BuyAmount(setup, price) > 0.0
  {
    PositiveQuotient(setup.conf.totalCost, price);
    PositiveQuotient(setup.conf.totalCost / price, 1.0 + setup.fee);
  }

  /** A test-mode sell that is not refused sells between nothing and the
      whole coin balance, and is credited a non-negative amount of fiat. */
  lemma SellAmountBounded(setup: Setup, l: Ledger, coin: string, price: real, totalCost: real)
    requires SaneTestSetup(setup, price) && l.Balance(coin) >= 0.0
    requires !(totalCost != 0.0 && SellAmount(setup, l, coin, price, totalCost) > l.Balance(coin))
    ensures 0.0 <= SellAmount(setup, l, coin, price, totalCost) <= l.Balance(coin)
    ensures Proceeds(setup, SellAmount(setup, l, coin, price, totalCost), price) >= 0.0
  {
    var amount := SellAmount(setup, l, coin, price, totalCost);
    if totalCost != 0.0 {
      PositiveQuotient(setup.conf.totalCost, price);
    }
    NonNegativeProduct(amount, price);
    NonNegativeQuotient(amount * price, 1.0 + setup.fee);
  }

  /** A test-mode buy keeps the ledger funded, provided the quote asset it
      spends is not itself held as a position. */
  lemma BuyKeepsFunded(setup: Setup, l: Ledger, symbol: string, price: real, totalCost: real, reply: Reply)
    requires OrderOk(setup, symbol, reply) && SaneTestSetup(setup, price)
    requires Funded(l) && !l.HasEntry(Fiat(symbol).value)
    ensures Funded(BuyStep(setup, l, symbol, price, totalCost, reply).ledger)
  {
    var t := BuyStep(setup, l, symbol, price, totalCost, reply);
    var coin, fiat := Coin(symbol), Fiat(symbol).value;
    if t.outcome.Success() {
      BuyAmountPositive(setup, price);
      var amount := BuyAmount(setup, price);
      assert l.Balance(fiat) >= totalCost;
      forall a ensures t.ledger.Balance(a) >= 0.0 && (t.ledger.HasEntry(a) ==> t.ledger.Balance(a) > 0.0) {
        assert l.Balance(a) >= 0.0 && (l.HasEntry(a) ==> l.Balance(a) > 0.0);
      }
    }
  }

  /** Without that proviso the invariant fails: with a BTC position of 1 coin
      and pairs quoted in BTC, buying 1 BTC worth of ETH leaves the BTC
      position open on a balance of zero. */
  lemma CrossPairBuyEmptiesHeldCoin()
    ensures Coin("ETH/BTC") == "ETH" && Fiat("ETH/BTC") == Some("BTC")
    ensures
      var setup := Setup(Config("USDT", 1.0, "1h", "5m", 1.5), 0.0, true);
      var l := Ledger(map["BTC" := 1.0], map["BTC" := 50.0]);
      var t := BuyStep(setup, l, "ETH/BTC", 0.05, 1.0, None);
      && Funded(l)
      && t.outcome == Filled
      && t.ledger.HasEntry("BTC") && t.ledger.Balance("BTC") == 0.0
      && !Funded(t.ledger)
  {
    PairRoundTrip("ETH", "BTC");
    assert "ETH" + "/" + "BTC" == "ETH/BTC";
  }

  /** A test-mode sell, whole or partial, keeps the ledger funded. */
  lemma SellKeepsFunded(setup: Setup, l: Ledger, symbol: string, price: real, totalCost: real, reply: Reply)
    requires OrderOk(setup, symbol, reply) && SaneTestSetup(setup, price)
    requires Funded(l)
    ensures Funded(SellStep(setup, l, symbol, price, totalCost, reply).ledger)
  {
    var t := SellStep(setup, l, symbol, price, totalCost, reply);
    var coin := Coin(symbol);
    if t.outcome.Success() {
      assert l.Balance(coin) >= 0.0;
      SellAmountBounded(setup, l, coin, price, totalCost);
      forall a ensures t.ledger.Balance(a) >= 0.0 && (t.ledger.HasEntry(a) ==> t.ledger.Balance(a) > 0.0) {
        assert l.Balance(a) >= 0.0 && (l.HasEntry(a) ==> l.Balance(a) > 0.0);
      }
    }
  }

  /** Live mode does not keep that invariant: `buy` writes the venue's fiat
      balance under the coin and the coin balance under the fiat, so a fill
      that leaves 2 coins and no fiat records an open position on a coin
      balance of zero. */
  lemma LiveBuyRecordsSwappedBalances()
    ensures Coin("BTC/USDT") == "BTC" && Fiat("BTC/USDT") == Some("USDT")
    ensures
      var setup := Setup(Config("USDT", 100.0, "1h", "5m", 1.5), 0.001, false);
      var l := Ledger(map["USDT" := 100.0], map[]);
      var reply := Some(map["BTC" := 2.0, "USDT" := 0.0]);
      var t := BuyStep(setup, l, "BTC/USDT", 50.0, 100.0, reply);
      && Funded(l)
      && t.outcome == Filled
      && t.ledger.HasEntry("BTC") && t.ledger.Balance("BTC") == 0.0
      && t.ledger.Balance("USDT") == 2.0
      && !Funded(t.ledger)
  {
    PairRoundTrip("BTC", "USDT");
    assert "BTC" + "/" + "USDT" == "BTC/USDT";
  }

  /** The storage object: live balances and entries, and the copy last written
      by `saveBalance` (what `loadBalance` reads back). */
  class Storage {
    var balances: map<string, real>
    var entries: map<string, real>
    var savedBalances: map<string, real>
    var savedEntries: map<string, real>

    function State(): Ledger
      reads this
    {
      Ledger(balances, entries)
    }

    function Saved(): Ledger
      reads this
    {
      Ledger(savedBalances, savedEntries)
    }

    /** A fresh storage over a persisted ledger `onDisk`; nothing is loaded yet. */
    constructor (onDisk: Ledger)
      ensures State() == Ledger(map[], map[]) && Saved() == onDisk
    {
      balances, entries := map[], map[];
      savedBalances, savedEntries := onDisk.balances, onDisk.entries;
    }

    method GetBalance(asset: string) returns (value: real)
      ensures value == State().Balance(asset)
      ensures asset !in balances ==> value == 0.0
    {
      value := if asset in balances then balances[asset] else 0.0;
    }

    method GetEntry(coin: string) returns (price: real)
      ensures price == State().Entry(coin)
    {
      price := if coin in entries then entries[coin] else 0.0;
    }

    method HasEntry(coin: string) returns (held: bool)
      ensures held == State().HasEntry(coin)
    {
      var price := GetEntry(coin);
      held := price != 0.0;
    }

    method SetBalance(asset: string, value: real)
      modifies this
      ensures State() == old(State()).SetBalance(asset, value) && Saved() == old(Saved())
    {
      balances := balances[asset := value];
    }

    method AddBalance(asset: string, delta: real)
      modifies this
      ensures State() == old(State()).AddBalance(asset, delta) && Saved() == old(Saved())
    {
      var current := GetBalance(asset);
      balances := balances[asset := current + delta];
    }

    method SetEntry(coin: string, price: real)
      modifies this
      ensures State() == old(State()).SetEntry(coin, price) && Saved() == old(Saved())
    {
      entries := entries[coin := price];
    }

    method SaveBalance()
      modifies this
      ensures Saved() == State() && State() == old(State())
    {
      savedBalances, savedEntries := balances, entries;
    }

    method LoadBalance()
      modifies this
      ensures State() == old(Saved()) && Saved() == old(Saved())
    {
      balances, entries := savedBalances, savedEntries;
    }

    method ResetBalance(symbols: seq<string>)
      modifies this
      ensures State() == ResetLedger(symbols) && Saved() == old(Saved())
    {
      var l := ResetLedger(symbols);
      balances, entries := l.balances, l.entries;
    }
  }

  /** A property of the storage abstraction rather than a model of a routine
      of the bot: saving and then loading gives back the identical balances
      and entries. */
  method SaveThenLoad(s: Storage)
    modifies s
    ensures s.State() == old(s.State()) && s.Saved() == s.State()
  {
    s.SaveBalance();
    s.LoadBalance();
  }
}
