/** The `TradeBot` object: its balance seeding at start-up, `updateBalance`,
    `buy`, `sell`, and one duty cycle of `tradeLoop`. The storage object is
    updated in place through its own methods; the venue's answers are
    parameters. */
module Trading {
  import opened Wrappers
  import opened Candles
  import opened Symbols
  import opened Ledger
  import opened Strategy

  /** The live-mode seeding loop: every listed asset the venue reports takes
      the venue's free amount; the rest of the ledger is kept. */
  function Mirror(l: Ledger, symbols: seq<string>, free: map<string, real>): Ledger
  {
    if |symbols| == 0 then l
    else
      var before := Mirror(l, symbols[..|symbols| - 1], free);
      var a := symbols[|symbols| - 1];
      if a in free then before.SetBalance(a, free[a]) else before
  }

  lemma {:induction false} MirrorMeaning(l: Ledger, symbols: seq<string>, free: map<string, real>)
    ensures forall a :: Mirror(l, symbols, free).Balance(a)
                     == if a in symbols && a in free then free[a] else l.Balance(a)
    ensures Mirror(l, symbols, free).entries == l.entries
  {
    if |symbols| > 0 {
      var init := symbols[..|symbols| - 1];
      MirrorMeaning(l, init, free);
      assert symbols == init + [symbols[|symbols| - 1]];
    }
  }

  /** Test-mode seeding from scratch: the base asset holds `baseAmount`, every
      other asset is at zero, and no position is open. */
  function FundedLedger(symbols: seq<string>, base: string, baseAmount: real): (l: Ledger)
    ensures l.Balance(base) == baseAmount
    ensures forall a :: a != base ==> l.Balance(a) == 0.0
    ensures forall c :: !l.HasEntry(c)
  {
    ResetLedger(symbols).SetBalance(base, baseAmount)
  }

  class TradeBot {
    const stor: Storage
    const setup: Setup
    var lastCycle: real

    /** The fields `__init__` sets before it seeds balances. */
    constructor (stor: Storage, conf: Config, fee: real, testMode: bool)
      ensures this.stor == stor && setup == Setup(conf, fee, testMode) && lastCycle == 0.0
    {
      this.stor := stor;
      setup := Setup(conf, fee, testMode);
      lastCycle := 0.0;
    }

    /** The seeding part of `__init__`: read the asset universe; stop if it is
        empty; in test mode load the cached ledger and, on request or when it
        holds no balances, reset it and fund the base asset; in live mode copy
        the venue's free balances of the listed assets; then save. */
    method SeedBalances(table: Option<seq<string>>, resetBalance: bool, baseAmount: real,
                        venueFree: map<string, real>) returns (symbolList: seq<string>)
      modifies stor
      ensures table.None? ==> symbolList == []
      ensures table.Some? ==> symbolList == Unique(Components(table.value))
      ensures symbolList == [] ==> unchanged(stor)
      ensures symbolList != [] && setup.testMode ==>
        stor.State() == (if resetBalance || |old(stor.Saved()).balances| == 0
                         then FundedLedger(symbolList, setup.conf.baseSymbol, baseAmount)
                         else old(stor.Saved()))
      ensures symbolList != [] && !setup.testMode ==>
        stor.State() == Mirror(old(stor.State()), symbolList, venueFree)
      ensures symbolList != [] ==> stor.Saved() == stor.State()
    {
      symbolList := LoadTradeSymbolList(table);
      if symbolList == [] {
        return;
      }
      if setup.testMode {
        stor.LoadBalance();
        if resetBalance || |stor.balances| == 0 {
          stor.ResetBalance(symbolList);
          stor.SetBalance(setup.conf.baseSymbol, baseAmount);
          stor.SaveBalance();
        }
      } else {
        var i := 0;
        while i < |symbolList|
          invariant 0 <= i <= |symbolList|
          invariant stor.State() == Mirror(old(stor.State()), symbolList[..i], venueFree)
        {
          assert symbolList[..i + 1][..i] == symbolList[..i];
          if symbolList[i] in venueFree {
            stor.SetBalance(symbolList[i], venueFree[symbolList[i]]);
          }
          i := i + 1;
        }
        assert symbolList[..i] == symbolList;
        stor.SaveBalance();
      }
    }

    /** `updateBalance`: set or shift the coin and fiat balances, write the
        coin's entry, and save the ledger. */
    method UpdateBalance(coin: string, fiat: string, coinValue: real, fiatValue: real,
                         entry: real, setAbsolute: bool)
      modifies stor
      ensures stor.State()
           == BalanceUpdate(old(stor.State()), coin, fiat, coinValue, fiatValue, entry, setAbsolute)
      ensures stor.Saved() == stor.State()
    {
      if setAbsolute {
        stor.SetBalance(coin, coinValue);
        stor.SetBalance(fiat, fiatValue);
      } else {
        stor.AddBalance(coin, coinValue);
        stor.AddBalance(fiat, fiatValue);
      }
      stor.SetEntry(coin, entry);
      stor.SaveBalance();
    }

    /** `buy`: refused without the venue when the fiat balance is below
        `totalCost`; otherwise the order (live) or the simulated fill (test).
        `ordered` records whether the venue was asked. A refused or failed
        order leaves the storage untouched; a filled one is saved. */
    method Buy(symbol: string, price: real, totalCost: real, reply: Reply)
      returns (outcome: Outcome, ghost ordered: bool)
      requires OrderOk(setup, symbol, reply) && price != 0.0
      modifies stor
      ensures Trade(stor.State(), outcome)
           == BuyStep(setup, old(stor.State()), symbol, price, totalCost, reply)
      ensures ordered <==> !setup.testMode && old(stor.State()).Balance(Fiat(symbol).value) >= totalCost
      ensures outcome.Success() ==> stor.Saved() == stor.State()
      ensures !outcome.Success() ==> unchanged(stor)
    {
      PairIsJoined(symbol);
      var parts := Split(symbol);
      var coin, fiat := parts[0], parts[1];
      ordered := false;
      var fiatBalance := stor.GetBalance(fiat);
      if fiatBalance < totalCost {
        return InsufficientBalance, ordered;
      }
      var amount := setup.conf.totalCost / price / (1.0 + setup.fee);
      if !setup.testMode {
        ordered := true;
        if reply.None? {
          return ExecutionFailed, ordered;
        }
        UpdateBalance(coin, fiat, reply.value[fiat], reply.value[coin], price, true);
      } else {
        UpdateBalance(coin, fiat, amount, -totalCost, price, false);
      }
      return Filled, ordered;
    }

    /** `sell`: `totalCost == 0` sells the whole coin balance; otherwise the
        configured trade size, refused without the venue when it exceeds the
        coin balance. The entry goes back to flat on a fill. */
    method Sell(symbol: string, price: real, totalCost: real, reply: Reply)
      returns (outcome: Outcome, ghost ordered: bool)
      requires OrderOk(setup, symbol, reply) && (totalCost != 0.0 ==> price != 0.0)
      modifies stor
      ensures Trade(stor.State(), outcome)
           == SellStep(setup, old(stor.State()), symbol, price, totalCost, reply)
      ensures ordered <==>
        (!setup.testMode
         && !(totalCost != 0.0 && SellAmount(setup, old(stor.State()), Coin(symbol), price, totalCost)
                                  > old(stor.State()).Balance(Coin(symbol))))
      ensures outcome.Success() ==> stor.Saved() == stor.State()
      ensures !outcome.Success() ==> unchanged(stor)
    {
      PairIsJoined(symbol);
      var parts := Split(symbol);
      var coin, fiat := parts[0], parts[1];
      ordered := false;
      var coinBalance := stor.GetBalance(coin);
      var amount;
      if totalCost == 0.0 {
        amount := coinBalance;
      } else {
        amount := setup.conf.totalCost / price;
        if amount > coinBalance {
          return InsufficientBalance, ordered;
        }
      }
      if !setup.testMode {
        ordered := true;
        if reply.None? {
          return ExecutionFailed, ordered;
        }
        UpdateBalance(coin, fiat, reply.value[coin], reply.value[fiat], 0.0, true);
      } else {
        var cost := Proceeds(setup, amount, price);
        UpdateBalance(coin, fiat, -amount, cost, 0.0, false);
      }
      return Filled, ordered;
    }

    /** The body of the loop over active symbols for one row: classify its
        candles (the volume status is computed but consulted by no rule), then
        sell a held position on take-profit or stop-loss, or buy a flat one on
        an entry signal. */
    method TradeActive(row: Row, m: Market)
      requires SymbolOk(setup, m, row.symbol) && |m.candles(row.symbol)| >= 2
      modifies stor
      ensures stor.State() == ActiveStep(setup, old(stor.State()), row, m)
      ensures stor.Saved() == stor.State() || unchanged(stor)
    {
      var candles := m.candles(row.symbol);
      var volumeValid := GetVolumeStatus(candles, 2);
      var dir, refOpen, price := GetCandleStatus(candles);
      var coin := Coin(row.symbol);
      var held := stor.HasEntry(coin);
      if held {
        var entry := stor.GetEntry(coin);
        var entryChange := price / entry - 1.0;
        if dir > 0 && entryChange > row.avgUp * 0.8 {
          var outcome, ordered := Sell(row.symbol, price, 0.0, m.sellReply(row.symbol));
        } else if dir < 0 && entryChange < row.avgDown * setup.conf.sellLossMult {
          var outcome, ordered := Sell(row.symbol, price, 0.0, m.sellReply(row.symbol));
        }
      } else {
        var candleChange := price / refOpen - 1.0;
        if dir < 0 && candleChange < row.avgDown * 0.8 {
          var outcome, ordered := Buy(row.symbol, price, setup.conf.totalCost, m.buyReply(row.symbol));
        }
      }
    }

    /** The body of the loop over obsolete symbols for one symbol: a held
        position is sold on a rising bar with a gain above twice the fee. */
    method TradeObsolete(symbol: string, m: Market)
      requires SymbolOk(setup, m, symbol)
      modifies stor
      ensures stor.State() == ObsoleteStep(setup, old(stor.State()), symbol, m)
      ensures stor.Saved() == stor.State() || unchanged(stor)
    {
      var candles := m.candles(symbol);
      var dir, refOpen, price := GetCandleStatus(candles);
      var coin := Coin(symbol);
      var held := stor.HasEntry(coin);
      if held {
        var entry := stor.GetEntry(coin);
        var entryChange := price / entry - 1.0;
        if dir > 0 && entryChange > setup.fee * 2.0 {
          var outcome, ordered := Sell(symbol, price, 0.0, m.sellReply(symbol));
        }
      }
    }

    /** One pass of the `tradeLoop` body at time `now`: nothing happens until
        `interval` seconds (the short candle length) have passed since the
        last cycle; then the cycle is stamped, the active rows are traded in
        order and the obsolete symbols are offered for exit. */
    method Cycle(now: real, interval: int, rows: seq<Row>, obsolete: seq<string>, m: Market)
      returns (ran: bool)
      requires TimeToSec(setup.conf.shortCandle) == Some(interval)
      requires forall k :: 0 <= k < |rows| ==>
        SymbolOk(setup, m, rows[k].symbol) && |m.candles(rows[k].symbol)| >= 2
      requires forall k :: 0 <= k < |obsolete| ==> SymbolOk(setup, m, obsolete[k])
      modifies this, stor
      ensures ran <==> old(lastCycle) <= now - interval as real
      ensures !ran ==> lastCycle == old(lastCycle) && unchanged(stor)
      ensures ran ==> lastCycle == now
      ensures ran ==>
        stor.State() == ObsoletePass(setup, ActivePass(setup, old(stor.State()), rows, m), obsolete, m)
      ensures stor.State() != old(stor.State()) ==> stor.Saved() == stor.State()
      ensures stor.Saved() == old(stor.Saved()) || stor.Saved() == stor.State()
    {
      if lastCycle > now - interval as real {
        return false;
      }
      ran := true;
      lastCycle := now;
      ghost var start, startSaved := stor.State(), stor.Saved();

      var i := 0;
      while i < |rows|
        invariant 0 <= i <= |rows|
        invariant lastCycle == now
        invariant stor.State() == ActivePass(setup, start, rows[..i], m)
        invariant stor.Saved() == stor.State() || (stor.State() == start && stor.Saved() == startSaved)
      {
        assert rows[..i + 1][..i] == rows[..i];
        TradeActive(rows[i], m);
        i := i + 1;
      }
      assert rows[..i] == rows;

      ghost var afterActive, afterActiveSaved := stor.State(), stor.Saved();
      var j := 0;
      while j < |obsolete|
        invariant 0 <= j <= |obsolete|
        invariant lastCycle == now
        invariant stor.State() == ObsoletePass(setup, afterActive, obsolete[..j], m)
        invariant stor.Saved() == stor.State()
               || (stor.State() == afterActive && stor.Saved() == afterActiveSaved)
      {
        assert obsolete[..j + 1][..j] == obsolete[..j];
        TradeObsolete(obsolete[j], m);
        j := j + 1;
      }
      assert obsolete[..j] == obsolete;
    }
  }
}
