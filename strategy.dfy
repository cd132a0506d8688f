/** The decision rules of `tradeLoop` and the effect of one cycle on the
    ledger: active symbols are visited in order (each may open or close a
    position), then obsolete symbols (each may only close one). */
module Strategy {
  import opened Wrappers
  import opened Candles
  import opened Symbols
  import opened Ledger

  /** One row of the symbol table: the market and its historical moves. */
  datatype Row = Row(symbol: string, avgUp: real, avgDown: real)

  /** What the venue answers during one cycle: the candle series of each
      symbol, and the reply to a buy or sell order on it. */
  datatype Market = Market(
    candles: string -> seq<Bar>,
    buyReply: string -> Reply,
    sellReply: string -> Reply)

  lemma ScalePreservesOrder(x: real, y: real, r: real)
    requires r > 0.0
    ensures x < y <==> x * r < y * r
    ensures x > y <==> x * r > y * r
  {
  }

  /** A relative change below a bound is a price below the scaled reference. */
  lemma RatioBelow(price: real, reference: real, bound: real)
    ensures reference > 0.0 ==> (price / reference - 1.0 < bound <==> price < reference * (1.0 + bound))
  {
    if reference > 0.0 {
      var ratio := price / reference;
      assert ratio * reference == price;
      ScalePreservesOrder(ratio, 1.0 + bound, reference);
    }
  }

  /** A relative change above a bound is a price above the scaled reference. */
  lemma RatioAbove(price: real, reference: real, bound: real)
    ensures reference > 0.0 ==> (price / reference - 1.0 > bound <==> price > reference * (1.0 + bound))
  {
    if reference > 0.0 {
      var ratio := price / reference;
      assert ratio * reference == price;
      ScalePreservesOrder(ratio, 1.0 + bound, reference);
    }
  }

  /** Entry rule for a flat symbol: a falling bar whose run has dropped by
      more than 80% of the usual down move. */
  predicate EntrySignal(s: Status, avgDown: real)
    requires s.refOpen != 0.0
    ensures s.refOpen > 0.0 ==>
      (EntrySignal(s, avgDown) <==> s.dir < 0 && s.price < s.refOpen * (1.0 + avgDown * 0.8))
  {
    RatioBelow(s.price, s.refOpen, avgDown * 0.8);
    s.dir < 0 && s.price / s.refOpen - 1.0 < avgDown * 0.8
  }

  /** Take-profit rule: a rising bar and a gain over the entry above 80% of
      the usual up move. */
  predicate TakeProfit(s: Status, entry: real, avgUp: real)
    requires entry != 0.0
    ensures entry > 0.0 ==>
      (TakeProfit(s, entry, avgUp) <==> s.dir > 0 && s.price > entry * (1.0 + avgUp * 0.8))
  {
    RatioAbove(s.price, entry, avgUp * 0.8);
    s.dir > 0 && s.price / entry - 1.0 > avgUp * 0.8
  }

  /** Stop-loss rule: a falling bar and a change from the entry below the usual
      down move times the configured `sellLossMult`. */
  predicate StopLoss(s: Status, entry: real, avgDown: real, sellLossMult: real)
    requires entry != 0.0
    ensures entry > 0.0 ==>
      (StopLoss(s, entry, avgDown, sellLossMult)
       <==> s.dir < 0 && s.price < entry * (1.0 + avgDown * sellLossMult))
  {
    RatioBelow(s.price, entry, avgDown * sellLossMult);
    s.dir < 0 && s.price / entry - 1.0 < avgDown * sellLossMult
  }

  /** Exit rule for an obsolete symbol: a rising bar and a gain over the entry
      above twice the fee. */
  predicate ObsoleteExit(s: Status, entry: real, fee: real)
    requires entry != 0.0
    ensures entry > 0.0 ==>
      (ObsoleteExit(s, entry, fee) <==> s.dir > 0 && s.price > entry * (1.0 + fee * 2.0))
  {
    RatioAbove(s.price, entry, fee * 2.0);
    s.dir > 0 && s.price / entry - 1.0 > fee * 2.0
  }

  /** What `getCandleStatus` and the orders demand for a symbol visited in a
      cycle: a series to classify, no division by a zero reference open or
      price, and usable venue replies. */
  predicate SymbolOk(setup: Setup, m: Market, symbol: string)
  {
    && |m.candles(symbol)| >= 1
    && CandleStatus(m.candles(symbol)).refOpen != 0.0
    && CandleStatus(m.candles(symbol)).price != 0.0
    && OrderOk(setup, symbol, m.buyReply(symbol))
    && OrderOk(setup, symbol, m.sellReply(symbol))
  }

  /** The body of the loop over active symbols, for one row. */
  function ActiveStep(setup: Setup, l: Ledger, row: Row, m: Market): Ledger
    requires SymbolOk(setup, m, row.symbol)
  {
    var s := CandleStatus(m.candles(row.symbol));
    var coin := Coin(row.symbol);
    if l.HasEntry(coin) then
      if TakeProfit(s, l.Entry(coin), row.avgUp)
         || StopLoss(s, l.Entry(coin), row.avgDown, setup.conf.sellLossMult)
      then SellStep(setup, l, row.symbol, s.price, 0.0, m.sellReply(row.symbol)).ledger
      else l
    else if EntrySignal(s, row.avgDown) then
      BuyStep(setup, l, row.symbol, s.price, setup.conf.totalCost, m.buyReply(row.symbol)).ledger
    else l
  }

  /** The loop over active symbols: each row sees the ledger the rows before
      it left behind. */
  function ActivePass(setup: Setup, l: Ledger, rows: seq<Row>, m: Market): Ledger
    requires forall k :: 0 <= k < |rows| ==> SymbolOk(setup, m, rows[k].symbol)
  {
    if |rows| == 0 then l
    else ActiveStep(setup, ActivePass(setup, l, rows[..|rows| - 1], m), rows[|rows| - 1], m)
  }

  /** The body of the loop over obsolete symbols, for one symbol. */
  function ObsoleteStep(setup: Setup, l: Ledger, symbol: string, m: Market): Ledger
    requires SymbolOk(setup, m, symbol)
  {
    var s := CandleStatus(m.candles(symbol));
    var coin := Coin(symbol);
    if l.HasEntry(coin) && ObsoleteExit(s, l.Entry(coin), setup.fee) then
      SellStep(setup, l, symbol, s.price, 0.0, m.sellReply(symbol)).ledger
    else l
  }

  /** The loop over obsolete symbols. */
  function ObsoletePass(setup: Setup, l: Ledger, symbols: seq<string>, m: Market): Ledger
    requires forall k :: 0 <= k < |symbols| ==> SymbolOk(setup, m, symbols[k])
  {
    if |symbols| == 0 then l
    else ObsoleteStep(setup, ObsoletePass(setup, l, symbols[..|symbols| - 1], m), symbols[|symbols| - 1], m)
  }

  /** An active row changes the ledger only by opening a flat position on an
      entry signal or closing a held one on take-profit or stop-loss; an
      opened position is entered at the last close. Conversely, when the order
      fills (always in test mode, on a reply in live mode), a flat symbol with
      an entry signal and enough fiat is bought, and a held one whose
      take-profit or stop-loss fires is sold in full. */
  lemma ActiveStepFollowsRules(setup: Setup, l: Ledger, row: Row, m: Market)
    requires SymbolOk(setup, m, row.symbol)
    ensures var s := CandleStatus(m.candles(row.symbol));
      var coin := Coin(row.symbol);
      var r := ActiveStep(setup, l, row, m);
      && (!l.HasEntry(coin) && r != l ==>
            EntrySignal(s, row.avgDown) && r.HasEntry(coin) && r.Entry(coin) == s.price)
      && (l.HasEntry(coin) && r != l ==>
            (TakeProfit(s, l.Entry(coin), row.avgUp)
             || StopLoss(s, l.Entry(coin), row.avgDown, setup.conf.sellLossMult))
            && !r.HasEntry(coin))
      && ((setup.testMode || m.buyReply(row.symbol).Some?)
          && !l.HasEntry(coin) && EntrySignal(s, row.avgDown)
          && l.Balance(Fiat(row.symbol).value) >= setup.conf.totalCost ==>
            r.HasEntry(coin) && r.Entry(coin) == s.price)
      && ((setup.testMode || m.sellReply(row.symbol).Some?)
          && l.HasEntry(coin)
          && (TakeProfit(s, l.Entry(coin), row.avgUp)
              || StopLoss(s, l.Entry(coin), row.avgDown, setup.conf.sellLossMult)) ==>
            !r.HasEntry(coin))
      && (setup.testMode && coin != Fiat(row.symbol).value && l.HasEntry(coin)
          && (TakeProfit(s, l.Entry(coin), row.avgUp)
              || StopLoss(s, l.Entry(coin), row.avgDown, setup.conf.sellLossMult)) ==>
            r.Balance(coin) == 0.0)
  {
  }

  /** An obsolete symbol changes the ledger only by closing a held position
      whose exit rule holds; conversely, a held position whose exit rule holds
      is sold in full when the order fills. */
  lemma ObsoleteStepFollowsRule(setup: Setup, l: Ledger, symbol: string, m: Market)
    requires SymbolOk(setup, m, symbol)
    ensures var s := CandleStatus(m.candles(symbol));
      var coin := Coin(symbol);
      var r := ObsoleteStep(setup, l, symbol, m);
      && (r != l ==> l.HasEntry(coin) && ObsoleteExit(s, l.Entry(coin), setup.fee) && !r.HasEntry(coin))
      && (forall c :: r.Entry(c) == l.Entry(c) || r.Entry(c) == 0.0)
      && ((setup.testMode || m.sellReply(symbol).Some?)
          && l.HasEntry(coin) && ObsoleteExit(s, l.Entry(coin), setup.fee) ==>
            !r.HasEntry(coin))
      && (setup.testMode && coin != Fiat(symbol).value
          && l.HasEntry(coin) && ObsoleteExit(s, l.Entry(coin), setup.fee) ==>
            r.Balance(coin) == 0.0)
  {
  }

  /** The obsolete pass never opens a position nor moves an entry price: each
      entry either stays or drops to flat. */
  lemma {:induction false} ObsoletePassOnlyCloses(setup: Setup, l: Ledger, symbols: seq<string>, m: Market)
    requires forall k :: 0 <= k < |symbols| ==> SymbolOk(setup, m, symbols[k])
    ensures forall c :: ObsoletePass(setup, l, symbols, m).Entry(c) == l.Entry(c)
                     || ObsoletePass(setup, l, symbols, m).Entry(c) == 0.0
    ensures forall c :: ObsoletePass(setup, l, symbols, m).HasEntry(c) ==> l.HasEntry(c)
  {
    if |symbols| > 0 {
      var init := symbols[..|symbols| - 1];
      ObsoletePassOnlyCloses(setup, l, init, m);
      ObsoleteStepFollowsRule(setup, ObsoletePass(setup, l, init, m), symbols[|symbols| - 1], m);
    }
  }

  /** Symbols are visited in order over one shared fiat balance: with 150
      units of fiat and a trade size of 100, two symbols that both signal an
      entry cannot both be bought; the first one is, the second is refused. */
  lemma SharedFiatExample()
    ensures
      var setup := Setup(Config("U", 100.0, "1h", "5m", 1.5), 0.0, true);
      var l := Ledger(map["U" := 150.0], map[]);
      var bars := [Bar(10.0, 10.0, 1.0), Bar(9.0, 8.0, 1.0)];
      var m := Market(_ => bars, _ => None, _ => None);
      var rows := [Row("A/U", 0.1, -0.1), Row("B/U", 0.1, -0.1)];
      (forall k :: 0 <= k < |rows| ==> SymbolOk(setup, m, rows[k].symbol))
      && var r := ActivePass(setup, l, rows, m);
      && r.Balance("U") == 50.0
      && r.HasEntry("A") && r.Balance("A") == 12.5
      && !r.HasEntry("B") && r.Balance("B") == 0.0
  {
    var setup := Setup(Config("U", 100.0, "1h", "5m", 1.5), 0.0, true);
    var l := Ledger(map["U" := 150.0], map[]);
    var bars := [Bar(10.0, 10.0, 1.0), Bar(9.0, 8.0, 1.0)];
    var m := Market(_ => bars, _ => None, _ => None);
    var rows := [Row("A/U", 0.1, -0.1), Row("B/U", 0.1, -0.1)];
    PairRoundTrip("A", "U");
    PairRoundTrip("B", "U");
    assert "A" + "/" + "U" == "A/U" && "B" + "/" + "U" == "B/U";
    assert RunStart(bars, -1, 1) == 0;
    var s := CandleStatus(bars);
    assert s == Status(-1, 10.0, 8.0);
    assert EntrySignal(s, -0.1);
    assert rows[..1][..0] == [];
    assert ActivePass(setup, l, rows[..1][..0], m) == l;
    var first := ActivePass(setup, l, rows[..1], m);
    assert first == ActiveStep(setup, l, rows[0], m);
    assert BuyAmount(setup, 8.0) == 12.5;
    assert !l.HasEntry("A") && l.Balance("U") == 150.0 && l.Balance("A") == 0.0;
    var t := BuyStep(setup, l, "A/U", 8.0, 100.0, None);
    assert first == t.ledger;
    assert t.outcome == Filled;
    assert first.Balance("U") == 50.0 && first.Balance("A") == 12.5 && first.HasEntry("A");
    assert !first.HasEntry("B");
  }

  /** The obsolete exit threshold `2 * fee` is break-even only to first order:
      with a 10% fee, an entry at 1 and an exit at 1.205 (a 20.5% gain) the
      rule fires, yet a test-mode round trip of 100 returns less than 100. */
  lemma ObsoleteExitBelowBreakEven()
    ensures
      var setup := Setup(Config("U", 100.0, "1h", "5m", 1.5), 0.1, true);
      var s := Status(1, 1.0, 1.205);
      && ObsoleteExit(s, 1.0, setup.fee)
      && Proceeds(setup, BuyAmount(setup, 1.0), s.price) < setup.conf.totalCost
  {
  }

  /** No quote asset of the universe `u` is traded as a coin of `u`. */
  ghost predicate CoinsAreNotQuotes(u: seq<string>)
  {
    forall i, j :: 0 <= i < |u| && 0 <= j < |u| && IsPair(u[j]) ==> Coin(u[i]) != Fiat(u[j]).value
  }

  /** No quote asset of the universe `u` carries an open position. */
  ghost predicate QuotesFlat(l: Ledger, u: seq<string>)
  {
    forall j :: 0 <= j < |u| && IsPair(u[j]) ==> !l.HasEntry(Fiat(u[j]).value)
  }

  /** Test mode with a positive trade size, a fee above -100% and positive
      last closes for every symbol of `u`. */
  ghost predicate SaneTestCycle(setup: Setup, m: Market, u: seq<string>)
  {
    && setup.testMode && setup.conf.totalCost > 0.0 && setup.fee > -1.0
    && forall k :: 0 <= k < |u| && |m.candles(u[k])| >= 1 ==> CandleStatus(m.candles(u[k])).price > 0.0
  }

  /** One active row keeps the ledger funded and the quotes flat. */
  lemma ActiveStepKeepsFunded(setup: Setup, l: Ledger, row: Row, m: Market, u: seq<string>, k: nat)
    requires k < |u| && u[k] == row.symbol && SymbolOk(setup, m, row.symbol)
    requires SaneTestCycle(setup, m, u) && CoinsAreNotQuotes(u)
    requires Funded(l) && QuotesFlat(l, u)
    ensures Funded(ActiveStep(setup, l, row, m)) && QuotesFlat(ActiveStep(setup, l, row, m), u)
  {
    var s := CandleStatus(m.candles(row.symbol));
    var r := ActiveStep(setup, l, row, m);
    assert s.price > 0.0;
    PairIsJoined(row.symbol);
    var fiat := Fiat(row.symbol).value;
    assert !l.HasEntry(fiat);
    BuyKeepsFunded(setup, l, row.symbol, s.price, setup.conf.totalCost, m.buyReply(row.symbol));
    SellKeepsFunded(setup, l, row.symbol, s.price, 0.0, m.sellReply(row.symbol));
    forall j | 0 <= j < |u| && IsPair(u[j]) ensures !r.HasEntry(Fiat(u[j]).value) {
      assert Coin(u[k]) != Fiat(u[j]).value;
    }
  }

  /** The same for one obsolete symbol. */
  lemma ObsoleteStepKeepsFunded(setup: Setup, l: Ledger, symbol: string, m: Market, u: seq<string>, k: nat)
    requires k < |u| && u[k] == symbol && SymbolOk(setup, m, symbol)
    requires SaneTestCycle(setup, m, u) && CoinsAreNotQuotes(u)
    requires Funded(l) && QuotesFlat(l, u)
    ensures Funded(ObsoleteStep(setup, l, symbol, m)) && QuotesFlat(ObsoleteStep(setup, l, symbol, m), u)
  {
    var s := CandleStatus(m.candles(symbol));
    var r := ObsoleteStep(setup, l, symbol, m);
    assert s.price > 0.0;
    SellKeepsFunded(setup, l, symbol, s.price, 0.0, m.sellReply(symbol));
    forall j | 0 <= j < |u| && IsPair(u[j]) ensures !r.HasEntry(Fiat(u[j]).value) {
      assert Coin(u[k]) != Fiat(u[j]).value;
    }
  }

  lemma {:induction false} ActivePassKeepsFunded(setup: Setup, l: Ledger, rows: seq<Row>, m: Market, u: seq<string>)
    requires forall k :: 0 <= k < |rows| ==> SymbolOk(setup, m, rows[k].symbol) && rows[k].symbol in u
    requires SaneTestCycle(setup, m, u) && CoinsAreNotQuotes(u)
    requires Funded(l) && QuotesFlat(l, u)
    ensures Funded(ActivePass(setup, l, rows, m)) && QuotesFlat(ActivePass(setup, l, rows, m), u)
  {
    if |rows| > 0 {
      var init := rows[..|rows| - 1];
      var row := rows[|rows| - 1];
      ActivePassKeepsFunded(setup, l, init, m, u);
      var k :| 0 <= k < |u| && u[k] == row.symbol;
      ActiveStepKeepsFunded(setup, ActivePass(setup, l, init, m), row, m, u, k);
    }
  }

  lemma {:induction false} ObsoletePassKeepsFunded(setup: Setup, l: Ledger, symbols: seq<string>, m: Market, u: seq<string>)
    requires forall k :: 0 <= k < |symbols| ==> SymbolOk(setup, m, symbols[k]) && symbols[k] in u
    requires SaneTestCycle(setup, m, u) && CoinsAreNotQuotes(u)
    requires Funded(l) && QuotesFlat(l, u)
    ensures Funded(ObsoletePass(setup, l, symbols, m)) && QuotesFlat(ObsoletePass(setup, l, symbols, m), u)
  {
    if |symbols| > 0 {
      var init := symbols[..|symbols| - 1];
      var symbol := symbols[|symbols| - 1];
      ObsoletePassKeepsFunded(setup, l, init, m, u);
      var k :| 0 <= k < |u| && u[k] == symbol;
      ObsoleteStepKeepsFunded(setup, ObsoletePass(setup, l, init, m), symbol, m, u, k);
    }
  }

  /** A whole test-mode cycle keeps the ledger funded: no balance goes
      negative and every open position keeps a positive coin balance, as long
      as no quote asset of the traded universe is also traded as a coin. */
  lemma CycleKeepsFunded(setup: Setup, l: Ledger, rows: seq<Row>, obsolete: seq<string>, m: Market, u: seq<string>)
    requires forall k :: 0 <= k < |rows| ==> SymbolOk(setup, m, rows[k].symbol) && rows[k].symbol in u
    requires forall k :: 0 <= k < |obsolete| ==> SymbolOk(setup, m, obsolete[k]) && obsolete[k] in u
    requires SaneTestCycle(setup, m, u) && CoinsAreNotQuotes(u)
    requires Funded(l) && QuotesFlat(l, u)
    ensures Funded(ObsoletePass(setup, ActivePass(setup, l, rows, m), obsolete, m))
  {
    ActivePassKeepsFunded(setup, l, rows, m, u);
    ObsoletePassKeepsFunded(setup, ActivePass(setup, l, rows, m), obsolete, m, u);
  }
}
