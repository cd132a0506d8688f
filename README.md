# Trading engine of `TradeBot`, modelled in Dafny

This project models the core of `TradeBot` (`newer_tradeBot_core.py`), a spot-trading
bot. The bot watches a fixed set of market pairs such as `BTC/USDT`. It reads each pair's
recent candles and classifies them into a direction and a run-start price. From that it
decides whether to open or close a position. It keeps a local ledger of free balances per
asset and an entry price per coin, where `0.0` means flat.

The model covers:

- **Signal classifier** (`candles.dfy`, module `Candles`). `getCandleStatus` and
  `getVolumeStatus` are methods with the source's loops, including its `break`s and early
  `return`s. Each is proved against a specification function. Lemmas characterise the
  specification: the reference open starts a strictly monotone run of opens, that run
  start is unique, and the run's change is positive on a rising bar and never positive on a
  falling one.
- **Helpers** (`symbols.dfy`, module `Symbols`).
  - `split("/")` with `coin`/`fiat`, with a round trip through `"/".join`.
  - `timeToSec`, with a round trip from a written number and unit, for example "5m" gives 300.
  - `loadTradeSymbolList`, a method with the source's nested loops. It is proved to return
    the distinct pieces of the market symbols in first-occurrence order.
- **Ledger and executor** (`ledger.dfy`, module `Ledger`).
  - A `Ledger` value holds the balances and entries.
  - The class `Storage` holds the live maps and the copy written by `saveBalance`.
  - `BuyStep`/`SellStep` give the exact effect of `buy`/`sell` in both modes: absolute
    resync from the venue's reply in live mode, relative deltas with fee arithmetic in test
    mode. Every failure path leaves the ledger as it was.
  - Lemmas prove the zero-fee round trip, the full-sell closing, and that test-mode fills
    preserve the ledger invariant (no negative balance, and every open position has a
    positive coin balance).
- **Decision rules and the duty cycle** (`strategy.dfy`, module `Strategy`; `trading.dfy`,
  module `Trading`).
  - Entry, take-profit, stop-loss and obsolete-exit rules.
  - The ledger effect of one cycle as a left-to-right fold, so each symbol sees the fiat
    balance earlier symbols left behind.
  - The class `TradeBot` with `SeedBalances` (the seeding part of `__init__`),
    `UpdateBalance`, `Buy`, `Sell`, the two loop bodies and `Cycle` (one pass of
    `tradeLoop` at time `now`, gated on `lastCycle`). Each is proved equal to the pure
    specification.
  - Lemmas show: an active symbol trades only by its rules and does trade whenever a rule
    fires and the order fills, the obsolete pass only ever closes positions, and a whole test-mode cycle keeps the ledger invariant.

Prices, balances and fees are `real`. The venue's answers (candle series, order replies,
free balances) are parameters, not calls. A Python exception (`IndexError`, `ValueError`,
`ZeroDivisionError`, `KeyError`) in a helper becomes `None`. In the bot's methods it
becomes a precondition, because nothing in the bot catches it.

### Behaviour as written

The model follows the code in each of these places:

- **Live `buy` swaps the reported balances** (lines 188-193). The coin's balance is set to
  the venue's free *fiat* amount, and the fiat's balance to the venue's free *coin* amount.
  Live `sell` uses the right order (lines 230-235). `Ledger.LiveBuyRecordsSwappedBalances`
  exhibits a fill that records an open position on a coin balance of zero.
- **`buy` sizes and debits from different values.** The order quantity uses the configured
  `totalCost` (line 178). The test-mode debit uses the `totalCost` argument (line 198).
  Partial `sell` also sizes from the configuration (line 213). `tradeLoop` passes the
  configured value (line 293), so there the two agree.
- **The volume check passes on non-increasing volume.** It fails when a newer candle's
  volume exceeds the one before it (line 127). It is computed for every active symbol, but
  no rule reads it; the check is commented out at line 291.
- **A falling run extends while older opens are strictly greater** (the scan stops on `<=`,
  line 117). A rising run extends while older opens are strictly smaller (it stops on `>=`,
  line 114).
- **A partial sell also resets the entry to flat** (line 233/242), even though coins remain.
- **The ledger invariant can fail even in test mode.** This happens when a quote asset
  is itself held as a position, for example buying `ETH/BTC` while holding BTC
  (`Ledger.CrossPairBuyEmptiesHeldCoin`). The test-mode preservation lemmas therefore assume
  no traded coin is also a quote asset of the universe.
- **The obsolete exit is break-even only to first order.** Line 308 exits at a gain above
  `2 * fee`. With a multiplicative fee on both legs, break-even is `(1 + fee)^2 - 1`, so a
  gain just above `2 * fee` can still lose `fee^2`. `Strategy.ObsoleteExitBelowBreakEven`
  shows this at a 10% fee.

## Model

| member | source | states |
|---|---|---|
| `Candles.GetCandleStatus` | newer_tradeBot_core.py:107-122 | the scan with its two `break`s returns exactly `CandleStatus(candles)`: direction, run-start open and last close |
| `Candles.RunStartCharacterised` | newer_tradeBot_core.py:113-120 | an index is where the backward scan stops iff every step after it extends the run strictly and the step before it does not |
| `Candles.RunStartIsRunStart` | newer_tradeBot_core.py:113-120 | the index the scan settles on starts a run: all later steps extend it, the earlier one does not |
| `Candles.RunStartUnique` | newer_tradeBot_core.py:113-120 | any index with the run-start property is the one the scan finds |
| `Candles.RunIsMonotone` | newer_tradeBot_core.py:114-120 | along the run, opens rise strictly toward the present on a rising bar and fall strictly on a falling bar |
| `Candles.CandleStatus` | newer_tradeBot_core.py:107-122 | specification of `getCandleStatus`, without a contract of its own: direction of the last bar, open at `RunStart`, last close; its meaning is stated by the lemmas below |
| `Candles.CandleStatusMeaning` | newer_tradeBot_core.py:107-122 | direction is 1 exactly when the last close exceeds the last open (else -1), the price is the last close, the reference open is the run start's open |
| `Candles.CandleChangeSign` | newer_tradeBot_core.py:107-122 | `price/refOpen - 1` is positive on a rising bar and never positive on a falling bar |
| `Candles.FallingRunExample` | newer_tradeBot_core.py:107-122 | opens 9, 8, 7 with closes 10, 9, 6 give `(-1, 9, 6)` |
| `Candles.RisingNoExtensionExample` | newer_tradeBot_core.py:107-122 | opens 12, 11, 10 with closes 11, 10, 12 give `(1, 10, 12)` |
| `Candles.GetVolumeStatus` | newer_tradeBot_core.py:124-135 | true iff every candle in the last `bars` closed at or above its open and no candle's volume exceeds the previous candle's |
| `Symbols.Split` | newer_tradeBot_core.py:79-83 | `split("/")` yields at least one piece and no piece contains "/" |
| `Symbols.SplitJoin` | newer_tradeBot_core.py:79-83 | joining the pieces of `split("/")` with "/" gives the symbol back |
| `Symbols.JoinSplit` | newer_tradeBot_core.py:79-83 | splitting a "/"-join of separator-free pieces gives the pieces back |
| `Symbols.Coin` | newer_tradeBot_core.py:79-80 | the coin is the symbol up to its first "/": a "/"-free prefix followed by "/" when the symbol has one, and the whole symbol when it has none |
| `Symbols.Fiat` | newer_tradeBot_core.py:82-83 | a fiat exists iff the symbol contains "/" (else Python raises `IndexError`); it is the "/"-free text after the coin and its "/", running to the next "/" or the end |
| `Symbols.PairRoundTrip` | newer_tradeBot_core.py:79-83 | `coin(c + "/" + f) == c` and `fiat(c + "/" + f) == f`, and the symbol unpacks into two pieces |
| `Symbols.PairIsJoined` | newer_tradeBot_core.py:168 | a symbol that unpacks into two pieces has a fiat and is `coin + "/" + fiat`, neither containing "/" |
| `Symbols.TimeToSec` | newer_tradeBot_core.py:72-77 | an empty string raises (`None`); a value read with a unit suffix is a whole number of that unit's seconds |
| `Symbols.ParseIntRoundTrip` | newer_tradeBot_core.py:76-77 | `int()` reads a written integer (with "-" when negative) back as itself |
| `Symbols.TimeToSecRoundTrip` | newer_tradeBot_core.py:72-77 | a number followed by s, m, h or d maps to n·1, n·60, n·3600, n·86400 seconds; without a suffix, to itself |
| `Symbols.FiveMinutesExample` | newer_tradeBot_core.py:72-77 | "5m" gives 300 |
| `Symbols.UniqueMeaning` | newer_tradeBot_core.py:96-100 | append-if-absent yields no duplicates, exactly the input's elements, ordered by first occurrence |
| `Symbols.ComponentsMembership` | newer_tradeBot_core.py:97-98 | an asset is among the components iff it is a piece of some market symbol |
| `Symbols.AppendAbsent` | newer_tradeBot_core.py:98-100 | the inner loop appends exactly the pieces not yet listed: the list stays the distinct elements of everything seen so far |
| `Symbols.LoadTradeSymbolList` | newer_tradeBot_core.py:91-102 | no table gives []; otherwise the distinct "/"-pieces of the market symbols in first-occurrence order, without duplicates, and an asset is listed iff it is a piece of some symbol |
| `Ledger.ResetLedger` | newer_tradeBot_core.py:56 | after a reset every asset reads zero and flat, and exactly the listed assets are present |
| `Ledger.BalanceUpdate` | newer_tradeBot_core.py:143-151 | both balances are set (absolute) or shifted (relative), the coin's entry is written, and no other asset or entry changes; for a symbol `X/X` the fiat value is written last (absolute) or both deltas add up (relative) |
| `Ledger.BuyStep` | newer_tradeBot_core.py:164-204 | refused iff fiat < totalCost; failed iff live with no reply; unchanged ledger on either; on a fill the entry is the price; test mode adds `conf.totalCost/price/(1+fee)` coin and debits `totalCost` fiat; live mode writes the reply's fiat under the coin and its coin under the fiat; for `X/X` the coin ends at balance + amount - totalCost (test) or the reply's amount (live); nothing else changes |
| `Ledger.BuyAmount` | newer_tradeBot_core.py:178 | the quantity whose cost at `price` plus the fee is the configured `totalCost` |
| `Ledger.SellStep` | newer_tradeBot_core.py:206-247 | a partial sell above the coin balance is refused; a live sell with no reply fails; unchanged ledger on either; a fill resets the entry to flat; test mode moves `amount` coin into `amount*price/(1+fee)` fiat; live mode resyncs both balances from the reply; for `X/X` the coin ends at balance - amount + proceeds (test) or the reply's amount (live); nothing else changes |
| `Ledger.SellAmount` | newer_tradeBot_core.py:210-213 | a full sell takes the whole coin balance; a partial sell the quantity worth the configured `totalCost` at `price` |
| `Ledger.Proceeds` | newer_tradeBot_core.py:238 | the credit which, with the fee added on top, equals the sale's value `amount*price` |
| `Ledger.SellAllClosesPosition` | newer_tradeBot_core.py:206-244 | a full test-mode sell always fills, leaves exactly 0 coin, credits `coin*price/(1+fee)` fiat and leaves the coin flat |
| `Ledger.BuyThenSellRestoresFiat` | newer_tradeBot_core.py:164-247 | at zero fee from a zero coin balance, buying the configured size and selling all at the same price restores the fiat balance and leaves no coin and no position |
| `Ledger.BuyKeepsFunded` | newer_tradeBot_core.py:195-201 | a test-mode buy keeps every balance non-negative and every open position on a positive coin balance, when the quote asset is not itself held |
| `Ledger.SellKeepsFunded` | newer_tradeBot_core.py:237-244 | a test-mode sell, whole or partial, keeps every balance non-negative and every open position on a positive coin balance |
| `Ledger.CrossPairBuyEmptiesHeldCoin` | newer_tradeBot_core.py:195-201 | buying `ETH/BTC` with a held BTC position can leave that position open on a zero BTC balance |
| `Ledger.LiveBuyRecordsSwappedBalances` | newer_tradeBot_core.py:188-193 | a live buy stores the venue's fiat amount under the coin and its coin amount under the fiat, so a fill can open a position on a zero coin balance |
| `Ledger.Storage.constructor` | newer_tradeBot_core.py:37 | a new storage starts with empty live maps over the persisted ledger |
| `Ledger.Storage.GetBalance` | newer_tradeBot_core.py:169 | the stored free balance, `0.0` for an asset never written |
| `Ledger.Storage.GetEntry` | newer_tradeBot_core.py:137-138 | the stored entry price, `0.0` (flat) for a coin never written |
| `Ledger.Storage.HasEntry` | newer_tradeBot_core.py:140-141 | a position is open iff its entry is non-zero |
| `Ledger.Storage.SetBalance` | newer_tradeBot_core.py:145-146 | one balance is overwritten; entries and the saved copy are unchanged |
| `Ledger.Storage.AddBalance` | newer_tradeBot_core.py:148-149 | one balance is shifted by the delta; entries and the saved copy are unchanged |
| `Ledger.Storage.SetEntry` | newer_tradeBot_core.py:151 | one entry is overwritten; balances and the saved copy are unchanged |
| `Ledger.Storage.SaveBalance` | newer_tradeBot_core.py:152 | the saved copy becomes the live ledger, which is unchanged |
| `Ledger.Storage.LoadBalance` | newer_tradeBot_core.py:53 | the live ledger becomes the saved copy |
| `Ledger.Storage.ResetBalance` | newer_tradeBot_core.py:56 | the live ledger becomes the reset ledger of the listed assets |
| `Ledger.SaveThenLoad` | newer_tradeBot_core.py:53-58 | a property of the storage abstraction, not a routine of the bot: saving then loading gives back the identical balances and entries |
| `Strategy.EntrySignal` | newer_tradeBot_core.py:289-290 | for a positive reference open, the entry rule fires iff the bar falls and the price is below `refOpen*(1 + 0.8*avgDown)` |
| `Strategy.TakeProfit` | newer_tradeBot_core.py:277-278 | for a positive entry, take-profit fires iff the bar rises and the price is above `entry*(1 + 0.8*avgUp)` |
| `Strategy.StopLoss` | newer_tradeBot_core.py:277-283 | for a positive entry, stop-loss fires iff the bar falls and the price is below `entry*(1 + avgDown*sellLossMult)` |
| `Strategy.ObsoleteExit` | newer_tradeBot_core.py:307-308 | for a positive entry, the obsolete exit fires iff the bar rises and the price is above `entry*(1 + 2*fee)` |
| `Strategy.ActiveStep` | newer_tradeBot_core.py:276-294 | specification of one active loop iteration, without a contract of its own; stated by `ActiveStepFollowsRules` and `ActiveStepKeepsFunded` |
| `Strategy.ActivePass` | newer_tradeBot_core.py:262-294 | the active loop as a left fold, without a contract of its own; stated by `ActivePassKeepsFunded` and `SharedFiatExample` |
| `Strategy.ObsoleteStep` | newer_tradeBot_core.py:306-311 | specification of one obsolete loop iteration, without a contract of its own; stated by `ObsoleteStepFollowsRule` and `ObsoleteStepKeepsFunded` |
| `Strategy.ObsoletePass` | newer_tradeBot_core.py:297-311 | the obsolete loop as a left fold, without a contract of its own; stated by `ObsoletePassOnlyCloses` and `ObsoletePassKeepsFunded` |
| `Strategy.ActiveStepFollowsRules` | newer_tradeBot_core.py:276-294 | a flat symbol changes the ledger only on the entry rule, and then opens at the last close; a held symbol changes it only on take-profit or stop-loss, and then goes flat; conversely, when the order fills (always in test mode, on a reply in live mode) an entry signal with enough fiat opens the position and a firing take-profit or stop-loss closes it, in test mode leaving no coin |
| `Strategy.ObsoleteStepFollowsRule` | newer_tradeBot_core.py:306-311 | an obsolete symbol changes the ledger only when held and its exit rule holds, and then goes flat; no entry is set to anything but its old value or flat; conversely, a held symbol whose exit fires is closed when the order fills, in test mode leaving no coin |
| `Strategy.ObsoletePassOnlyCloses` | newer_tradeBot_core.py:297-311 | across the whole obsolete loop every entry keeps its value or goes flat, so no position is opened |
| `Strategy.SharedFiatExample` | newer_tradeBot_core.py:262-294 | with fiat 150 and trade size 100, of two symbols signalling entry in order the first is bought (fiat 50, 12.5 coins) and the second is refused |
| `Strategy.ObsoleteExitBelowBreakEven` | newer_tradeBot_core.py:308 | at a 10% fee a 20.5% gain fires the obsolete exit while a test-mode round trip returns less than the trade size |
| `Strategy.ActiveStepKeepsFunded` | newer_tradeBot_core.py:276-294 | one active symbol in test mode keeps the ledger invariant and keeps quote assets flat |
| `Strategy.ObsoleteStepKeepsFunded` | newer_tradeBot_core.py:306-311 | one obsolete symbol in test mode keeps the ledger invariant and keeps quote assets flat |
| `Strategy.ActivePassKeepsFunded` | newer_tradeBot_core.py:262-294 | the whole active loop in test mode keeps the ledger invariant |
| `Strategy.ObsoletePassKeepsFunded` | newer_tradeBot_core.py:297-311 | the whole obsolete loop in test mode keeps the ledger invariant |
| `Strategy.CycleKeepsFunded` | newer_tradeBot_core.py:260-311 | a whole test-mode cycle keeps every balance non-negative and every open position on a positive coin balance, when no coin is also a quote asset |
| `Trading.Mirror` | newer_tradeBot_core.py:63-65 | specification of the live-mode seeding loop, without a contract of its own; stated by `MirrorMeaning` |
| `Trading.MirrorMeaning` | newer_tradeBot_core.py:63-65 | after mirroring, each listed asset the venue reports holds the venue's amount, every other balance and all entries are as before |
| `Trading.FundedLedger` | newer_tradeBot_core.py:56-57 | after reset and funding the base asset holds `baseAmount`, every other asset zero, and no position is open |
| `Trading.TradeBot.constructor` | newer_tradeBot_core.py:27-38 | the bot starts with `lastCycle = 0`, its storage, configuration, fee and mode |
| `Trading.TradeBot.SeedBalances` | newer_tradeBot_core.py:41-66 | an empty universe changes nothing; test mode loads the saved ledger and, on request or when it has no balances, resets it and funds the base asset; live mode mirrors the venue's free balances of the listed assets; the result is saved |
| `Trading.TradeBot.UpdateBalance` | newer_tradeBot_core.py:143-152 | the storage ends as `BalanceUpdate` of its old state and is saved |
| `Trading.TradeBot.Buy` | newer_tradeBot_core.py:164-204 | storage and outcome are exactly `BuyStep`; the venue is asked iff live and funded; a refused or failed buy touches nothing; a fill is saved |
| `Trading.TradeBot.Sell` | newer_tradeBot_core.py:206-247 | storage and outcome are exactly `SellStep`; the venue is asked iff live and not refused; a refused or failed sell touches nothing; a fill is saved |
| `Trading.TradeBot.TradeActive` | newer_tradeBot_core.py:262-294 | the loop body for one active row leaves the storage as `ActiveStep` of its old state |
| `Trading.TradeBot.TradeObsolete` | newer_tradeBot_core.py:298-311 | the loop body for one obsolete symbol leaves the storage as `ObsoleteStep` of its old state |
| `Trading.TradeBot.Cycle` | newer_tradeBot_core.py:249-311 | a cycle runs iff `lastCycle <= now - interval`; if not, nothing changes; if so `lastCycle := now` and the ledger is the obsolete pass over the active pass, symbol by symbol in order; whenever the ledger changed it is saved |

## Left out

- Venue connectivity (`binanceConnect`, `getCandles`, `getBalance`, the order calls): their results are parameters (`Market`, `Reply`, `venueFree`). The order quantity sent to the venue is not modelled, only the reply.
- Storage internals and file formats, which are not part of this model. Assumed behaviour: an unwritten asset reads `0.0`, `hasEntry` means a non-zero entry, `resetBalance(symbols)` leaves exactly the listed assets at zero and flat, `getBalances()` is falsy when no balance is stored.
- Logging, Discord notifications and message texts (including `getBalancesInfo`): side effects with no bearing on the ledger; `buy`/`sell` results keep only the outcome.
- `time.time`, `time.sleep` and the endless `while True`: `Cycle` is one pass with `now` as a parameter.
- IEEE floating point rounding: all arithmetic is exact `real` arithmetic.
- The `pandas` table lookup `symbols.query(...).iloc[0]`: each row carries its own `avgUp`/`avgDown`, so a table listing one symbol twice (where the source would reuse the first row's figures) is not modelled.
- `loadSymbols(cache=True)` and `getObsoleteSymbols(cache=True)`: the rows and the obsolete list are parameters of `Cycle`; the interval is a parameter tied to `timeToSec(shortCandle)`.
- Symbols.TimeToSec: Python's `int()` also accepts surrounding blanks and `_` between digits; the model accepts only an optional sign followed by decimal digits.
- Candles.GetVolumeStatus: requires `1 <= bars <= len(candles)`; the source is only called with the default `bars = 2`, and `bars <= 0` is not modelled.
- `__init__` returning early on an empty universe leaves the object half-built; `SeedBalances` models this as returning the empty list with the storage untouched.
- Exceptions inside a cycle (an unpaired symbol, an empty candle series, a division by zero, a reply missing an asset) abort the Python loop; the model states them as preconditions of `Cycle`, `Buy` and `Sell`.
- Trading.TradeBot.Cycle: requires at least two candles for every active row, because `getVolumeStatus` reads the second-to-last candle (line 125) and so a one-bar series also raises; the same holds for `Trading.TradeBot.TradeActive`.
- Strategy.SymbolOk: demanded of every visited symbol (held, flat or obsolete) and with it by `Cycle`, `TradeActive` and `TradeObsolete`: a non-zero reference open and price, a pair symbol and replies naming both assets. The source divides by the reference open only for a flat active symbol (line 289), by the price only when it buys (line 178), and unpacks the symbol and reads the reply only when it places an order, so a cycle in which a symbol fails one of these conditions without reaching the line that needs it is outside the model.
- Strategy.CycleKeepsFunded: proved for test mode only and for a universe in which no coin is also a quote asset; live mode and cross pairs do not keep the invariant (see `Ledger.LiveBuyRecordsSwappedBalances`, `Ledger.CrossPairBuyEmptiesHeldCoin`).
