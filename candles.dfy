/** The candle signal classifier of `TradeBot`: `getCandleStatus` and
    `getVolumeStatus`. Both scan a bar series (oldest first) backwards from
    the newest bar while updating only local variables; each is a method with
    a loop, proved against a specification function defined here. */
module Candles {

  /** One row of the candle table: its `open`, `close` and `volume` columns. */
  datatype Bar = Bar(open: real, close: real, volume: real)

  /** The triple `(cdlDir, currOpen, currPrice)` returned by `getCandleStatus`. */
  datatype Status = Status(dir: int, refOpen: real, price: real)

  /** Direction of a bar: 1 when it closed above its open, -1 otherwise. */
  function Direction(b: Bar): int
  {
    if b.close > b.open then 1 else -1
  }

  /** Whether the backward scan moves the reference open from `current` to the
      older open `older`: for a rising bar the older open must be strictly
      lower, for a falling bar strictly higher (the scan stops on `>=`
      resp. `<=`). */
  predicate Extends(dir: int, older: real, current: real)
  {
    if dir > 0 then older < current else older > current
  }

  /** Index of the bar whose open the backward scan settles on, when it starts
      at index `k`. */
  function RunStart(bars: seq<Bar>, dir: int, k: nat): (j: nat)
    requires k < |bars|
    ensures j <= k
    decreases k
  {
    if k == 0 then 0
    else if Extends(dir, bars[k - 1].open, bars[k].open) then RunStart(bars, dir, k - 1)
    else k
  }

  /** Independent description of a run start: every step from `j` up to `k`
      extends the run, and the step just before `j` (if any) does not. */
  ghost predicate IsRunStart(bars: seq<Bar>, dir: int, k: nat, j: nat)
    requires k < |bars|
  {
    && j <= k
    && (forall m :: j <= m < k ==> Extends(dir, bars[m].open, bars[m + 1].open))
    && (j == 0 || !Extends(dir, bars[j - 1].open, bars[j].open))
  }

  /** The specification of `getCandleStatus`. */
  function CandleStatus(bars: seq<Bar>): Status
    requires |bars| >= 1
  {
    var last := bars[|bars| - 1];
    var dir := Direction(last);
    Status(dir, bars[RunStart(bars, dir, |bars| - 1)].open, last.close)
  }

  /** `RunStart` finds a run start. */
  lemma {:induction false} RunStartIsRunStart(bars: seq<Bar>, dir: int, k: nat)
    requires k < |bars|
    ensures IsRunStart(bars, dir, k, RunStart(bars, dir, k))
  {
    if k > 0 && Extends(dir, bars[k - 1].open, bars[k].open) {
      RunStartIsRunStart(bars, dir, k - 1);
    }
  }

  /** A run start is unique, so it is the one `RunStart` finds. */
  lemma {:induction false} RunStartUnique(bars: seq<Bar>, dir: int, k: nat, j: nat)
    requires k < |bars|
    requires IsRunStart(bars, dir, k, j)
    ensures j == RunStart(bars, dir, k)
  {
    if j < k {
      assert Extends(dir, bars[k - 1].open, bars[k].open);
      RunStartUnique(bars, dir, k - 1, j);
    }
  }

  /** Both directions: `j` is the reference bar exactly when it starts the run. */
  lemma {:induction false} RunStartCharacterised(bars: seq<Bar>, dir: int, k: nat, j: nat)
    requires k < |bars|
    ensures IsRunStart(bars, dir, k, j) <==> j == RunStart(bars, dir, k)
  {
    RunStartIsRunStart(bars, dir, k);
    if IsRunStart(bars, dir, k, j) {
      RunStartUnique(bars, dir, k, j);
    }
  }

  /** Along a run the opens move strictly: upwards toward the present for a
      rising bar, downwards for a falling one. */
  lemma {:induction false} RunIsMonotone(bars: seq<Bar>, dir: int, k: nat, j: nat)
    requires k < |bars|
    requires IsRunStart(bars, dir, k, j)
    ensures j < k ==> (if dir > 0 then bars[j].open < bars[k].open else bars[j].open > bars[k].open)
  {
    if j < k {
      MonotoneTail(bars, dir, k, j);
    }
  }

  /** Helper for `RunIsMonotone`: the same chain, from an inner start `i`. */
  lemma {:induction false} MonotoneTail(bars: seq<Bar>, dir: int, k: nat, i: nat)
    requires i < k < |bars|
    requires forall m :: i <= m < k ==> Extends(dir, bars[m].open, bars[m + 1].open)
    ensures if dir > 0 then bars[i].open < bars[k].open else bars[i].open > bars[k].open
    decreases k - i
  {
    assert Extends(dir, bars[i].open, bars[i + 1].open);
    if i + 1 < k {
      MonotoneTail(bars, dir, k, i + 1);
    }
  }

  /** What `getCandleStatus` promises: the direction is 1 exactly on a bar
      closing above its open, the price is the last close, and the reference
      open is the open of the unique bar that starts the current run. */
  lemma CandleStatusMeaning(bars: seq<Bar>, j: nat)
    requires |bars| >= 1
    ensures var s := CandleStatus(bars);
      && (s.dir == 1 <==> bars[|bars| - 1].close > bars[|bars| - 1].open)
      && (s.dir == 1 || s.dir == -1)
      && s.price == bars[|bars| - 1].close
      && (IsRunStart(bars, s.dir, |bars| - 1, j) ==> s.refOpen == bars[j].open)
  {
    var s := CandleStatus(bars);
    if IsRunStart(bars, s.dir, |bars| - 1, j) {
      RunStartUnique(bars, s.dir, |bars| - 1, j);
    }
  }

  /** The run's change `price / refOpen - 1` has the sign of the direction:
      positive on a rising bar, never positive on a falling one. */
  lemma CandleChangeSign(bars: seq<Bar>)
    requires |bars| >= 1
    requires CandleStatus(bars).refOpen > 0.0
    ensures var s := CandleStatus(bars);
      && (s.dir > 0 ==> s.price / s.refOpen - 1.0 > 0.0)
      && (s.dir < 0 ==> s.price / s.refOpen - 1.0 <= 0.0)
  {
    var n := |bars|;
    var s := CandleStatus(bars);
    var j := RunStart(bars, s.dir, n - 1);
    RunStartIsRunStart(bars, s.dir, n - 1);
    RunIsMonotone(bars, s.dir, n - 1, j);
    if s.dir > 0 {
      assert s.refOpen <= bars[n - 1].open < s.price;
      assert s.price / s.refOpen > 1.0;
    } else {
      assert s.price <= bars[n - 1].open <= s.refOpen;
      assert s.price / s.refOpen <= 1.0;
    }
  }

  /** A falling run: opens 9, 8, 7 and a last close of 6. */
  lemma FallingRunExample()
    ensures CandleStatus([Bar(9.0, 10.0, 1.0), Bar(8.0, 9.0, 1.0), Bar(7.0, 6.0, 1.0)])
         == Status(-1, 9.0, 6.0)
  {
    var bars := [Bar(9.0, 10.0, 1.0), Bar(8.0, 9.0, 1.0), Bar(7.0, 6.0, 1.0)];
    assert RunStart(bars, -1, 1) == 0;
  }

  /** A rising bar whose predecessor opened higher: the scan stops at once. */
  lemma RisingNoExtensionExample()
    ensures CandleStatus([Bar(12.0, 11.0, 1.0), Bar(11.0, 10.0, 1.0), Bar(10.0, 12.0, 1.0)])
         == Status(1, 10.0, 12.0)
  {
  }

  /** `getCandleStatus`: the loop from `i = 2` to `len(candles)` with its two
      `break`s. */
  method GetCandleStatus(candles: seq<Bar>) returns (dir: int, refOpen: real, price: real)
    requires |candles| >= 1
    ensures Status(dir, refOpen, price) == CandleStatus(candles)
  {
    var n := |candles|;
    price := candles[n - 1].close;
    refOpen := candles[n - 1].open;
    dir := if price > refOpen then 1 else -1;
    var i := 2;
    while i <= n
      invariant 2 <= i <= n + 1
      invariant refOpen == candles[n + 1 - i].open
      invariant RunStart(candles, dir, n + 1 - i) == RunStart(candles, dir, n - 1)
    {
      if dir > 0 && candles[n - i].open >= refOpen {
        break;
      }
      if dir < 0 && candles[n - i].open <= refOpen {
        break;
      }
      refOpen := candles[n - i].open;
      i := i + 1;
    }
  }

  /** The window the volume check looks at holds the last `bars` candles; it
      passes when every one of them closed at or above its open and no
      candle's volume exceeds that of the candle before it. */
  ghost predicate VolumeWindowValid(candles: seq<Bar>, bars: nat)
    requires 1 <= bars <= |candles|
  {
    var n := |candles|;
    && (forall k :: n - bars <= k < n ==> candles[k].close >= candles[k].open)
    && (forall k :: n - bars < k < n ==> candles[k].volume <= candles[k - 1].volume)
  }

  /** `getVolumeStatus`: walks the window from its oldest candle to the newest,
      carrying the previous volume in `lastBar`. */
  method GetVolumeStatus(candles: seq<Bar>, bars: nat) returns (valid: bool)
    requires 1 <= bars <= |candles|
    ensures valid <==> VolumeWindowValid(candles, bars)
  {
    var n := |candles|;
    var lastBar := candles[n - bars].volume;
    var i := bars;
    while i >= 1
      invariant 0 <= i <= bars
      invariant lastBar == candles[if i == bars then n - bars else n - i - 1].volume
      invariant forall k :: n - bars <= k < n - i ==> candles[k].close >= candles[k].open
      invariant forall k :: n - bars < k < n - i ==> candles[k].volume <= candles[k - 1].volume
    {
      if lastBar < candles[n - i].volume {
        return false;
      }
      if candles[n - i].close < candles[n - i].open {
        return false;
      }
      lastBar := candles[n - i].volume;
      i := i - 1;
    }
    return true;
  }
}
