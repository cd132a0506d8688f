/** The string helpers of `TradeBot`: `coin`/`fiat` (splitting a market
    symbol on "/"), `timeToSec` (interval strings such as "5m") and
    `loadTradeSymbolList` (the asset universe named by the market table). */
module Symbols {
  import opened Wrappers

  // ---------------------------------------------------------------------
  // Splitting a market symbol on "/"
  // ---------------------------------------------------------------------

  /** Python's `s.split("/")`: the pieces between separators, always at
      least one, none of them holding a separator. */
  function Split(s: string): (parts: seq<string>)
    ensures |parts| >= 1
    ensures forall k :: 0 <= k < |parts| ==> '/' !in parts[k]
    decreases |s|
  {
    if |s| == 0 then [""]
    else
      var rest := Split(s[1..]);
      if s[0] == '/' then [""] + rest
      else
        var parts := [[s[0]] + rest[0]] + rest[1..];
        assert forall k :: 1 <= k < |parts| ==> parts[k] == rest[k];
        parts
  }

  /** `"/".join(parts)`, the inverse of `Split`. */
  function Join(parts: seq<string>): (s: string)
    requires |parts| >= 1
    ensures parts[0] <= s
    decreases |parts|
  {
    if |parts| == 1 then parts[0] else parts[0] + "/" + Join(parts[1..])
  }

  /** Joining the pieces of a split gives the symbol back. */
  lemma {:induction false} SplitJoin(s: string)
    ensures Join(Split(s)) == s
    decreases |s|
  {
    if |s| > 0 {
      var rest := Split(s[1..]);
      SplitJoin(s[1..]);
      if s[0] == '/' {
        assert Split(s) == [""] + rest;
        assert ([""] + rest)[1..] == rest;
        assert s == [s[0]] + s[1..];
      } else {
        var parts := Split(s);
        assert parts == [[s[0]] + rest[0]] + rest[1..];
        if |rest| == 1 {
          assert s == [s[0]] + rest[0];
        } else {
          assert parts[1..] == rest[1..];
          assert Join(rest) == rest[0] + "/" + Join(rest[1..]);
          assert s == [s[0]] + s[1..];
        }
      }
    }
  }

  /** Splitting text that starts with a separator-free prefix `a` glues `a`
      onto the first piece. */
  lemma {:induction false} SplitPrefix(a: string, rest: string)
    requires '/' !in a
    ensures Split(a + rest) == [a + Split(rest)[0]] + Split(rest)[1..]
    decreases |a|
  {
    if |a| > 0 {
      SplitPrefix(a[1..], rest);
      assert (a + rest)[1..] == a[1..] + rest;
      assert (a + rest)[0] == a[0];
      assert [a[0]] + (a[1..] + Split(rest)[0]) == a + Split(rest)[0];
    } else {
      assert a + rest == rest;
      assert a + Split(rest)[0] == Split(rest)[0];
    }
  }

  /** Joining separator-free pieces and splitting again gives the pieces back. */
  lemma {:induction false} JoinSplit(parts: seq<string>)
    requires |parts| >= 1
    requires forall k :: 0 <= k < |parts| ==> '/' !in parts[k]
    ensures Split(Join(parts)) == parts
    decreases |parts|
  {
    if |parts| == 1 {
      SplitPrefix(parts[0], "");
      assert parts[0] + "" == parts[0];
    } else {
      JoinSplit(parts[1..]);
      var tail := "/" + Join(parts[1..]);
      assert Join(parts) == parts[0] + tail;
      SplitPrefix(parts[0], tail);
      assert tail[1..] == Join(parts[1..]);
      assert Split(tail) == [""] + parts[1..];
      assert Split(tail)[1..] == parts[1..];
      assert parts[0] + "" == parts[0];
      assert parts == [parts[0]] + parts[1..];
    }
  }

  /** `coin(symbol)`: the first piece, `symbol.split("/")[0]`, which is the
      symbol up to its first "/". */
  function Coin(symbol: string): (c: string)
    ensures '/' !in c && c <= symbol
    ensures '/' in symbol ==> |c| < |symbol| && symbol[|c|] == '/'
    ensures '/' !in symbol ==> c == symbol
  {
    var parts := Split(symbol);
    SplitJoin(symbol);
    if |parts| >= 2 then
      assert symbol == parts[0] + "/" + Join(parts[1..]);
      parts[0]
    else parts[0]
  }

  /** `fiat(symbol)`: the second piece; `None` where Python raises
      `IndexError` because the symbol has no "/". The piece follows the coin
      and its separator, up to the next "/" if any. */
  function Fiat(symbol: string): (f: Option<string>)
    ensures f.Some? <==> '/' in symbol
    ensures f.Some? ==> '/' !in f.value && Coin(symbol) + "/" + f.value <= symbol
    ensures f.Some? ==>
      var e := |Coin(symbol)| + 1 + |f.value|; e == |symbol| || symbol[e] == '/'
  {
    var parts := Split(symbol);
    SplitJoin(symbol);
    if |parts| >= 2 then
      var tail := Join(parts[1..]);
      assert symbol == parts[0] + "/" + tail;
      assert parts[1] <= tail;
      assert symbol[|parts[0]|] == '/';
      Some(parts[1])
    else
      assert symbol == parts[0];
      None
  }

  /** The unpacking `coin, fiat = symbol.split("/")` in `buy` and `sell`
      succeeds only when there are exactly two pieces. */
  predicate IsPair(symbol: string)
  {
    |Split(symbol)| == 2
  }

  /** A pair written `c + "/" + f` decomposes into `c` and `f`, and conversely
      every symbol that unpacks into two pieces is written that way. */
  lemma PairRoundTrip(c: string, f: string)
    requires '/' !in c && '/' !in f
    ensures IsPair(c + "/" + f)
    ensures Coin(c + "/" + f) == c && Fiat(c + "/" + f) == Some(f)
  {
    JoinSplit([c, f]);
    assert Join([c, f]) == c + "/" + f;
  }

  lemma PairIsJoined(symbol: string)
    requires IsPair(symbol)
    ensures Fiat(symbol).Some?
    ensures symbol == Coin(symbol) + "/" + Fiat(symbol).value
    ensures '/' !in Coin(symbol) && '/' !in Fiat(symbol).value
  {
    SplitJoin(symbol);
    var parts := Split(symbol);
    assert Join(parts) == parts[0] + "/" + Join(parts[1..]);
  }

  // ---------------------------------------------------------------------
  // timeToSec
  // ---------------------------------------------------------------------

  /** The suffixes `timeToSec` knows, with their number of seconds. */
  datatype Unit = Seconds | Minutes | Hours | Days
  {
    function Suffix(): char
    {
      match this
      case Seconds => 's'
      case Minutes => 'm'
      case Hours => 'h'
      case Days => 'd'
    }

    function Length(): int
    {
      match this
      case Seconds => 1
      case Minutes => 60
      case Hours => 3600
      case Days => 86400
    }
  }

  /** The entry of the `suffixes` dictionary for a character, if any. */
  function SuffixSeconds(c: char): Option<int>
  {
    if c == 's' then Some(1)
    else if c == 'm' then Some(60)
    else if c == 'h' then Some(3600)
    else if c == 'd' then Some(86400)
    else None
  }

  predicate IsDigit(c: char)
  {
    '0' <= c <= '9'
  }

  /** Value of a string of decimal digits (most significant first). */
  function DigitsValue(s: string): nat
    requires forall k :: 0 <= k < |s| ==> IsDigit(s[k])
    decreases |s|
  {
    if |s| == 0 then 0
    else
      assert IsDigit(s[|s| - 1]);
      DigitsValue(s[..|s| - 1]) * 10 + (s[|s| - 1] as int - '0' as int)
  }

  /** Python's `int(s)` on an optional sign followed by decimal digits; `None`
      where `int` raises `ValueError`. */
  function ParseInt(s: string): Option<int>
  {
    var neg := |s| > 0 && s[0] == '-';
    var digits := if |s| > 0 && (s[0] == '-' || s[0] == '+') then s[1..] else s;
    if |digits| == 0 || !(forall k :: 0 <= k < |digits| ==> IsDigit(digits[k])) then None
    else
      var v: int := DigitsValue(digits);
      Some(if neg then -v else v)
  }

  /** `timeToSec`: a number followed by "s", "m", "h" or "d" is scaled to
      seconds; any other string is read as a plain number. `None` where Python
      raises (an empty string, or text `int` cannot read). */
  function TimeToSec(t: string): (r: Option<int>)
    ensures |t| == 0 ==> r.None?
    ensures r.Some? && SuffixSeconds(t[|t| - 1]).Some? ==>
      r.value % SuffixSeconds(t[|t| - 1]).value == 0
  {
    if |t| == 0 then None
    else match SuffixSeconds(t[|t| - 1])
      case Some(mult) =>
        (match ParseInt(t[..|t| - 1])
         case Some(n) => Some(n * mult)
         case None => None)
      case None => ParseInt(t)
  }

  /** Decimal digits of a natural number, without leading zeros. */
  function FormatNat(n: nat): (s: string)
    ensures |s| >= 1
    ensures forall k :: 0 <= k < |s| ==> IsDigit(s[k])
  {
    if n < 10 then [('0' as int + n) as char]
    else FormatNat(n / 10) + [('0' as int + n % 10) as char]
  }

  /** A number written out with a leading "-" when negative. */
  function FormatInt(i: int): string
  {
    if i < 0 then "-" + FormatNat(-i) else FormatNat(i)
  }

  lemma {:induction false} DigitsRoundTrip(n: nat)
    ensures DigitsValue(FormatNat(n)) == n
  {
    if n >= 10 {
      DigitsRoundTrip(n / 10);
      var s := FormatNat(n);
      assert s[..|s| - 1] == FormatNat(n / 10);
    }
  }

  lemma ParseIntRoundTrip(i: int)
    ensures ParseInt(FormatInt(i)) == Some(i)
  {
    var s := FormatInt(i);
    if i < 0 {
      var d := FormatNat(-i);
      DigitsRoundTrip(-i);
      assert s == "-" + d;
      assert s[0] == '-' && s[1..] == d;
    } else {
      DigitsRoundTrip(i);
      assert IsDigit(s[0]);
    }
  }

  /** Round trip: a number written with a unit suffix reads back as that many
      units in seconds ("5m" gives 300), and without a suffix as itself. */
  lemma TimeToSecRoundTrip(i: int, u: Unit)
    ensures TimeToSec(FormatInt(i) + [u.Suffix()]) == Some(i * u.Length())
    ensures TimeToSec(FormatInt(i)) == Some(i)
  {
    var t := FormatInt(i) + [u.Suffix()];
    assert t[..|t| - 1] == FormatInt(i);
    ParseIntRoundTrip(i);
    var s := FormatInt(i);
    assert s[|s| - 1] == FormatNat(if i < 0 then -i else i)[|FormatNat(if i < 0 then -i else i)| - 1];
  }

  lemma FiveMinutesExample()
    ensures TimeToSec("5m") == Some(300)
  {
    TimeToSecRoundTrip(5, Minutes);
  }

  // ---------------------------------------------------------------------
  // loadTradeSymbolList
  // ---------------------------------------------------------------------

  /** All pieces of all market symbols, market by market, in order. */
  function Components(markets: seq<string>): seq<string>
  {
    if |markets| == 0 then []
    else Components(markets[..|markets| - 1]) + Split(markets[|markets| - 1])
  }

  /** Appending each element that is not yet present, from left to right. */
  function Unique(xs: seq<string>): seq<string>
  {
    if |xs| == 0 then []
    else
      var prefix := Unique(xs[..|xs| - 1]);
      if xs[|xs| - 1] in prefix then prefix else prefix + [xs[|xs| - 1]]
  }

  /** One more element is appended exactly when it is not yet listed. */
  lemma UniqueAppend(xs: seq<string>, y: string)
    ensures Unique(xs + [y]) == if y in Unique(xs) then Unique(xs) else Unique(xs) + [y]
  {
    assert (xs + [y])[..|xs|] == xs;
  }

  /** The components of one more market are its pieces, after the others'. */
  lemma ComponentsAppend(markets: seq<string>, i: nat)
    requires i < |markets|
    ensures Components(markets[..i + 1]) == Components(markets[..i]) + Split(markets[i])
  {
    assert markets[..i + 1][..i] == markets[..i];
  }

  predicate NoDuplicates(xs: seq<string>)
  {
    forall i, j :: 0 <= i < j < |xs| ==> xs[i] != xs[j]
  }

  /** Position of the first occurrence of `x` in `xs`. */
  function FirstIndex(xs: seq<string>, x: string): (k: nat)
    requires x in xs
    ensures k < |xs| && xs[k] == x && x !in xs[..k]
  {
    if xs[0] == x then 0
    else
      assert x in xs[1..];
      var k := FirstIndex(xs[1..], x);
      assert xs[..k + 1] == [xs[0]] + xs[1..][..k];
      1 + k
  }

  lemma FirstIndexOfPrefix(xs: seq<string>, y: string, x: string)
    requires x in xs
    ensures x in xs + [y] && FirstIndex(xs + [y], x) == FirstIndex(xs, x)
  {
    var k := FirstIndex(xs, x);
    assert (xs + [y])[k] == x;
    var k' := FirstIndex(xs + [y], x);
  }

  /** The list has no duplicates, holds exactly the elements of the input, and
      lists them in the order of their first occurrence. */
  lemma {:induction false} UniqueMeaning(xs: seq<string>)
    ensures NoDuplicates(Unique(xs))
    ensures forall x :: x in Unique(xs) <==> x in xs
    ensures forall i, j :: 0 <= i < j < |Unique(xs)| ==>
      Unique(xs)[i] in xs && Unique(xs)[j] in xs &&
      FirstIndex(xs, Unique(xs)[i]) < FirstIndex(xs, Unique(xs)[j])
  {
    if |xs| > 0 {
      var init := xs[..|xs| - 1];
      var y := xs[|xs| - 1];
      assert xs == init + [y];
      UniqueMeaning(init);
      var p := Unique(init);
      forall x | x in p ensures x in xs && FirstIndex(xs, x) == FirstIndex(init, x) {
        FirstIndexOfPrefix(init, y, x);
      }
      if y !in p {
        var r := p + [y];
        assert y !in init;
        assert FirstIndex(xs, y) == |init|;
        forall i, j | 0 <= i < j < |r|
          ensures r[i] in xs && r[j] in xs && FirstIndex(xs, r[i]) < FirstIndex(xs, r[j])
        {
          if j < |p| {
            assert r[i] == p[i] && r[j] == p[j];
          } else {
            assert r[i] == p[i];
          }
        }
      }
    }
  }

  lemma {:induction false} ComponentsMembership(markets: seq<string>, x: string)
    ensures x in Components(markets) <==> exists k :: 0 <= k < |markets| && x in Split(markets[k])
  {
    if |markets| > 0 {
      var init := markets[..|markets| - 1];
      ComponentsMembership(init, x);
      if x in Components(init) {
        var k :| 0 <= k < |init| && x in Split(init[k]);
        assert markets[k] == init[k];
      }
      if exists k :: 0 <= k < |markets| && x in Split(markets[k]) {
        var k :| 0 <= k < |markets| && x in Split(markets[k]);
        if k < |init| { assert init[k] == markets[k]; }
      }
    }
  }

  /** The assets listed for a market table: no duplicates, and exactly the
      pieces of its symbols. */
  lemma LoadedAssets(markets: seq<string>)
    ensures NoDuplicates(Unique(Components(markets)))
    ensures forall x :: x in Unique(Components(markets)) <==>
      exists k :: 0 <= k < |markets| && x in Split(markets[k])
  {
    UniqueMeaning(Components(markets));
    forall x ensures x in Components(markets) <==> exists k :: 0 <= k < |markets| && x in Split(markets[k]) {
      ComponentsMembership(markets, x);
    }
  }

  /** The inner loop of `loadTradeSymbolList`: each piece is appended unless
      it is already listed. */
  method AppendAbsent(list: seq<string>, ghost seen: seq<string>, pieces: seq<string>) returns (r: seq<string>)
    requires list == Unique(seen)
    ensures r == Unique(seen + pieces)
  {
    r := list;
    var j := 0;
    assert seen + pieces[..0] == seen;
    while j < |pieces|
      invariant 0 <= j <= |pieces|
      invariant r == Unique(seen + pieces[..j])
    {
      assert seen + pieces[..j + 1] == (seen + pieces[..j]) + [pieces[j]];
      UniqueAppend(seen + pieces[..j], pieces[j]);
      if pieces[j] !in r {
        r := r + [pieces[j]];
      }
      j := j + 1;
    }
    assert pieces[..j] == pieces;
  }

  /** `loadTradeSymbolList`: `None` (no symbol table) gives the empty list;
      otherwise every piece of every market symbol is appended unless it is
      already listed. */
  method LoadTradeSymbolList(table: Option<seq<string>>) returns (symList: seq<string>)
    ensures table.None? ==> symList == []
    ensures table.Some? ==> symList == Unique(Components(table.value))
    ensures NoDuplicates(symList)
    ensures table.Some? ==> forall x :: x in symList <==>
      exists k :: 0 <= k < |table.value| && x in Split(table.value[k])
  {
    if table.None? {
      return [];
    }
    var markets := table.value;
    symList := [];
    var i := 0;
    while i < |markets|
      invariant 0 <= i <= |markets|
      invariant symList == Unique(Components(markets[..i]))
    {
      var pieces := Split(markets[i]);
      ghost var before := Components(markets[..i]);
      symList := AppendAbsent(symList, before, pieces);
      ComponentsAppend(markets, i);
      i := i + 1;
    }
    assert markets[..i] == markets;
    LoadedAssets(markets);
  }
}
