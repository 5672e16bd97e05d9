/**
 * The ranking part of `backtest_example.py`: each stock's return over a date
 * range relative to the Shanghai index's, the three periods' values summed
 * with missing ones counted as zero, and the five highest totals.
 */
module Backtest {
  import opened Wrappers
  import opened OrderedDict
  import opened Ranking

  /** The benchmark the returns are measured against. */
  const Benchmark: string := "sh000001"
  /** How many codes the strategy keeps. */
  const TopCount: int := 5

  /** `(end_price - start_price) / start_price`; `None` where Python raises `ZeroDivisionError`. */
  function RangeReturn(closes: seq<real>): Option<real>
    requires |closes| > 0
  {
    var first, last := closes[0], closes[|closes| - 1];
    if first == 0.0 then None else Some((last - first) / first)
  }

  /** The closes a date-range query returns for a code (none for a code the source does not know). */
  function BarsOf(bars: map<string, seq<real>>, code: string): seq<real> {
    if code in bars then bars[code] else []
  }

  /** The stocks loop of `calculate_rps` against benchmark return `br`; `None` where it raises. */
  function Relative(stocks: seq<string>, bars: map<string, seq<real>>, br: real): Option<Dict<string, real>> {
    if stocks == [] then Some([])
    else
      match Relative(stocks[..|stocks| - 1], bars, br)
      case None => None
      case Some(d) =>
        var code := stocks[|stocks| - 1];
        var k := BarsOf(bars, code);
        if |k| == 0 then Some(d)
        else
          match RangeReturn(k)
          case None => None
          case Some(sr) => if br == 0.0 then None else Some(Put(d, code, (sr - br) / br))
  }

  /** `calculate_rps(stock_list, start_date, end_date, period)`: `None` where it raises. */
  function BacktestRps(stocks: seq<string>, bars: map<string, seq<real>>): Option<Dict<string, real>> {
    var bench := BarsOf(bars, Benchmark);
    if |bench| == 0 then None
    else
      match RangeReturn(bench)
      case None => None
      case Some(br) => Relative(stocks, bars, br)
  }

  /**
   * `calculate_rps`. The result does not depend on `period`: the argument is
   * never read, so the calls for 50, 120 and 250 return the same dictionary.
   */
  method CalculateRps(stocks: seq<string>, bars: map<string, seq<real>>, period: int)
    returns (r: Option<Dict<string, real>>)
    ensures r == BacktestRps(stocks, bars)
  {
    var bench := BarsOf(bars, Benchmark);
    if |bench| == 0 {
      return None;
    }
    var startPrice, endPrice := bench[0], bench[|bench| - 1];
    if startPrice == 0.0 {
      return None;
    }
    var br := (endPrice - startPrice) / startPrice;
    assert BacktestRps(stocks, bars) == Relative(stocks, bars, br);
    r := RelativeRps(stocks, bars, br);
  }

  /** The stocks loop of `calculate_rps`, against the benchmark return `br`. */
  method RelativeRps(stocks: seq<string>, bars: map<string, seq<real>>, br: real) returns (r: Option<Dict<string, real>>)
    ensures r == Relative(stocks, bars, br)
  {
    var d: Dict<string, real> := [];
    var i := 0;
    while i < |stocks|
      invariant 0 <= i <= |stocks|
      invariant Relative(stocks[..i], bars, br) == Some(d)
    {
      RelativeStep(stocks, bars, br, i);
      var k := BarsOf(bars, stocks[i]);
      if |k| > 0 {
        var first, last := k[0], k[|k| - 1];
        if first == 0.0 || br == 0.0 {
          RelativePrefixFails(stocks, bars, br, i + 1);
          return None;
        }
        var sr := (last - first) / first;
        d := Put(d, stocks[i], (sr - br) / br);
      }
      i := i + 1;
    }
    assert stocks[..i] == stocks;
    r := Some(d);
  }

  lemma RelativeStep(stocks: seq<string>, bars: map<string, seq<real>>, br: real, i: nat)
    requires i < |stocks| && Relative(stocks[..i], bars, br).Some?
    ensures var k := BarsOf(bars, stocks[i]);
      Relative(stocks[..i + 1], bars, br) ==
        if |k| == 0 then Relative(stocks[..i], bars, br)
        else if k[0] == 0.0 || br == 0.0 then None
        else Some(Put(Relative(stocks[..i], bars, br).value, stocks[i], ((k[|k| - 1] - k[0]) / k[0] - br) / br))
  {
    assert stocks[..i + 1][..i] == stocks[..i];
  }

  lemma {:induction false} RelativePrefixFails(stocks: seq<string>, bars: map<string, seq<real>>, br: real, j: nat)
    requires j <= |stocks| && Relative(stocks[..j], bars, br).None?
    ensures Relative(stocks, bars, br).None?
    decreases |stocks| - j
  {
    if j < |stocks| {
      assert stocks[..j + 1][..j] == stocks[..j];
      RelativePrefixFails(stocks, bars, br, j + 1);
    } else {
      assert stocks[..j] == stocks;
    }
  }

  /** The value a stock gets: its return relative to `br`, `None` for a stock without bars (or one that raises). */
  function StockRps(bars: map<string, seq<real>>, code: string, br: real): Option<real> {
    var k := BarsOf(bars, code);
    if |k| == 0 then None
    else
      match RangeReturn(k)
      case None => None
      case Some(sr) => if br == 0.0 then None else Some((sr - br) / br)
  }

  /**
   * After a call that does not raise, a stock has a value exactly when it is
   * in the list and has bars, and the value is its relative return.
   */
  lemma {:induction false} RelativeFacts(stocks: seq<string>, bars: map<string, seq<real>>, br: real)
    requires Relative(stocks, bars, br).Some?
    ensures DistinctKeys(Relative(stocks, bars, br).value)
    ensures forall c :: c in stocks && |BarsOf(bars, c)| > 0 ==> StockRps(bars, c, br).Some?
    ensures forall c :: Get(Relative(stocks, bars, br).value, c) == if c in stocks then StockRps(bars, c, br) else None
  {
    if stocks != [] {
      var init, code := stocks[..|stocks| - 1], stocks[|stocks| - 1];
      assert stocks == init + [code];
      RelativeFacts(init, bars, br);
      var d := Relative(init, bars, br).value;
      var k := BarsOf(bars, code);
      if |k| > 0 {
        var v := StockRps(bars, code, br).value;
        assert Relative(stocks, bars, br).value == Put(d, code, v);
        PutFacts(d, code, v);
        forall c ensures Get(Put(d, code, v), c) == if c in stocks then StockRps(bars, c, br) else None {
          assert c in stocks <==> c in init || c == code;
        }
      } else {
        assert Relative(stocks, bars, br).value == d;
        forall c ensures Get(d, c) == if c in stocks then StockRps(bars, c, br) else None {
          assert c in stocks <==> c in init || c == code;
        }
      }
    }
  }

  /**
   * The stocks loop fails exactly when some listed stock with bars has a zero
   * first close, or there is such a stock and the benchmark return is zero.
   */
  lemma {:induction false} RelativeSucceeds(stocks: seq<string>, bars: map<string, seq<real>>, br: real)
    ensures Relative(stocks, bars, br).Some? <==>
      forall c :: c in stocks && |BarsOf(bars, c)| > 0 ==> br != 0.0 && BarsOf(bars, c)[0] != 0.0
  {
    if stocks != [] {
      var init, code := stocks[..|stocks| - 1], stocks[|stocks| - 1];
      assert stocks == init + [code];
      RelativeSucceeds(init, bars, br);
    }
  }

  /**
   * `calculate_rps` raises exactly when the benchmark has no bars or a zero first
   * close, or some listed stock with bars has a zero first close or meets a benchmark
   * that ends where it started.
   */
  lemma BacktestSucceeds(stocks: seq<string>, bars: map<string, seq<real>>)
    ensures var bench := BarsOf(bars, Benchmark);
      BacktestRps(stocks, bars).Some? <==>
        && |bench| > 0 && bench[0] != 0.0
        && forall c :: c in stocks && |BarsOf(bars, c)| > 0 ==> bench[|bench| - 1] != bench[0] && BarsOf(bars, c)[0] != 0.0
  {
    var bench := BarsOf(bars, Benchmark);
    if |bench| > 0 && bench[0] != 0.0 {
      var br := RangeReturn(bench).value;
      RelativeSucceeds(stocks, bars, br);
      ZeroReturn(bench[0], bench[|bench| - 1]);
    }
  }

  /** A range return is zero exactly when the range ends where it started. */
  lemma ZeroReturn(first: real, last: real)
    requires first != 0.0
    ensures (last - first) / first == 0.0 <==> last == first
  {
  }

  /**
   * A stock's value says how its return compares with the benchmark's: the
   * stock's closes grow by `br * (1 + v)` over the range.
   */
  lemma RelativeMeaning(bars: map<string, seq<real>>, c: string, br: real)
    requires StockRps(bars, c, br).Some?
    ensures |BarsOf(bars, c)| > 0 && BarsOf(bars, c)[0] != 0.0 && br != 0.0
    ensures RangeReturn(BarsOf(bars, c)) == Some(br * (1.0 + StockRps(bars, c, br).value))
    ensures var k := BarsOf(bars, c);
      k[0] * (1.0 + br * (1.0 + StockRps(bars, c, br).value)) == k[|k| - 1]
  {
    var k := BarsOf(bars, c);
    var sr := RangeReturn(k).value;
    var v := StockRps(bars, c, br).value;
    Rescale(sr, br, v);
    Rescale(k[|k| - 1], k[0], sr);
    assert RangeReturn(BarsOf(bars, c)).value == br * (1.0 + StockRps(bars, c, br).value);
    assert RangeReturn(BarsOf(bars, c)).Some?;
  }

  /** `v` is `x` measured relative to `b`, so scaling `1 + v` by `b` gives `x` back. */
  lemma Rescale(x: real, b: real, v: real)
    requires b != 0.0 && v == (x - b) / b
    ensures b * (1.0 + v) == x
  {
  }

  // ---------------------------------------------------------------------------
  // The combination and the top five

  /** `rps50 + rps120 + rps250`, each `d.get(stock, 0)`. */
  function Total(code: string, d50: Dict<string, real>, d120: Dict<string, real>, d250: Dict<string, real>): real {
    Get(d50, code).GetOr(0.0) + Get(d120, code).GetOr(0.0) + Get(d250, code).GetOr(0.0)
  }

  /** `rps_combined` after the loop over the stock list. */
  function Combined(stocks: seq<string>, d50: Dict<string, real>, d120: Dict<string, real>, d250: Dict<string, real>)
    : Dict<string, real>
  {
    if stocks == [] then []
    else
      var code := stocks[|stocks| - 1];
      Put(Combined(stocks[..|stocks| - 1], d50, d120, d250), code, Total(code, d50, d120, d250))
  }

  method Combine(stocks: seq<string>, d50: Dict<string, real>, d120: Dict<string, real>, d250: Dict<string, real>)
    returns (combined: Dict<string, real>)
    ensures combined == Combined(stocks, d50, d120, d250)
  {
    combined := [];
    var i := 0;
    while i < |stocks|
      invariant 0 <= i <= |stocks|
      invariant combined == Combined(stocks[..i], d50, d120, d250)
    {
      assert stocks[..i + 1][..i] == stocks[..i];
      var code := stocks[i];
      var rps50 := Get(d50, code).GetOr(0.0);
      var rps120 := Get(d120, code).GetOr(0.0);
      var rps250 := Get(d250, code).GetOr(0.0);
      combined := Put(combined, code, rps50 + rps120 + rps250);
      i := i + 1;
    }
    assert stocks[..i] == stocks;
  }

  /** Every listed stock gets a total, a missing value counting as zero, and no other code does. */
  lemma {:induction false} CombinedFacts(stocks: seq<string>, d50: Dict<string, real>, d120: Dict<string, real>,
                                        d250: Dict<string, real>)
    ensures DistinctKeys(Combined(stocks, d50, d120, d250))
    ensures forall c ::
      Get(Combined(stocks, d50, d120, d250), c) == if c in stocks then Some(Total(c, d50, d120, d250)) else None
  {
    if stocks != [] {
      var init, code := stocks[..|stocks| - 1], stocks[|stocks| - 1];
      assert stocks == init + [code];
      CombinedFacts(init, d50, d120, d250);
      PutFacts(Combined(init, d50, d120, d250), code, Total(code, d50, d120, d250));
    }
  }

  /** `sort_values(by='RPS_Total', ascending=False).head(5).index.tolist()`, taking the stable order among ties. */
  function Top5(combined: Dict<string, real>): seq<string> {
    Keys(Take(SortDesc(combined), TopCount))
  }

  /**
   * The strategy's codes: `min(5, |codes|)` distinct listed codes in
   * non-increasing order of total, and no listed code left out has a larger
   * total than any code kept.
   */
  lemma Top5Facts(stocks: seq<string>, d50: Dict<string, real>, d120: Dict<string, real>, d250: Dict<string, real>)
    ensures var combined := Combined(stocks, d50, d120, d250);
      var t := Top5(combined);
      && |t| == (if |combined| < TopCount then |combined| else TopCount)
      && (forall i :: 0 <= i < |t| ==> t[i] in stocks)
      && (forall i, j :: 0 <= i < j < |t| ==> t[i] != t[j])
      && (forall i, j :: 0 <= i < j < |t| ==> Total(t[i], d50, d120, d250) >= Total(t[j], d50, d120, d250))
      && (forall c, i :: c in stocks && c !in t && 0 <= i < |t| ==> Total(c, d50, d120, d250) <= Total(t[i], d50, d120, d250))
  {
    var combined := Combined(stocks, d50, d120, d250);
    CombinedFacts(stocks, d50, d120, d250);
    TopKeys(combined, TopCount);
    var t := Top5(combined);
    forall i | 0 <= i < |t| ensures t[i] in stocks && Get(combined, t[i]) == Some(Total(t[i], d50, d120, d250)) {
    }
    forall c, i | c in stocks && c !in t && 0 <= i < |t|
      ensures Total(c, d50, d120, d250) <= Total(t[i], d50, d120, d250)
    {
      assert Get(combined, c) == Some(Total(c, d50, d120, d250));
    }
  }

  /**
   * The first `n` keys of a dictionary sorted by value: distinct keys of the
   * dictionary in non-increasing order of value, none of them below a key left out.
   */
  lemma TopKeys(d: Dict<string, real>, n: nat)
    requires DistinctKeys(d)
    ensures var t := Keys(Take(SortDesc(d), n));
      && |t| == (if |d| < n then |d| else n)
      && (forall i :: 0 <= i < |t| ==> Get(d, t[i]).Some?)
      && (forall i, j :: 0 <= i < j < |t| ==> t[i] != t[j])
      && (forall i, j :: 0 <= i < j < |t| ==> Get(d, t[i]).value >= Get(d, t[j]).value)
      && (forall c, i :: Get(d, c).Some? && c !in t && 0 <= i < |t| ==> Get(d, c).value <= Get(d, t[i]).value)
  {
    var sorted := SortDesc(d);
    var t := Keys(Take(sorted, n));
    SortDescFacts(d);
    DistinctKeysPermutation(d, sorted);
    SortedEntries(d, sorted);
    assert forall i :: 0 <= i < |t| ==> t[i] == sorted[i].0;
    forall c, i | Get(d, c).Some? && c !in t && 0 <= i < |t|
      ensures Get(d, c).value <= Get(d, t[i]).value
    {
      GetSomeIff(d, c);
      var m := IndexOf(d, c);
      assert d[m] in multiset(sorted);
      var j :| 0 <= j < |sorted| && sorted[j] == d[m];
      assert sorted[i].1 >= sorted[j].1;
    }
  }

  /** Each entry of a reordering of a dictionary with distinct keys is a key and its value. */
  lemma SortedEntries(d: Dict<string, real>, sorted: seq<(string, real)>)
    requires DistinctKeys(d) && multiset(sorted) == multiset(d)
    ensures forall j :: 0 <= j < |sorted| ==> Get(d, sorted[j].0) == Some(sorted[j].1)
  {
    forall j | 0 <= j < |sorted| ensures Get(d, sorted[j].0) == Some(sorted[j].1) {
      assert sorted[j] in multiset(d);
      var m :| 0 <= m < |d| && d[m] == sorted[j];
      GetDistinct(d, m);
    }
  }
}
