/**
 * The simplified RPS of `rps_simple.py`: `calculate_rps` turns each stock's
 * n-bar change rates into percentile ranks per period, and
 * `simple_rps_selector` picks the rows with the highest sum of three ranks.
 */
module RpsSimple {
  import opened Wrappers
  import opened OrderedDict
  import opened Ranking
  import RpsStore

  /** A stock as the market-data source supplies it: code, name and its most recent closes, oldest first. */
  datatype Listed = Listed(code: string, name: string, closes: seq<real>)

  /** A row of `result_data` and of the returned frame: code, name and the `RPS{n}` columns. */
  datatype RateRow = RateRow(code: string, name: string, rps: Dict<string, real>)

  // ---------------------------------------------------------------------------
  // Change rates

  /** `max(ns)`; `None` where Python raises `ValueError` on an empty list. */
  function MaxOf(ns: seq<int>): (r: Option<int>)
    ensures r.Some? <==> ns != []
    ensures r.Some? ==> r.value in ns && forall n :: n in ns ==> n <= r.value
  {
    if ns == [] then None
    else
      var init, last := ns[..|ns| - 1], ns[|ns| - 1];
      assert ns == init + [last];
      match MaxOf(init)
      case None => Some(last)
      case Some(m) => Some(if last > m then last else m)
  }

  /** `closes[-n]` with Python's negative indexing; `None` where it raises `IndexError`. */
  function FromEnd(closes: seq<real>, n: int): Option<real> {
    var k := if n > 0 then |closes| - n else -n;
    if 0 <= k < |closes| then Some(closes[k]) else None
  }

  /**
   * `(closes[-1] / closes[-n] - 1) * 100`; `None` where an index raises, and
   * where `closes[-n]` is zero (see the model's notes on division by zero).
   */
  function ChangeRate(closes: seq<real>, n: int): Option<real> {
    match (FromEnd(closes, 1), FromEnd(closes, n))
    case (Some(cur), Some(past)) => if past == 0.0 then None else Some((cur / past - 1.0) * 100.0)
    case _ => None
  }

  /** The `(RPS{n}, rate)` assignments of the periods loop in order; `None` where a rate raises. */
  function RatePairs(closes: seq<real>, ns: seq<int>): Option<seq<(string, real)>> {
    PairsWith(ChangeRate, closes, ns)
  }

  /** The periods loop with `rate` standing for the change rate of one period. */
  function PairsWith(rate: (seq<real>, int) -> Option<real>, closes: seq<real>, ns: seq<int>): Option<seq<(string, real)>> {
    if ns == [] then Some([])
    else
      match PairsWith(rate, closes, ns[..|ns| - 1])
      case None => None
      case Some(ps) =>
        var n := ns[|ns| - 1];
        if |closes| >= n then
          match rate(closes, n)
          case None => None
          case Some(c) => Some(ps + [(RpsStore.RpsKey(n), c)])
        else Some(ps)
  }

  /** `rps_values` after the periods loop. */
  function Rates(closes: seq<real>, ns: seq<int>): Option<Dict<string, real>> {
    match RatePairs(closes, ns)
    case None => None
    case Some(ps) => Some(FromPairs(ps))
  }

  /**
   * The body of the stocks loop for one stock: its row, or `None` when it is
   * skipped (no periods, fewer bars than the longest period, a caught
   * exception, or a failed all-periods check).
   */
  function StockRow(s: Listed, ns: seq<int>): Option<RateRow> {
    match MaxOf(ns)
    case None => None
    case Some(m) =>
      if |s.closes| < m then None
      else
        match Rates(s.closes, ns)
        case None => None
        case Some(d) => if |d| == |ns| then Some(RateRow(s.code, s.name, d)) else None
  }

  /** `result_data` after the stocks loop. */
  function KeptRows(stocks: seq<Listed>, ns: seq<int>): seq<RateRow> {
    if stocks == [] then []
    else
      var r := StockRow(stocks[|stocks| - 1], ns);
      KeptRows(stocks[..|stocks| - 1], ns) + (if r.Some? then [r.value] else [])
  }

  // ---------------------------------------------------------------------------
  // Percentile ranks

  function CountBelow(col: seq<real>, v: real): nat {
    if col == [] then 0 else CountBelow(col[1..], v) + (if col[0] < v then 1 else 0)
  }

  function CountEqual(col: seq<real>, v: real): nat {
    if col == [] then 0 else CountEqual(col[1..], v) + (if col[0] == v then 1 else 0)
  }

  /**
   * `rank(pct=True) * 100` of a value of the column, with pandas' default
   * `average` tie method: the mean of the 1-based positions of its ties,
   * divided by the column's length.
   */
  function PctRank(col: seq<real>, v: real): real {
    if |col| == 0 then 0.0
    else (CountBelow(col, v) as real + (CountEqual(col, v) + 1) as real / 2.0) / |col| as real * 100.0
  }

  /** The values present in column `key`, top to bottom (a missing cell is NaN and not ranked). */
  function ColumnValues(rows: seq<RateRow>, key: string): seq<real> {
    if rows == [] then []
    else
      var c := Get(rows[|rows| - 1].rps, key);
      ColumnValues(rows[..|rows| - 1], key) + (if c.Some? then [c.value] else [])
  }

  /** `df[key] = df[key].rank(pct=True) * 100` */
  function RankColumn(rows: seq<RateRow>, key: string): seq<RateRow> {
    var col := ColumnValues(rows, key);
    seq(|rows|, i requires 0 <= i < |rows| =>
      var c := Get(rows[i].rps, key);
      if c.None? then rows[i] else rows[i].(rps := Put(rows[i].rps, key, PctRank(col, c.value))))
  }

  /** The ranking loop over the periods, in order. */
  function RankAll(rows: seq<RateRow>, ns: seq<int>): seq<RateRow> {
    if ns == [] then rows else RankColumn(RankAll(rows, ns[..|ns| - 1]), RpsStore.RpsKey(ns[|ns| - 1]))
  }

  /**
   * `calculate_rps` as a function of the stocks and periods: `None` where
   * pandas raises `KeyError` because no stock was kept but a column is ranked.
   */
  function CalculateRpsFrame(stocks: seq<Listed>, ns: seq<int>): Option<seq<RateRow>> {
    var rows := KeptRows(stocks, ns);
    if rows == [] && ns != [] then None else Some(RankAll(rows, ns))
  }

  // ---------------------------------------------------------------------------
  // The loops of calculate_rps

  /** The periods loop for one stock's closes. */
  method StockRates(closes: seq<real>, ns: seq<int>) returns (r: Option<Dict<string, real>>)
    ensures r == Rates(closes, ns)
  {
    var d: Dict<string, real> := [];
    var i := 0;
    while i < |ns|
      invariant 0 <= i <= |ns|
      invariant RatePairs(closes, ns[..i]).Some? && d == FromPairs(RatePairs(closes, ns[..i]).value)
    {
      assert ns[..i + 1][..i] == ns[..i];
      var n := ns[i];
      if |closes| >= n {
        var c := ChangeRate(closes, n);
        if c.None? {
          RatePairsPrefixFails(closes, ns, i + 1);
          return None;
        }
        FromPairsSnoc(RatePairs(closes, ns[..i]).value, (RpsStore.RpsKey(n), c.value));
        d := Put(d, RpsStore.RpsKey(n), c.value);
      }
      i := i + 1;
    }
    assert ns[..i] == ns;
    r := Some(d);
  }

  lemma {:induction false} RatePairsPrefixFails(closes: seq<real>, ns: seq<int>, j: nat)
    requires j <= |ns| && RatePairs(closes, ns[..j]).None?
    ensures RatePairs(closes, ns).None?
    decreases |ns| - j
  {
    if j < |ns| {
      assert ns[..j + 1][..j] == ns[..j];
      RatePairsPrefixFails(closes, ns, j + 1);
    } else {
      assert ns[..j] == ns;
    }
  }

  /** `calculate_rps` over the supplied stocks. */
  method CalculateRps(stocks: seq<Listed>, ns: seq<int>) returns (r: Option<seq<RateRow>>)
    ensures r == CalculateRpsFrame(stocks, ns)
  {
    var rows := CollectRows(stocks, ns);
    if rows == [] && ns != [] {
      return None;
    }
    rows := RankColumns(rows, ns);
    r := Some(rows);
  }

  /** The stocks loop of `calculate_rps`: `result_data` after it. */
  method CollectRows(stocks: seq<Listed>, ns: seq<int>) returns (rows: seq<RateRow>)
    ensures rows == KeptRows(stocks, ns)
  {
    rows := [];
    var i := 0;
    while i < |stocks|
      invariant 0 <= i <= |stocks|
      invariant rows == KeptRows(stocks[..i], ns)
    {
      assert stocks[..i + 1][..i] == stocks[..i];
      var s := stocks[i];
      var m := MaxOf(ns);
      if m.Some? && |s.closes| >= m.value {
        var rates := StockRates(s.closes, ns);
        if rates.Some? && |rates.value| == |ns| {
          rows := rows + [RateRow(s.code, s.name, rates.value)];
        }
      }
      i := i + 1;
    }
    assert stocks[..i] == stocks;
  }

  /** The ranking loop of `calculate_rps`: each period's column replaced by its percentile ranks, in period order. */
  method RankColumns(kept: seq<RateRow>, ns: seq<int>) returns (rows: seq<RateRow>)
    ensures rows == RankAll(kept, ns)
  {
    rows := kept;
    var k := 0;
    while k < |ns|
      invariant 0 <= k <= |ns|
      invariant rows == RankAll(kept, ns[..k])
    {
      assert ns[..k + 1][..k] == ns[..k];
      rows := RankColumn(rows, RpsStore.RpsKey(ns[k]));
      k := k + 1;
    }
    assert ns[..k] == ns;
  }

  // ---------------------------------------------------------------------------
  // What calculate_rps computes

  /**
   * The change rate is defined exactly when `closes[-n]` is a valid Python index
   * holding a non-zero close. It is then the percentage by which that close
   * grows into the last one.
   */
  lemma ChangeRateMeaning(closes: seq<real>, n: int)
    ensures ChangeRate(closes, n).Some? <==>
      -|closes| < n <= |closes| && closes[if n > 0 then |closes| - n else -n] != 0.0
    ensures ChangeRate(closes, n).Some? ==>
      closes[if n > 0 then |closes| - n else -n] * (1.0 + ChangeRate(closes, n).value / 100.0) == closes[|closes| - 1]
  {
  }

  /** With the length guard passed, the rates are exactly the periods' change rates, named `RPS{n}`. */
  lemma RatePairsFacts(closes: seq<real>, ns: seq<int>)
    requires forall k :: 0 <= k < |ns| ==> ns[k] <= |closes|
    ensures RatePairs(closes, ns).Some? <==> forall k :: 0 <= k < |ns| ==> ChangeRate(closes, ns[k]).Some?
    ensures RatePairs(closes, ns).Some? ==>
      && |RatePairs(closes, ns).value| == |ns|
      && forall k :: 0 <= k < |ns| ==>
        RatePairs(closes, ns).value[k] == (RpsStore.RpsKey(ns[k]), ChangeRate(closes, ns[k]).value)
  {
    PairsSucceeds(ChangeRate, closes, ns);
    if RatePairs(closes, ns).Some? {
      PairsValues(ChangeRate, closes, ns);
    }
  }

  lemma {:induction false} PairsSucceeds(rate: (seq<real>, int) -> Option<real>, closes: seq<real>, ns: seq<int>)
    requires forall k :: 0 <= k < |ns| ==> ns[k] <= |closes|
    ensures PairsWith(rate, closes, ns).Some? <==> forall k :: 0 <= k < |ns| ==> rate(closes, ns[k]).Some?
  {
    if ns != [] {
      var init, n := ns[..|ns| - 1], ns[|ns| - 1];
      PairsSucceeds(rate, closes, init);
      AllDefinedSnoc(rate, closes, ns, init);
      assert n <= |closes|;
      assert PairsWith(rate, closes, ns).Some? <==> PairsWith(rate, closes, init).Some? && rate(closes, n).Some?;
    }
  }

  lemma AllDefinedSnoc(rate: (seq<real>, int) -> Option<real>, closes: seq<real>, ns: seq<int>, init: seq<int>)
    requires ns != [] && init == ns[..|ns| - 1]
    ensures (forall k :: 0 <= k < |ns| ==> rate(closes, ns[k]).Some?) <==>
      (forall k :: 0 <= k < |init| ==> rate(closes, init[k]).Some?) && rate(closes, ns[|ns| - 1]).Some?
  {
    assert forall k :: 0 <= k < |init| ==> init[k] == ns[k];
  }

  lemma {:induction false} PairsValues(rate: (seq<real>, int) -> Option<real>, closes: seq<real>, ns: seq<int>)
    requires forall k :: 0 <= k < |ns| ==> ns[k] <= |closes|
    requires PairsWith(rate, closes, ns).Some?
    ensures |PairsWith(rate, closes, ns).value| == |ns|
    ensures forall k :: 0 <= k < |ns| ==>
      rate(closes, ns[k]).Some? &&
      PairsWith(rate, closes, ns).value[k] == (RpsStore.RpsKey(ns[k]), rate(closes, ns[k]).value)
  {
    if ns != [] {
      var init, n := ns[..|ns| - 1], ns[|ns| - 1];
      assert forall k :: 0 <= k < |init| ==> init[k] == ns[k];
      var pre := PairsWith(rate, closes, init);
      assert pre.Some? && n <= |closes| && rate(closes, n).Some?;
      PairsValues(rate, closes, init);
      var r := PairsWith(rate, closes, ns).value;
      assert r == pre.value + [(RpsStore.RpsKey(n), rate(closes, n).value)];
      forall k | 0 <= k < |ns|
        ensures rate(closes, ns[k]).Some? && r[k] == (RpsStore.RpsKey(ns[k]), rate(closes, ns[k]).value)
      {
        if k < |init| {
          assert r[k] == pre.value[k];
        }
      }
    }
  }

  /** Distinct periods give distinct column names, and repeated periods repeated ones. */
  lemma PairsDistinct(closes: seq<real>, ns: seq<int>, ps: seq<(string, real)>)
    requires |ps| == |ns| && forall k :: 0 <= k < |ns| ==> ps[k].0 == RpsStore.RpsKey(ns[k])
    ensures DistinctKeys(ps) <==> forall a, b :: 0 <= a < b < |ns| ==> ns[a] != ns[b]
  {
    forall a, b | 0 <= a < b < |ns| && ps[a].0 == ps[b].0 ensures ns[a] == ns[b] {
      RpsStore.RpsKeyInjective(ns[a], ns[b]);
    }
  }

  /**
   * A stock is kept exactly when there are periods, they are distinct, it has
   * at least as many bars as the longest period and every change rate is
   * defined; its row then holds `RPS{n}` and that rate for each period, in order.
   * With distinct periods the all-periods check therefore never rejects a stock
   * that reached it; with a repeated period it rejects every stock.
   */
  lemma StockRowFacts(s: Listed, ns: seq<int>)
    ensures StockRow(s, ns).Some? <==>
      && ns != []
      && (forall a, b :: 0 <= a < b < |ns| ==> ns[a] != ns[b])
      && (forall k :: 0 <= k < |ns| ==> ns[k] <= |s.closes|)
      && (forall k :: 0 <= k < |ns| ==> ChangeRate(s.closes, ns[k]).Some?)
    ensures StockRow(s, ns).Some? ==>
      && StockRow(s, ns).value.code == s.code && StockRow(s, ns).value.name == s.name
      && |StockRow(s, ns).value.rps| == |ns|
      && forall k :: 0 <= k < |ns| ==>
        StockRow(s, ns).value.rps[k] == (RpsStore.RpsKey(ns[k]), ChangeRate(s.closes, ns[k]).value)
  {
    if ns != [] {
      var m := MaxOf(ns).value;
      if |s.closes| >= m {
        assert forall k :: 0 <= k < |ns| ==> ns[k] in ns;
        StockRowGuarded(s, ns);
        RatePairsFacts(s.closes, ns);
        if StockRow(s, ns).Some? {
          var row := StockRow(s, ns).value;
          assert row.rps == RatePairs(s.closes, ns).value;
        }
      } else {
        assert m in ns;
      }
    }
  }

  lemma StockRowGuarded(s: Listed, ns: seq<int>)
    requires ns != [] && forall k :: 0 <= k < |ns| ==> ns[k] <= |s.closes|
    requires |s.closes| >= MaxOf(ns).value
    ensures StockRow(s, ns).Some? <==>
      && (forall a, b :: 0 <= a < b < |ns| ==> ns[a] != ns[b])
      && (forall k :: 0 <= k < |ns| ==> ChangeRate(s.closes, ns[k]).Some?)
    ensures StockRow(s, ns).Some? ==>
      && StockRow(s, ns).value == RateRow(s.code, s.name, RatePairs(s.closes, ns).value)
  {
    RatePairsFacts(s.closes, ns);
    var rp := RatePairs(s.closes, ns);
    assert StockRow(s, ns) ==
      if rp.Some? && |FromPairs(rp.value)| == |ns| then Some(RateRow(s.code, s.name, FromPairs(rp.value))) else None;
    if rp.Some? {
      var ps := rp.value;
      PairsDistinct(s.closes, ns, ps);
      FromPairsLength(ps);
      if DistinctKeys(ps) {
        FromDistinctPairs(ps);
      }
    }
  }

  /** The kept rows are the rows of the kept stocks, in stock order. */
  lemma {:induction false} KeptRowsMembers(stocks: seq<Listed>, ns: seq<int>)
    ensures |KeptRows(stocks, ns)| <= |stocks|
    ensures forall r :: r in KeptRows(stocks, ns) <==> exists s :: s in stocks && StockRow(s, ns) == Some(r)
  {
    if stocks != [] {
      var init := stocks[..|stocks| - 1];
      assert stocks == init + [stocks[|stocks| - 1]];
      KeptRowsMembers(init, ns);
    }
  }

  /** Every kept row holds the distinct period columns, in period order. */
  ghost predicate Shaped(rows: seq<RateRow>, ns: seq<int>) {
    forall i :: 0 <= i < |rows| ==>
      && |rows[i].rps| == |ns|
      && DistinctKeys(rows[i].rps)
      && forall k :: 0 <= k < |ns| ==> rows[i].rps[k].0 == RpsStore.RpsKey(ns[k])
  }

  lemma KeptRowsShaped(stocks: seq<Listed>, ns: seq<int>)
    ensures Shaped(KeptRows(stocks, ns), ns)
    ensures KeptRows(stocks, ns) != [] ==> forall a, b :: 0 <= a < b < |ns| ==> ns[a] != ns[b]
  {
    var rows := KeptRows(stocks, ns);
    KeptRowsMembers(stocks, ns);
    forall i | 0 <= i < |rows|
      ensures |rows[i].rps| == |ns| && DistinctKeys(rows[i].rps)
      ensures forall k :: 0 <= k < |ns| ==> rows[i].rps[k].0 == RpsStore.RpsKey(ns[k])
    {
      assert rows[i] in rows;
      var s :| s in stocks && StockRow(s, ns) == Some(rows[i]);
      StockRowFacts(s, ns);
      PairsDistinct(s.closes, ns, rows[i].rps);
    }
    if rows != [] {
      assert rows[0] in rows;
      var s :| s in stocks && StockRow(s, ns) == Some(rows[0]);
      StockRowFacts(s, ns);
    }
  }

  /** The raw column of period position `k`. */
  function RawColumn(rows: seq<RateRow>, k: nat): seq<real>
    requires forall i :: 0 <= i < |rows| ==> k < |rows[i].rps|
  {
    seq(|rows|, i requires 0 <= i < |rows| => rows[i].rps[k].1)
  }

  /** Assigning a present key of a dictionary replaces its value in place. */
  lemma {:induction false} PutAt(d: Dict<string, real>, k: nat, v: real)
    requires DistinctKeys(d) && k < |d|
    ensures Put(d, d[k].0, v) == d[k := (d[k].0, v)]
  {
    if k > 0 {
      assert d[1..][k - 1] == d[k];
      assert DistinctKeys(d[1..]) by {
        forall a, b | 0 <= a < b < |d[1..]| ensures d[1..][a].0 != d[1..][b].0 {
          assert d[1..][a] == d[a + 1] && d[1..][b] == d[b + 1];
        }
      }
      PutAt(d[1..], k - 1, v);
      assert d[0].0 != d[k].0;
      assert [d[0]] + d[1..][k - 1 := (d[k].0, v)] == d[k := (d[k].0, v)];
    }
  }

  /** When every row holds the key, the column's values are the rows' values, top to bottom. */
  lemma {:induction false} ColumnValuesFull(rows: seq<RateRow>, key: string, vals: seq<real>)
    requires |vals| == |rows| && forall i :: 0 <= i < |rows| ==> Get(rows[i].rps, key) == Some(vals[i])
    ensures ColumnValues(rows, key) == vals
  {
    if rows != [] {
      var n := |rows| - 1;
      ColumnValuesFull(rows[..n], key, vals[..n]);
      assert vals == vals[..n] + [vals[n]];
    }
  }

  /** One row after ranking the first `m` periods: those cells are ranks of the raw columns, the rest untouched. */
  ghost predicate RowRankedUpTo(raw: seq<RateRow>, r: RateRow, base: RateRow, ns: seq<int>, m: nat)
    requires Shaped(raw, ns) && m <= |ns|
  {
    && r.code == base.code && r.name == base.name
    && |r.rps| == |ns| && |base.rps| == |ns|
    && (forall k :: 0 <= k < |ns| ==> r.rps[k].0 == base.rps[k].0)
    && (forall k :: 0 <= k < m ==> r.rps[k].1 == PctRank(RawColumn(raw, k), base.rps[k].1))
    && (forall k :: m <= k < |ns| ==> r.rps[k].1 == base.rps[k].1)
  }

  /** After ranking the first `m` periods, every row is ranked up to `m`. */
  ghost predicate RankedUpTo(raw: seq<RateRow>, rows: seq<RateRow>, ns: seq<int>, m: nat)
    requires Shaped(raw, ns) && m <= |ns|
  {
    && |rows| == |raw|
    && forall i :: 0 <= i < |rows| ==> RowRankedUpTo(raw, rows[i], raw[i], ns, m)
  }

  lemma {:induction false} RankAllFacts(raw: seq<RateRow>, ns: seq<int>)
    requires Shaped(raw, ns)
    ensures RankedUpTo(raw, RankAll(raw, ns), ns, |ns|)
    decreases |ns|
  {
    RankAllPrefix(raw, ns, |ns|);
    assert ns[..|ns|] == ns;
  }

  lemma {:induction false} RankAllPrefix(raw: seq<RateRow>, ns: seq<int>, m: nat)
    requires Shaped(raw, ns) && m <= |ns|
    ensures RankedUpTo(raw, RankAll(raw, ns[..m]), ns, m)
  {
    if m == 0 {
      forall i | 0 <= i < |raw| ensures RowRankedUpTo(raw, raw[i], raw[i], ns, 0) {
      }
    } else {
      RankAllPrefix(raw, ns, m - 1);
      assert ns[..m][..m - 1] == ns[..m - 1];
      assert RankAll(raw, ns[..m]) == RankColumn(RankAll(raw, ns[..m - 1]), RpsStore.RpsKey(ns[m - 1]));
      RankStep(raw, RankAll(raw, ns[..m - 1]), ns, m - 1);
    }
  }

  /** Writing the rank of period `k` into a row ranked up to `k` ranks it up to `k + 1`. */
  lemma RankRowStep(raw: seq<RateRow>, ns: seq<int>, k: nat, r: RateRow, base: RateRow, v: real)
    requires Shaped(raw, ns) && k < |ns| && RowRankedUpTo(raw, r, base, ns, k)
    requires v == PctRank(RawColumn(raw, k), base.rps[k].1)
    ensures RowRankedUpTo(raw, r.(rps := r.rps[k := (r.rps[k].0, v)]), base, ns, k + 1)
  {
  }

  lemma RankStep(raw: seq<RateRow>, rows: seq<RateRow>, ns: seq<int>, k: nat)
    requires Shaped(raw, ns) && k < |ns| && RankedUpTo(raw, rows, ns, k)
    ensures RankedUpTo(raw, RankColumn(rows, RpsStore.RpsKey(ns[k])), ns, k + 1)
  {
    var key := RpsStore.RpsKey(ns[k]);
    forall i | 0 <= i < |rows| ensures DistinctKeys(rows[i].rps) && Get(rows[i].rps, key) == Some(raw[i].rps[k].1) {
      assert RowRankedUpTo(raw, rows[i], raw[i], ns, k);
      forall a, b | 0 <= a < b < |rows[i].rps| ensures rows[i].rps[a].0 != rows[i].rps[b].0 {
        assert raw[i].rps[a].0 != raw[i].rps[b].0;
      }
      GetDistinct(rows[i].rps, k);
    }
    ColumnValuesFull(rows, key, RawColumn(raw, k));
    var next := RankColumn(rows, key);
    forall i | 0 <= i < |rows| ensures RowRankedUpTo(raw, next[i], raw[i], ns, k + 1) {
      var v := PctRank(RawColumn(raw, k), raw[i].rps[k].1);
      PutAt(rows[i].rps, k, v);
      assert next[i] == rows[i].(rps := rows[i].rps[k := (rows[i].rps[k].0, v)]);
      RankRowStep(raw, ns, k, rows[i], raw[i], v);
    }
  }

  /**
   * The returned frame: one row per kept stock, in stock order, whose `RPS{n}`
   * cell is the percentile rank of the stock's change rate among the kept
   * stocks' rates for that period.
   */
  lemma CalculateRpsFacts(stocks: seq<Listed>, ns: seq<int>)
    ensures CalculateRpsFrame(stocks, ns).None? <==> KeptRows(stocks, ns) == [] && ns != []
    ensures var raw := KeptRows(stocks, ns);
      CalculateRpsFrame(stocks, ns).Some? ==>
      var r := CalculateRpsFrame(stocks, ns).value;
      && Shaped(raw, ns)
      && |r| == |raw|
      && forall i :: 0 <= i < |r| ==>
        && r[i].code == raw[i].code && r[i].name == raw[i].name
        && |r[i].rps| == |ns|
        && forall k :: 0 <= k < |ns| ==>
          r[i].rps[k] == (RpsStore.RpsKey(ns[k]), PctRank(RawColumn(raw, k), raw[i].rps[k].1))
  {
    KeptRowsShaped(stocks, ns);
    var raw := KeptRows(stocks, ns);
    if CalculateRpsFrame(stocks, ns).Some? {
      RankAllFacts(raw, ns);
    }
  }

  lemma {:induction false} CountsBound(col: seq<real>, v: real)
    ensures CountBelow(col, v) + CountEqual(col, v) <= |col|
    ensures v in col ==> CountEqual(col, v) >= 1
  {
    if col != [] {
      CountsBound(col[1..], v);
      if v in col && col[0] != v {
        assert v in col[1..];
      }
    }
  }

  lemma {:induction false} CountsOrdered(col: seq<real>, a: real, b: real)
    requires a < b
    ensures CountBelow(col, b) >= CountBelow(col, a) + CountEqual(col, a)
  {
    if col != [] {
      CountsOrdered(col[1..], a, b);
    }
  }

  /** Every rank of a value of the column lies in (0, 100]. */
  lemma PctRankBounds(col: seq<real>, v: real)
    requires v in col
    ensures 0.0 < PctRank(col, v) <= 100.0
  {
    CountsBound(col, v);
    var lo, eq, n := CountBelow(col, v) as real, CountEqual(col, v) as real, |col| as real;
    var rank := lo + (eq + 1.0) / 2.0;
    assert 0.0 < rank <= n;
    RatioBounds(rank, n);
  }

  lemma RatioBounds(x: real, n: real)
    requires 0.0 < x <= n
    ensures 0.0 < x / n * 100.0 <= 100.0
  {
    assert x / n <= 1.0;
  }

  /** Ranks preserve the order of the values: a smaller value of the column has a strictly smaller rank. */
  lemma PctRankOrder(col: seq<real>, a: real, b: real)
    requires a in col && a < b
    ensures PctRank(col, a) < PctRank(col, b)
  {
    CountsBound(col, a);
    CountsOrdered(col, a, b);
    var n := |col| as real;
    var ra := CountBelow(col, a) as real + (CountEqual(col, a) + 1) as real / 2.0;
    var rb := CountBelow(col, b) as real + (CountEqual(col, b) + 1) as real / 2.0;
    assert ra < rb;
    RatioOrder(ra, rb, n);
  }

  lemma RatioOrder(x: real, y: real, n: real)
    requires x < y && n > 0.0
    ensures x / n * 100.0 < y / n * 100.0
  {
    assert x / n < y / n;
  }

  // ---------------------------------------------------------------------------
  // simple_rps_selector

  /** A row of the RPS table the selector reads: `code`, `RPS50`, `RPS120`, `RPS250`. */
  datatype TableRow = TableRow(code: string, rps50: real, rps120: real, rps250: real)

  /** What the market-data source knows of a code: its name and its closes, oldest first. */
  datatype Quote = Quote(name: string, closes: seq<real>)

  /** An entry of the selector's `result` list. */
  datatype Pick = Pick(code: string, name: string, rps50: real, rps120: real, rps250: real, rpsSum: real,
                       close: Option<real>)

  /** `RPS_SUM = RPS50 + RPS120 + RPS250` */
  function RpsSum(r: TableRow): real {
    r.rps50 + r.rps120 + r.rps250
  }

  /** The table with its `RPS_SUM` column, in table order. */
  function WithSums(rows: seq<TableRow>): seq<(TableRow, real)> {
    seq(|rows|, i requires 0 <= i < |rows| => (rows[i], RpsSum(rows[i])))
  }

  /**
   * `sort_values(by='RPS_SUM', ascending=False).head(count)`. pandas' sort is
   * not stable; the model takes the stable order as the order it produces among
   * ties, and nothing below depends on how ties are ordered.
   */
  function TopRows(rows: seq<TableRow>, count: int): seq<(TableRow, real)> {
    Take(SortDesc(WithSums(rows)), count)
  }

  /** The entry for one selected row, given what the source knows of its code. */
  function PickOf(row: (TableRow, real), q: Quote): Pick {
    Pick(row.0.code, q.name, row.0.rps50, row.0.rps120, row.0.rps250, row.1,
         if |q.closes| > 0 then Some(q.closes[|q.closes| - 1]) else None)
  }

  /** `result` after the details loop: a code unknown to the market raises and is skipped. */
  function Picks(top: seq<(TableRow, real)>, market: map<string, Quote>): seq<Pick> {
    if top == [] then []
    else
      var row := top[|top| - 1];
      Picks(top[..|top| - 1], market) + (if row.0.code in market then [PickOf(row, market[row.0.code])] else [])
  }

  /** `simple_rps_selector` over a loaded table. */
  method SimpleRpsSelector(rows: seq<TableRow>, count: int, market: map<string, Quote>) returns (result: seq<Pick>)
    ensures result == Picks(TopRows(rows, count), market)
  {
    var top := TopRows(rows, count);
    result := [];
    var i := 0;
    while i < |top|
      invariant 0 <= i <= |top|
      invariant result == Picks(top[..i], market)
    {
      assert top[..i + 1][..i] == top[..i];
      var code := top[i].0.code;
      if code in market {
        var stock := market[code];
        var lastClose: Option<real> := None;
        if |stock.closes| > 0 {
          lastClose := Some(stock.closes[|stock.closes| - 1]);
        }
        result := result + [Pick(code, stock.name, top[i].0.rps50, top[i].0.rps120, top[i].0.rps250, top[i].1,
                                 lastClose)];
      }
      i := i + 1;
    }
    assert top[..i] == top;
  }

  /** Every pick comes from a selected row whose code the market knows, with that row's values. */
  ghost predicate PickedFrom(p: Pick, top: seq<(TableRow, real)>, market: map<string, Quote>) {
    exists i :: 0 <= i < |top| && top[i].0.code in market && p == PickOf(top[i], market[top[i].0.code])
  }

  lemma PicksFacts(top: seq<(TableRow, real)>, market: map<string, Quote>)
    ensures |Picks(top, market)| <= |top|
    ensures forall p :: p in Picks(top, market) ==> PickedFrom(p, top, market)
    ensures forall i :: 0 <= i < |top| && top[i].0.code in market ==> PickOf(top[i], market[top[i].0.code]) in Picks(top, market)
    ensures NonIncreasing(top) ==> forall a, b :: 0 <= a < b < |Picks(top, market)| ==>
      Picks(top, market)[a].rpsSum >= Picks(top, market)[b].rpsSum
  {
    PicksMembers(top, market);
    if NonIncreasing(top) {
      PicksOrdered(top, market);
    }
  }

  lemma {:induction false} PicksMembers(top: seq<(TableRow, real)>, market: map<string, Quote>)
    ensures |Picks(top, market)| <= |top|
    ensures forall p :: p in Picks(top, market) ==> PickedFrom(p, top, market)
    ensures forall i :: 0 <= i < |top| && top[i].0.code in market ==> PickOf(top[i], market[top[i].0.code]) in Picks(top, market)
  {
    if top != [] {
      var init, row := top[..|top| - 1], top[|top| - 1];
      PicksMembers(init, market);
      var ps := Picks(init, market);
      var tail := if row.0.code in market then [PickOf(row, market[row.0.code])] else [];
      assert Picks(top, market) == ps + tail;
      forall p | p in ps ensures PickedFrom(p, top, market) {
        var i :| 0 <= i < |init| && init[i].0.code in market && p == PickOf(init[i], market[init[i].0.code]);
        assert top[i] == init[i];
      }
      forall i | 0 <= i < |top| && top[i].0.code in market
        ensures PickOf(top[i], market[top[i].0.code]) in Picks(top, market)
      {
        if i < |init| {
          assert init[i] == top[i];
        }
      }
    }
  }

  lemma {:induction false} PicksOrdered(top: seq<(TableRow, real)>, market: map<string, Quote>)
    requires NonIncreasing(top)
    ensures forall a, b :: 0 <= a < b < |Picks(top, market)| ==>
      Picks(top, market)[a].rpsSum >= Picks(top, market)[b].rpsSum
  {
    if top != [] {
      var init, row := top[..|top| - 1], top[|top| - 1];
      assert NonIncreasing(init) by {
        forall a, b | 0 <= a < b < |init| ensures init[a].1 >= init[b].1 {
          assert init[a] == top[a] && init[b] == top[b];
        }
      }
      PicksOrdered(init, market);
      PicksMembers(init, market);
      var ps := Picks(init, market);
      var tail := if row.0.code in market then [PickOf(row, market[row.0.code])] else [];
      assert Picks(top, market) == ps + tail;
      forall p | p in ps ensures p.rpsSum >= row.1 {
        var i :| 0 <= i < |init| && init[i].0.code in market && p == PickOf(init[i], market[init[i].0.code]);
        assert init[i] == top[i];
      }
    }
  }

  /**
   * The selector's result: never more entries than rows, at most `count` when
   * `count` is non-negative, in non-increasing `RPS_SUM` order, each the details
   * of a table row whose code the market knows, with `close` the code's last
   * close or `None` when it has no bars.
   */
  lemma SelectorFacts(rows: seq<TableRow>, count: int, market: map<string, Quote>)
    ensures var r := Picks(TopRows(rows, count), market);
      && |r| <= |rows|
      && (count >= 0 ==> |r| <= count)
      && (forall a, b :: 0 <= a < b < |r| ==> r[a].rpsSum >= r[b].rpsSum)
      && (forall p :: p in r ==>
        && p.code in market && p.name == market[p.code].name
        && p.rpsSum == p.rps50 + p.rps120 + p.rps250
        && (p.close.None? <==> market[p.code].closes == [])
        && (p.close.Some? ==> p.close.value == market[p.code].closes[|market[p.code].closes| - 1])
        && TableRow(p.code, p.rps50, p.rps120, p.rps250) in rows)
  {
    var ws := WithSums(rows);
    var top := TopRows(rows, count);
    SortDescFacts(ws);
    PicksFacts(top, market);
    assert NonIncreasing(top) by {
      forall a, b | 0 <= a < b < |top| ensures top[a].1 >= top[b].1 {
        assert top[a] == SortDesc(ws)[a] && top[b] == SortDesc(ws)[b];
      }
    }
    forall p | p in Picks(top, market)
      ensures p.rpsSum == p.rps50 + p.rps120 + p.rps250 && TableRow(p.code, p.rps50, p.rps120, p.rps250) in rows
    {
      var i :| 0 <= i < |top| && top[i].0.code in market && p == PickOf(top[i], market[top[i].0.code]);
      assert top[i] == SortDesc(ws)[i];
      assert top[i] in multiset(ws);
      var j :| 0 <= j < |ws| && ws[j] == top[i];
      assert rows[j] == top[i].0;
    }
  }
}
