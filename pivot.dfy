/**
 * The date-by-code table read from the store for one period: `read_rps_file`
 * (utils.py) and `read_rps_to_dataframe` (rps.py, and the identical copy in the
 * RPS10 indicator's part.py), plus the indicator's `part` entry point.
 */
module RpsPivot {
  import opened Wrappers
  import opened OrderedDict
  import opened StrOrder
  import opened RpsStore

  /**
   * The table: row `i` is `[dates[i]] + cells[i]` under the columns
   * `['date'] + codes`; a `None` cell is a NaN. `datetime` says whether a
   * `'datetime'` column was added beside `'date'`.
   */
  datatype Frame = Frame(dates: seq<string>, codes: seq<string>, cells: seq<seq<Option<real>>>, datetime: bool)

  /** The column header of the table. */
  function Columns(f: Frame): seq<string> {
    ["date"] + f.codes + (if f.datetime then ["datetime"] else [])
  }

  /** The date's group holds the dataset `RPS{period}`. */
  predicate HasPeriod(store: Store, period: int, date: string) {
    date in store && RpsKey(period) in store[date]
  }

  /** The codes of a dataset's rows. */
  function RowCodes(rows: Rows): set<string> {
    set i | 0 <= i < |rows| :: rows[i].0
  }

  /** The dates of `keys` that hold the period, in order. */
  function WithPeriod(store: Store, period: int, keys: seq<string>): seq<string> {
    if keys == [] then []
    else
      WithPeriod(store, period, keys[..|keys| - 1]) +
      (if HasPeriod(store, period, keys[|keys| - 1]) then [keys[|keys| - 1]] else [])
  }

  /**
   * What reading the table promises: it fails exactly when some dataset of the
   * period does not parse; otherwise the dates are the sorted dates holding the
   * period, the codes are the sorted union of their codes, and each cell is the
   * date's score for the code or NaN.
   */
  ghost predicate PivotOf(store: Store, period: int, r: Option<Frame>) {
    && (r.None? <==> exists d :: HasPeriod(store, period, d) && Load(store, d, period).None?)
    && (r.Some? ==>
      var f := r.value;
      && Increasing(f.dates)
      && (forall d :: d in f.dates <==> HasPeriod(store, period, d))
      && Increasing(f.codes)
      && (forall c :: c in f.codes <==> exists d :: d in f.dates && c in RowCodes(store[d][RpsKey(period)]))
      && |f.cells| == |f.dates|
      && forall i :: 0 <= i < |f.dates| ==>
        && Load(store, f.dates[i], period).Some?
        && |f.cells[i]| == |f.codes|
        && forall j :: 0 <= j < |f.codes| ==> f.cells[i][j] == Get(Load(store, f.dates[i], period).value, f.codes[j]))
  }

  /** One dataset read into `date_data`, adding its codes to `all_stocks`; `None` where `float` raises. */
  method ReadDataset(rows: Rows, seen: set<string>) returns (d: Option<Dict<string, real>>, stocks: set<string>)
    ensures d == DecodeRows(rows)
    ensures d.Some? ==> stocks == seen + RowCodes(rows)
  {
    var data: Dict<string, real> := [];
    stocks := seen;
    var i := 0;
    while i < |rows|
      invariant 0 <= i <= |rows|
      invariant ParseRows(rows[..i]).Some? && data == FromPairs(ParseRows(rows[..i]).value)
      invariant stocks == seen + RowCodes(rows[..i])
    {
      var v := ScoreText.Decode(rows[i].1);
      ParseRowsStep(rows, i);
      if v.None? {
        ParseRowsPrefixFails(rows, i + 1);
        return None, stocks;
      }
      FromPairsSnoc(ParseRows(rows[..i]).value, (rows[i].0, v.value));
      data := Put(data, rows[i].0, v.value);
      RowCodesSnoc(rows, i);
      stocks := stocks + {rows[i].0};
      i := i + 1;
    }
    assert rows[..i] == rows;
    d := Some(data);
  }

  lemma RowCodesSnoc(rows: Rows, i: nat)
    requires i < |rows|
    ensures RowCodes(rows[..i + 1]) == RowCodes(rows[..i]) + {rows[i].0}
  {
    var a, b := rows[..i + 1], rows[..i];
    forall c | c in RowCodes(a) ensures c in RowCodes(b) + {rows[i].0} {
      var k :| 0 <= k < |a| && a[k].0 == c;
      if k < i {
        assert b[k] == a[k];
      }
    }
    forall c | c in RowCodes(b) ensures c in RowCodes(a) {
      var k :| 0 <= k < |b| && b[k].0 == c;
      assert a[k] == b[k];
    }
    assert a[i] == rows[i];
  }

  /** The table's rows: `date_data.get(code, nan)` for every date and code. */
  method BuildCells(dates: seq<string>, codes: seq<string>, data: map<string, Dict<string, real>>)
    returns (cells: seq<seq<Option<real>>>)
    requires forall d :: d in dates ==> d in data
    ensures |cells| == |dates|
    ensures forall i :: 0 <= i < |dates| ==>
      |cells[i]| == |codes| && forall j :: 0 <= j < |codes| ==> cells[i][j] == Get(data[dates[i]], codes[j])
  {
    cells := [];
    var i := 0;
    while i < |dates|
      invariant 0 <= i <= |dates|
      invariant |cells| == i
      invariant forall a :: 0 <= a < i ==>
        |cells[a]| == |codes| && forall j :: 0 <= j < |codes| ==> cells[a][j] == Get(data[dates[a]], codes[j])
    {
      var dateData := data[dates[i]];
      var row: seq<Option<real>> := [];
      var j := 0;
      while j < |codes|
        invariant 0 <= j <= |codes|
        invariant |row| == j
        invariant forall b :: 0 <= b < j ==> row[b] == Get(dateData, codes[b])
      {
        row := row + [Get(dateData, codes[j])];
        j := j + 1;
      }
      cells := cells + [row];
      i := i + 1;
    }
  }

  /** The loop over the sorted date keys: `all_dates`, `all_stocks` and `date_rps_dict`; `ok` is false where a read raises. */
  method ReadDates(store: Store, period: int, dates: seq<string>)
    returns (ok: bool, allDates: seq<string>, allStocks: set<string>, dateRps: map<string, Dict<string, real>>)
    requires forall d :: d in dates ==> d in store
    ensures ok <==> forall i :: 0 <= i < |dates| ==> Load(store, dates[i], period).Some?
    ensures ok ==> allDates == WithPeriod(store, period, dates)
    ensures ok ==> forall d :: d in allDates ==> HasPeriod(store, period, d)
    ensures ok ==> forall d :: d in allDates ==> d in dateRps && Load(store, d, period) == Some(dateRps[d])
    ensures ok ==> forall c :: c in allStocks <==>
      exists d :: d in allDates && HasPeriod(store, period, d) && c in RowCodes(store[d][RpsKey(period)])
  {
    allDates, allStocks, dateRps := [], {}, map[];
    var rpsKey := RpsKey(period);
    var k := 0;
    while k < |dates|
      invariant 0 <= k <= |dates|
      invariant allDates == WithPeriod(store, period, dates[..k])
      invariant allStocks == CodesAt(store, period, dates[..k])
      invariant Recorded(store, period, allDates, dateRps)
      invariant LoadsAll(store, period, dates[..k])
    {
      WithPeriodStep(store, period, dates, k);
      CodesAtStep(store, period, dates, k);
      LoadsAllStep(store, period, dates, k);
      var date := dates[k];
      var dateData, stocks := ReadDate(store, period, date, allStocks);
      if dateData.None? {
        LoadsAllMeans(store, period, dates);
        return false, allDates, stocks, dateRps;
      }
      allStocks := stocks;
      if rpsKey in store[date] {
        RecordedSnoc(store, period, allDates, dateRps, date, dateData.value);
        allDates := allDates + [date];
        dateRps := dateRps[date := dateData.value];
      }
      k := k + 1;
    }
    assert dates[..k] == dates;
    CodesAtMembers(store, period, dates);
    LoadsAllMeans(store, period, dates);
    ok := true;
  }

  /** Every date of `keys` loads without raising. */
  ghost predicate LoadsAll(store: Store, period: int, keys: seq<string>) {
    keys == [] || (LoadsAll(store, period, keys[..|keys| - 1]) && Load(store, keys[|keys| - 1], period).Some?)
  }

  lemma LoadsAllStep(store: Store, period: int, keys: seq<string>, k: nat)
    requires k < |keys|
    ensures LoadsAll(store, period, keys[..k + 1]) <==>
      LoadsAll(store, period, keys[..k]) && Load(store, keys[k], period).Some?
  {
    assert keys[..k + 1][..k] == keys[..k];
  }

  lemma {:induction false} LoadsAllMeans(store: Store, period: int, keys: seq<string>)
    ensures LoadsAll(store, period, keys) <==> forall i :: 0 <= i < |keys| ==> Load(store, keys[i], period).Some?
  {
    if keys != [] {
      var init := keys[..|keys| - 1];
      LoadsAllMeans(store, period, init);
      assert forall i :: 0 <= i < |init| ==> init[i] == keys[i];
    }
  }

  /** Every date in `dates` holds the period, and its load is recorded in `dateRps`. */
  ghost predicate Recorded(store: Store, period: int, dates: seq<string>, dateRps: map<string, Dict<string, real>>) {
    forall d :: d in dates ==> HasPeriod(store, period, d) && d in dateRps && Load(store, d, period) == Some(dateRps[d])
  }

  /** Recording one more date that holds the period keeps the earlier records. */
  lemma RecordedSnoc(store: Store, period: int, dates: seq<string>, dateRps: map<string, Dict<string, real>>, date: string, v: Dict<string, real>)
    requires Recorded(store, period, dates, dateRps)
    requires HasPeriod(store, period, date) && Load(store, date, period) == Some(v)
    ensures Recorded(store, period, dates + [date], dateRps[date := v])
  {
    forall d | d in dates + [date]
      ensures HasPeriod(store, period, d) && d in dateRps[date := v] && Load(store, d, period) == Some(dateRps[date := v][d])
    {
      if d != date {
        assert d in dates;
      }
    }
  }

  /** One date of the loop: its loaded dictionary, and the codes seen so far with its own added when it holds the period. */
  method ReadDate(store: Store, period: int, date: string, seen: set<string>)
    returns (dateData: Option<Dict<string, real>>, stocks: set<string>)
    requires date in store
    ensures dateData == Load(store, date, period)
    ensures dateData.Some? ==>
      stocks == seen + (if HasPeriod(store, period, date) then RowCodes(store[date][RpsKey(period)]) else {})
  {
    var rpsKey := RpsKey(period);
    if rpsKey in store[date] {
      dateData, stocks := ReadDataset(store[date][rpsKey], seen);
    } else {
      dateData, stocks := Some([]), seen;
    }
  }

  /** The union of the codes of the dates of `keys` that hold the period. */
  ghost function CodesAt(store: Store, period: int, keys: seq<string>): set<string> {
    if keys == [] then {}
    else
      var d := keys[|keys| - 1];
      CodesAt(store, period, keys[..|keys| - 1]) +
      (if HasPeriod(store, period, d) then RowCodes(store[d][RpsKey(period)]) else {})
  }

  lemma CodesAtStep(store: Store, period: int, keys: seq<string>, k: nat)
    requires k < |keys|
    ensures CodesAt(store, period, keys[..k + 1]) == CodesAt(store, period, keys[..k]) +
      (if HasPeriod(store, period, keys[k]) then RowCodes(store[keys[k]][RpsKey(period)]) else {})
  {
    assert keys[..k + 1][..k] == keys[..k];
  }

  /** A code is in the union exactly when some kept date's dataset holds it. */
  lemma {:induction false} CodesAtMembers(store: Store, period: int, keys: seq<string>)
    ensures forall c :: c in CodesAt(store, period, keys) <==>
      exists d :: d in WithPeriod(store, period, keys) && HasPeriod(store, period, d) && c in RowCodes(store[d][RpsKey(period)])
  {
    if keys != [] {
      var init, last := keys[..|keys| - 1], keys[|keys| - 1];
      CodesAtMembers(store, period, init);
      var w := WithPeriod(store, period, init);
      assert WithPeriod(store, period, keys) == w + (if HasPeriod(store, period, last) then [last] else []);
      forall c ensures c in CodesAt(store, period, keys) <==>
        exists d :: d in WithPeriod(store, period, keys) && HasPeriod(store, period, d) && c in RowCodes(store[d][RpsKey(period)])
      {
        if HasPeriod(store, period, last) && c in RowCodes(store[last][RpsKey(period)]) {
          assert last in WithPeriod(store, period, keys);
        }
        if exists d :: d in WithPeriod(store, period, keys) && HasPeriod(store, period, d) && c in RowCodes(store[d][RpsKey(period)]) {
          var d :| d in WithPeriod(store, period, keys) && HasPeriod(store, period, d) && c in RowCodes(store[d][RpsKey(period)]);
          if d != last {
            assert d in w;
          }
        }
      }
    }
  }

  /** The shared body of the readers; `addDatetime` selects utils.py's extra `'datetime'` column. */
  method ReadRpsFrame(store: Store, period: int, addDatetime: bool) returns (r: Option<Frame>)
    ensures PivotOf(store, period, r)
    ensures r.Some? ==> r.value.datetime == addDatetime
  {
    var dates := SortedList(store.Keys);
    var ok, allDates, allStocks, dateRps := ReadDates(store, period, dates);
    if !ok {
      var i :| 0 <= i < |dates| && Load(store, dates[i], period).None?;
      assert HasPeriod(store, period, dates[i]);
      return None;
    }
    WithPeriodFacts(store, period, dates);
    var stockCodes := SortedList(allStocks);
    var cells := BuildCells(allDates, stockCodes, dateRps);
    r := Some(Frame(allDates, stockCodes, cells, addDatetime));
    forall d | HasPeriod(store, period, d) ensures Load(store, d, period).Some? {
      var i :| 0 <= i < |dates| && dates[i] == d;
    }
  }

  lemma WithPeriodStep(store: Store, period: int, keys: seq<string>, k: nat)
    requires k < |keys|
    ensures WithPeriod(store, period, keys[..k + 1]) ==
      WithPeriod(store, period, keys[..k]) + (if HasPeriod(store, period, keys[k]) then [keys[k]] else [])
  {
    assert keys[..k + 1][..k] == keys[..k];
  }

  /** Filtering increasing keys keeps them increasing and keeps exactly the dates holding the period. */
  lemma {:induction false} WithPeriodFacts(store: Store, period: int, keys: seq<string>)
    requires Increasing(keys)
    ensures Increasing(WithPeriod(store, period, keys))
    ensures forall d :: d in WithPeriod(store, period, keys) <==> d in keys && HasPeriod(store, period, d)
  {
    if keys != [] {
      var init, last := keys[..|keys| - 1], keys[|keys| - 1];
      assert keys == init + [last];
      assert Increasing(init) by {
        forall i, j | 0 <= i < j < |init| ensures Less(init[i], init[j]) {
          assert init[i] == keys[i] && init[j] == keys[j];
        }
      }
      WithPeriodFacts(store, period, init);
      var w := WithPeriod(store, period, init);
      if HasPeriod(store, period, last) {
        forall i, j | 0 <= i < j < |w + [last]| ensures Less((w + [last])[i], (w + [last])[j]) {
          if j == |w| {
            var x := w[i];
            assert x in init;
            var m :| 0 <= m < |init| && init[m] == x;
            assert keys[m] == x;
          }
        }
      }
    }
  }

  /** The table is determined by the store and the period: two readings agree. */
  lemma PivotUnique(store: Store, period: int, r1: Option<Frame>, r2: Option<Frame>)
    requires PivotOf(store, period, r1) && PivotOf(store, period, r2)
    requires r1.Some? && r2.Some? ==> r1.value.datetime == r2.value.datetime
    ensures r1 == r2
  {
    if r1.Some? && r2.Some? {
      var f1, f2 := r1.value, r2.value;
      IncreasingUnique(f1.dates, f2.dates);
      IncreasingUnique(f1.codes, f2.codes);
      forall i | 0 <= i < |f1.cells| ensures f1.cells[i] == f2.cells[i] {
        assert |f1.cells[i]| == |f2.cells[i]|;
        forall j | 0 <= j < |f1.cells[i]| ensures f1.cells[i][j] == f2.cells[i][j] {
        }
      }
      assert f1.cells == f2.cells;
    }
  }

  /** Within one date a code that occurs twice gets the score of its last row. */
  lemma LastDuplicateWins(rows: Rows, i: nat)
    requires DecodeRows(rows).Some? && i < |rows|
    requires forall j :: i < j < |rows| ==> rows[j].0 != rows[i].0
    ensures Get(DecodeRows(rows).value, rows[i].0) == ScoreText.Decode(rows[i].1)
  {
    var ps := ParseRows(rows).value;
    ParseAllValues(ScoreText.Decode, rows);
    FromPairsLastWins(ps, i);
  }

  /** `read_rps_file` (utils.py): the table with an added `'datetime'` column. */
  method ReadRpsFile(store: Store, period: int) returns (r: Option<Frame>)
    ensures PivotOf(store, period, r)
    ensures r.Some? ==> r.value.datetime
  {
    r := ReadRpsFrame(store, period, true);
  }

  /** `read_rps_to_dataframe` (rps.py and part.py): the `'date'` column converted in place, no extra column. */
  method ReadRpsToDataframe(store: Store, period: int) returns (r: Option<Frame>)
    ensures PivotOf(store, period, r)
    ensures r.Some? ==> !r.value.datetime
  {
    r := ReadRpsFrame(store, period, false);
  }

  /** The RPS10 indicator's fixed period. */
  const IndicatorPeriod: int := 10

  /**
   * `part`: reads the RPS10 table and picks the context stock's code, or
   * `"000001"` when the context has none.
   */
  method Part(store: Store, contextCode: string) returns (table: Option<Frame>, code: string)
    ensures PivotOf(store, IndicatorPeriod, table)
    ensures table.Some? ==> !table.value.datetime
    ensures code != ""
    ensures contextCode != "" ==> code == contextCode
    ensures contextCode == "" ==> code == "000001"
  {
    table := ReadRpsToDataframe(store, IndicatorPeriod);
    code := if contextCode != "" then contextCode else "000001";
  }
}
