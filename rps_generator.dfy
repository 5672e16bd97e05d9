/**
 * `calculate_daily_rps`: for every trading day and every period, rank the
 * seasoned stocks by trailing return, turn sorted positions into percentile
 * scores and write them to the store.
 */
module RpsGenerator {
  import opened Wrappers
  import opened OrderedDict
  import opened Ranking
  import opened RpsStore
  import ScoreText

  /** Calendar days a stock must have been listed for (`TimeDelta(days=365)`). */
  const SeasoningDays: int := 365
  /** Fewer eligible stocks, or fewer valid returns, than this skips the unit. */
  const MinStocks: int := 10

  /** How a day's group is computed from the listing map, the stocks, the day and the periods. */
  type GroupFn = (map<string, int>, seq<Stock>, Day, seq<int>) -> (Group, bool)

  /** A trading day of the benchmark calendar: its day number and its group tag `str(date.ymd)`. */
  datatype Day = Day(serial: int, tag: string)

  /**
   * What the market-data source supplies for one stock: its code, the day of its
   * first bar when that lookup succeeded, its closes, and for each day the bar
   * position (`start_pos`) that a query at that day starts from; a day missing
   * from `barIndex` is one whose query returned no bar.
   */
  datatype Stock = Stock(code: string, listing: Option<int>, closes: seq<real>, barIndex: map<int, nat>)

  /** `stock_list_date`: code to listing day, for the stocks whose lookup succeeded (a later stock overrides). */
  function ListingDates(stocks: seq<Stock>): map<string, int> {
    if stocks == [] then map[]
    else
      var m := ListingDates(stocks[..|stocks| - 1]);
      var s := stocks[|stocks| - 1];
      if s.listing.Some? then m[s.code := s.listing.value] else m
  }

  /** Listed on or before `day - 365`. */
  predicate Eligible(listing: map<string, int>, s: Stock, day: int) {
    s.code in listing && listing[s.code] <= day - SeasoningDays
  }

  /** `valid_stocks`: the eligible stocks, in universe order. */
  function EligibleStocks(stocks: seq<Stock>, listing: map<string, int>, day: int): seq<Stock> {
    if stocks == [] then []
    else
      EligibleStocks(stocks[..|stocks| - 1], listing, day) +
      (if Eligible(listing, stocks[|stocks| - 1], day) then [stocks[|stocks| - 1]] else [])
  }

  /**
   * `(current_close / past_close - 1) * 100` with the past bar `period` bars
   * before the bar at `day`; `None` when there is no bar at `day`, the past bar
   * does not exist, or `past_close <= 0`.
   */
  function TrailingReturn(s: Stock, day: int, period: int): Option<real> {
    if day !in s.barIndex || s.barIndex[day] >= |s.closes| then None
    else
      var pos := s.barIndex[day];
      var start := pos - period;
      if start < 0 || start >= |s.closes| then None
      else if s.closes[start] <= 0.0 then None
      else Some((s.closes[pos] / s.closes[start] - 1.0) * 100.0)
  }

  /** `stock_returns`: (code, return) of the stocks whose return is defined, in order. */
  function Returns(valid: seq<Stock>, day: int, period: int): seq<(string, real)> {
    if valid == [] then []
    else
      var s := valid[|valid| - 1];
      Returns(valid[..|valid| - 1], day, period) +
      (match TrailingReturn(s, day, period) case Some(r) => [(s.code, r)] case None => [])
  }

  /** Position `i` of the sorted returns gets score `(N - i) / N * 100`. */
  function RankScores(sorted: seq<(string, real)>): (r: seq<(string, real)>)
    ensures |r| == |sorted|
  {
    seq(|sorted|, i requires 0 <= i < |sorted| => (sorted[i].0, Percentile(|sorted|, i)))
  }

  /** `rps_values`: the scores of one (day, period) unit as a dictionary. */
  function RpsValues(rets: seq<(string, real)>): Dict<string, real> {
    FromPairs(RankScores(SortDesc(rets)))
  }

  /** The rows of one (day, period) unit, or `None` when it has fewer than `MinStocks` returns and is skipped. */
  function UnitRows(valid: seq<Stock>, day: int, period: int): Option<Rows> {
    var rets := Returns(valid, day, period);
    if |rets| < MinStocks then None else Some(EncodeRows(RpsValues(rets)))
  }

  /** One period of one day: skip small units, refuse an existing dataset, else add it. */
  function PeriodStep(g: Group, valid: seq<Stock>, day: int, period: int): (Group, bool) {
    StepWith(UnitRows, g, valid, day, period)
  }

  /** The day's group after the periods, and whether no dataset creation failed. */
  function FillGroup(valid: seq<Stock>, day: int, periods: seq<int>): (Group, bool) {
    FillWith(UnitRows, valid, day, periods)
  }

  /** `PeriodStep` with `unit` standing for the rows of a unit. */
  function StepWith(unit: (seq<Stock>, int, int) -> Option<Rows>, g: Group, valid: seq<Stock>, day: int, period: int): (Group, bool) {
    match unit(valid, day, period)
    case None => (g, true)
    case Some(rows) => if RpsKey(period) in g then (g, false) else (g[RpsKey(period) := rows], true)
  }

  /** `FillGroup` with `unit` standing for the rows of a unit. */
  function FillWith(unit: (seq<Stock>, int, int) -> Option<Rows>, valid: seq<Stock>, day: int, periods: seq<int>): (Group, bool) {
    if periods == [] then (map[], true)
    else
      var (g, ok) := FillWith(unit, valid, day, periods[..|periods| - 1]);
      if !ok then (g, false) else StepWith(unit, g, valid, day, periods[|periods| - 1])
  }

  /** The group written for one trading day, and whether writing it succeeded. */
  function DayGroup(listing: map<string, int>, stocks: seq<Stock>, day: Day, periods: seq<int>): (Group, bool) {
    var valid := EligibleStocks(stocks, listing, day.serial);
    if |valid| < MinStocks then (map[], true) else FillGroup(valid, day.serial, periods)
  }

  /** One trading day: refuse an existing group, else add the day's group. */
  function DayStep(st: Store, listing: map<string, int>, stocks: seq<Stock>, day: Day, periods: seq<int>): (Store, bool) {
    DayStepWith(DayGroup, st, listing, stocks, day, periods)
  }

  /** The store after the days, and whether the run finished without a creation conflict. */
  function Run(listing: map<string, int>, stocks: seq<Stock>, days: seq<Day>, periods: seq<int>): (Store, bool) {
    RunWith(DayGroup, listing, stocks, days, periods)
  }

  /** `DayStep` with `group` standing for the group of a day. */
  function DayStepWith(group: GroupFn, st: Store, listing: map<string, int>, stocks: seq<Stock>, day: Day, periods: seq<int>): (Store, bool) {
    if day.tag in st then (st, false)
    else
      var (g, ok) := group(listing, stocks, day, periods);
      (st[day.tag := g], ok)
  }

  /** `Run` with `group` standing for the group of a day. */
  function RunWith(group: GroupFn, listing: map<string, int>, stocks: seq<Stock>, days: seq<Day>, periods: seq<int>): (Store, bool) {
    if days == [] then (map[], true)
    else
      var (st, ok) := RunWith(group, listing, stocks, days[..|days| - 1], periods);
      if !ok then (st, false) else DayStepWith(group, st, listing, stocks, days[|days| - 1], periods)
  }

  /**
   * The whole of `calculate_daily_rps` as a function of its inputs. An empty
   * calendar fails before anything is written: printing its first and last
   * day raises.
   */
  function DailyRps(stocks: seq<Stock>, days: seq<Day>, periods: seq<int>): (Store, bool) {
    if days == [] then (map[], false) else Run(ListingDates(stocks), stocks, days, periods)
  }

  // ---------------------------------------------------------------------------
  // The loops of calculate_daily_rps

  method CollectListingDates(stocks: seq<Stock>) returns (listing: map<string, int>)
    ensures listing == ListingDates(stocks)
  {
    listing := map[];
    var i := 0;
    while i < |stocks|
      invariant 0 <= i <= |stocks|
      invariant listing == ListingDates(stocks[..i])
    {
      assert stocks[..i + 1][..i] == stocks[..i];
      if stocks[i].listing.Some? {
        listing := listing[stocks[i].code := stocks[i].listing.value];
      }
      i := i + 1;
    }
    assert stocks[..i] == stocks;
  }

  method CollectEligible(stocks: seq<Stock>, listing: map<string, int>, day: int) returns (valid: seq<Stock>)
    ensures valid == EligibleStocks(stocks, listing, day)
  {
    valid := [];
    var i := 0;
    while i < |stocks|
      invariant 0 <= i <= |stocks|
      invariant valid == EligibleStocks(stocks[..i], listing, day)
    {
      assert stocks[..i + 1][..i] == stocks[..i];
      if stocks[i].code in listing && listing[stocks[i].code] <= day - SeasoningDays {
        valid := valid + [stocks[i]];
      }
      i := i + 1;
    }
    assert stocks[..i] == stocks;
  }

  method CollectReturns(valid: seq<Stock>, day: int, period: int) returns (rets: seq<(string, real)>)
    ensures rets == Returns(valid, day, period)
  {
    rets := [];
    var i := 0;
    while i < |valid|
      invariant 0 <= i <= |valid|
      invariant rets == Returns(valid[..i], day, period)
    {
      assert valid[..i + 1][..i] == valid[..i];
      var s := valid[i];
      if day in s.barIndex && s.barIndex[day] < |s.closes| {
        var pos := s.barIndex[day];
        var start := pos - period;
        if 0 <= start < |s.closes| && s.closes[start] > 0.0 {
          var currentClose, pastClose := s.closes[pos], s.closes[start];
          rets := rets + [(s.code, (currentClose / pastClose - 1.0) * 100.0)];
        }
      }
      i := i + 1;
    }
    assert valid[..i] == valid;
  }

  /** `for i, (code, _) in enumerate(stock_returns): rps_values[code] = (total - i) / total * 100` */
  method AssignScores(sorted: seq<(string, real)>) returns (values: Dict<string, real>)
    ensures values == FromPairs(RankScores(sorted))
  {
    values := [];
    var total := |sorted|;
    var i := 0;
    while i < total
      invariant 0 <= i <= total
      invariant values == FromPairs(RankScores(sorted)[..i])
    {
      FromPairsSnoc(RankScores(sorted)[..i], RankScores(sorted)[i]);
      assert RankScores(sorted)[..i + 1] == RankScores(sorted)[..i] + [RankScores(sorted)[i]];
      values := Put(values, sorted[i].0, (total - i) as real / total as real * 100.0);
      i := i + 1;
    }
    assert RankScores(sorted)[..i] == RankScores(sorted);
  }

  /** `create_dataset` for the unit, then one `[code, str(rps)]` row per dictionary entry. */
  method WriteScores(f: RpsFile, tag: string, key: string, values: Dict<string, real>) returns (ok: bool)
    requires tag in f.groups
    modifies f
    ensures ok == (key !in old(f.groups)[tag])
    ensures f.groups == if ok then old(f.groups)[tag := old(f.groups)[tag][key := EncodeRows(values)]]
                        else old(f.groups)
  {
    ok := f.CreateDataset(tag, key, |values|);
    if !ok {
      return;
    }
    ghost var before := old(f.groups);
    ghost var rows := f.groups[tag][key];
    ghost var encoded := EncodeRows(values);
    var i := 0;
    while i < |values|
      invariant 0 <= i <= |values|
      invariant f.groups == before[tag := before[tag][key := rows]]
      invariant |rows| == |values| == |encoded|
      invariant forall j :: 0 <= j < i ==> rows[j] == encoded[j]
    {
      var row := (values[i].0, ScoreText.Encode(values[i].1));
      assert row == encoded[i];
      f.WriteRow(tag, key, i, row);
      NestedUpdate(before, tag, key, rows, rows[i := row]);
      rows := rows[i := row];
      i := i + 1;
    }
    assert rows == encoded;
  }

  /** Two assignments to the same dataset of a group: the second one wins. */
  lemma NestedUpdate<T, K, V>(m: map<T, map<K, V>>, t: T, k: K, x: V, y: V)
    requires t in m
    ensures m[t := m[t][k := x]][t := m[t := m[t][k := x]][t][k := y]] == m[t := m[t][k := y]]
  {
    assert m[t := m[t][k := x]][t] == m[t][k := x];
    assert m[t][k := x][k := y] == m[t][k := y];
  }

  /** One (day, period) unit, as the inner loop body of `calculate_daily_rps`. */
  method RankPeriod(f: RpsFile, valid: seq<Stock>, day: Day, period: int) returns (ok: bool)
    requires day.tag in f.groups
    modifies f
    ensures var (g, gok) := PeriodStep(old(f.groups)[day.tag], valid, day.serial, period);
      ok == gok && f.groups == old(f.groups)[day.tag := g]
  {
    var rets := CollectReturns(valid, day.serial, period);
    if |rets| < MinStocks {
      assert old(f.groups)[day.tag := old(f.groups)[day.tag]] == f.groups;
      return true;
    }
    var sorted := SortDesc(rets);
    var values := AssignScores(sorted);
    ok := WriteScores(f, day.tag, RpsKey(period), values);
  }

  /** The periods loop of one day, over a group created empty. */
  method FillDay(f: RpsFile, valid: seq<Stock>, day: Day, periods: seq<int>) returns (ok: bool)
    requires day.tag in f.groups && f.groups[day.tag] == map[]
    modifies f
    ensures var (g, gok) := FillGroup(valid, day.serial, periods);
      ok == gok && f.groups == old(f.groups)[day.tag := g]
  {
    var p := 0;
    while p < |periods|
      invariant 0 <= p <= |periods|
      invariant day.tag in f.groups
      invariant FillGroup(valid, day.serial, periods[..p]) == (f.groups[day.tag], true)
      invariant f.groups == old(f.groups)[day.tag := f.groups[day.tag]]
    {
      FillGroupStep(valid, day.serial, periods, p);
      var pok := RankPeriod(f, valid, day, periods[p]);
      if !pok {
        FillGroupFailsOn(valid, day.serial, periods, p + 1);
        return false;
      }
      p := p + 1;
    }
    assert periods[..p] == periods;
    return true;
  }

  /** One iteration of the days loop. */
  method RankDay(f: RpsFile, listing: map<string, int>, stocks: seq<Stock>, day: Day, periods: seq<int>) returns (ok: bool)
    modifies f
    ensures (f.groups, ok) == DayStep(old(f.groups), listing, stocks, day, periods)
  {
    ok := f.CreateGroup(day.tag);
    if !ok {
      return;
    }
    var valid := CollectEligible(stocks, listing, day.serial);
    assert DayGroup(listing, stocks, day, periods) ==
      if |valid| < MinStocks then (map[], true) else FillGroup(valid, day.serial, periods);
    if |valid| < MinStocks {
      assert f.groups == old(f.groups)[day.tag := map[]];
      return true;
    }
    ghost var created := f.groups;
    ok := FillDay(f, valid, day, periods);
    assert created == old(f.groups)[day.tag := map[]];
    assert f.groups == old(f.groups)[day.tag := FillGroup(valid, day.serial, periods).0];
  }

  /** `calculate_daily_rps`: a fresh store filled day by day; `ok` is false where the source raises. */
  method CalculateDailyRps(stocks: seq<Stock>, days: seq<Day>, periods: seq<int>) returns (f: RpsFile, ok: bool)
    ensures fresh(f)
    ensures (f.groups, ok) == DailyRps(stocks, days, periods)
  {
    if |days| == 0 {
      f := new RpsFile();
      return f, false;
    }
    var listing := CollectListingDates(stocks);
    f := new RpsFile();
    ok := true;
    var d := 0;
    while d < |days|
      invariant 0 <= d <= |days|
      invariant Run(listing, stocks, days[..d], periods) == (f.groups, true)
    {
      RunPrefixStep(listing, stocks, days, periods, d);
      ok := RankDay(f, listing, stocks, days[d], periods);
      if !ok {
        RunFailsOn(listing, stocks, days, periods, d + 1);
        return;
      }
      d := d + 1;
    }
    assert days[..d] == days;
  }

  lemma FillGroupStep(valid: seq<Stock>, day: int, periods: seq<int>, p: nat)
    requires p < |periods| && FillGroup(valid, day, periods[..p]).1
    ensures FillGroup(valid, day, periods[..p + 1]) == PeriodStep(FillGroup(valid, day, periods[..p]).0, valid, day, periods[p])
  {
    assert periods[..p + 1][..p] == periods[..p];
  }

  lemma RunPrefixStep(listing: map<string, int>, stocks: seq<Stock>, days: seq<Day>, periods: seq<int>, d: nat)
    requires d < |days| && Run(listing, stocks, days[..d], periods).1
    ensures Run(listing, stocks, days[..d + 1], periods) == DayStep(Run(listing, stocks, days[..d], periods).0, listing, stocks, days[d], periods)
  {
    assert days[..d + 1][..d] == days[..d];
  }

  /** A failed creation makes the whole day's fill fail. */
  lemma {:induction false} FillGroupFailsOn(valid: seq<Stock>, day: int, periods: seq<int>, k: nat)
    requires k <= |periods| && !FillGroup(valid, day, periods[..k]).1
    ensures FillGroup(valid, day, periods).0 == FillGroup(valid, day, periods[..k]).0
    ensures !FillGroup(valid, day, periods).1
    decreases |periods| - k
  {
    if k < |periods| {
      assert periods[..k + 1][..k] == periods[..k];
      FillGroupFailsOn(valid, day, periods, k + 1);
    } else {
      assert periods[..k] == periods;
    }
  }

  /** A conflict on a day stops the run with the store as it was then. */
  lemma {:induction false} RunFailsOn(listing: map<string, int>, stocks: seq<Stock>, days: seq<Day>, periods: seq<int>, k: nat)
    requires k <= |days| && !Run(listing, stocks, days[..k], periods).1
    ensures Run(listing, stocks, days, periods) == Run(listing, stocks, days[..k], periods)
    decreases |days| - k
  {
    if k < |days| {
      assert days[..k + 1][..k] == days[..k];
      RunFailsOn(listing, stocks, days, periods, k + 1);
    } else {
      assert days[..k] == days;
    }
  }

  // ---------------------------------------------------------------------------
  // Properties

  ghost predicate DistinctCodes(stocks: seq<Stock>) {
    forall i, j :: 0 <= i < j < |stocks| ==> stocks[i].code != stocks[j].code
  }

  /** With distinct codes, a stock has a listing day exactly when its lookup succeeded. */
  lemma {:induction false} ListingOfStock(stocks: seq<Stock>, i: nat)
    requires DistinctCodes(stocks) && i < |stocks|
    ensures stocks[i].code in ListingDates(stocks) <==> stocks[i].listing.Some?
    ensures stocks[i].listing.Some? ==> ListingDates(stocks)[stocks[i].code] == stocks[i].listing.value
  {
    var init := stocks[..|stocks| - 1];
    if i < |stocks| - 1 {
      assert init[i] == stocks[i];
      forall a, b | 0 <= a < b < |init| ensures init[a].code != init[b].code {
        assert init[a] == stocks[a] && init[b] == stocks[b];
      }
      ListingOfStock(init, i);
    } else {
      ListingMissing(init, stocks[i].code);
    }
  }

  lemma {:induction false} ListingMissing(stocks: seq<Stock>, code: string)
    requires forall i :: 0 <= i < |stocks| ==> stocks[i].code != code
    ensures code !in ListingDates(stocks)
  {
    if stocks != [] {
      ListingMissing(stocks[..|stocks| - 1], code);
    }
  }

  /** The eligible stocks are exactly the universe's stocks listed at least 365 days earlier. */
  lemma {:induction false} EligibleMembers(stocks: seq<Stock>, listing: map<string, int>, day: int)
    ensures |EligibleStocks(stocks, listing, day)| <= |stocks|
    ensures forall s :: s in EligibleStocks(stocks, listing, day) <==> s in stocks && Eligible(listing, s, day)
  {
    if stocks != [] {
      var init := stocks[..|stocks| - 1];
      assert stocks == init + [stocks[|stocks| - 1]];
      EligibleMembers(init, listing, day);
    }
  }

  /** The eligibility gate stated on the stocks themselves. */
  lemma EligibilityGate(stocks: seq<Stock>, day: int, i: nat)
    requires DistinctCodes(stocks) && i < |stocks|
    ensures stocks[i] in EligibleStocks(stocks, ListingDates(stocks), day) <==>
      stocks[i].listing.Some? && stocks[i].listing.value <= day - SeasoningDays
  {
    ListingOfStock(stocks, i);
    EligibleMembers(stocks, ListingDates(stocks), day);
  }

  /** A defined return is the percentage change from the past close to the current one. */
  lemma ReturnMeaning(s: Stock, day: int, period: int)
    requires TrailingReturn(s, day, period).Some?
    ensures day in s.barIndex && 0 <= s.barIndex[day] - period && s.barIndex[day] < |s.closes|
    ensures s.closes[s.barIndex[day] - period] > 0.0
    ensures s.closes[s.barIndex[day] - period] * (1.0 + TrailingReturn(s, day, period).value / 100.0) ==
      s.closes[s.barIndex[day]]
  {
  }

  /** The returns are those of the valid stocks whose return is defined; no stock is zero-filled. */
  lemma {:induction false} ReturnsMembers(valid: seq<Stock>, day: int, period: int)
    ensures |Returns(valid, day, period)| <= |valid|
    ensures forall x :: x in Returns(valid, day, period) <==>
      exists s :: s in valid && s.code == x.0 && TrailingReturn(s, day, period) == Some(x.1)
  {
    if valid != [] {
      var init := valid[..|valid| - 1];
      assert valid == init + [valid[|valid| - 1]];
      ReturnsMembers(init, day, period);
    }
  }

  /** Ranked scores: one per return, 100 at the top, 100/N at the bottom, strictly decreasing, in (0, 100]. */
  lemma ScoresFacts(rets: seq<(string, real)>)
    ensures |RankScores(SortDesc(rets))| == |rets|
    ensures forall i :: 0 <= i < |rets| ==> RankScores(SortDesc(rets))[i].0 == SortDesc(rets)[i].0
    ensures forall i :: 0 <= i < |rets| ==> 0.0 < RankScores(SortDesc(rets))[i].1 <= 100.0
    ensures |rets| > 0 ==> RankScores(SortDesc(rets))[0].1 == 100.0
    ensures |rets| > 0 ==> RankScores(SortDesc(rets))[|rets| - 1].1 == 100.0 / |rets| as real
    ensures forall i, j :: 0 <= i < j < |rets| ==> RankScores(SortDesc(rets))[i].1 > RankScores(SortDesc(rets))[j].1
  {
    SortDescPermutes(rets);
    var n := |rets|;
    forall i | 0 <= i < n ensures 0.0 < Percentile(n, i) <= 100.0 {
      PercentileBounds(n, i);
    }
    if n > 0 {
      PercentileBounds(n, 0);
      PercentileBounds(n, n - 1);
    }
    forall i, j | 0 <= i < j < n ensures Percentile(n, i) > Percentile(n, j) {
      PercentileDecreasing(n, i, j);
    }
  }

  /** With distinct codes every code gets exactly its rank's score. */
  lemma ScoresAreRanks(rets: seq<(string, real)>)
    requires DistinctKeys(rets)
    ensures RpsValues(rets) == RankScores(SortDesc(rets))
  {
    SortDescPermutes(rets);
    DistinctKeysPermutation(rets, SortDesc(rets));
    var sc := RankScores(SortDesc(rets));
    forall i, j | 0 <= i < j < |sc| ensures sc[i].0 != sc[j].0 {
      assert sc[i].0 == SortDesc(rets)[i].0 && sc[j].0 == SortDesc(rets)[j].0;
    }
    FromDistinctPairs(sc);
  }

  /** A strictly higher return gets a strictly higher score. */
  lemma HigherReturnHigherScore(rets: seq<(string, real)>, a: nat, b: nat)
    requires DistinctKeys(rets) && a < |rets| && b < |rets| && rets[a].1 > rets[b].1
    ensures Get(RpsValues(rets), rets[a].0).Some? && Get(RpsValues(rets), rets[b].0).Some?
    ensures Get(RpsValues(rets), rets[a].0).value > Get(RpsValues(rets), rets[b].0).value
  {
    var sorted := SortDesc(rets);
    SortDescPermutes(rets);
    SortDescSorted(rets);
    assert rets[a] in multiset(sorted) && rets[b] in multiset(sorted);
    var i :| 0 <= i < |sorted| && sorted[i] == rets[a];
    var j :| 0 <= j < |sorted| && sorted[j] == rets[b];
    assert i < j;
    ScoreAt(rets, i);
    ScoreAt(rets, j);
    PercentileDecreasing(|rets|, i, j);
  }

  /** The code at sorted position `i` gets the percentile of `i`. */
  lemma ScoreAt(rets: seq<(string, real)>, i: nat)
    requires DistinctKeys(rets) && i < |rets|
    ensures |SortDesc(rets)| == |rets|
    ensures Get(RpsValues(rets), SortDesc(rets)[i].0) == Some(Percentile(|rets|, i))
  {
    var sorted := SortDesc(rets);
    SortDescPermutes(rets);
    ScoresAreRanks(rets);
    var sc := RankScores(sorted);
    DistinctKeysPermutation(rets, sorted);
    forall x, y | 0 <= x < y < |sc| ensures sc[x].0 != sc[y].0 {
      assert sc[x].0 == sorted[x].0 && sc[y].0 == sorted[y].0;
    }
    GetDistinct(sc, i);
  }

  /** Equal returns keep their input order among themselves. */
  lemma TiesKeepOrder(rets: seq<(string, real)>, v: real)
    ensures WithScore(SortDesc(rets), v) == WithScore(rets, v)
  {
    SortDescStable(rets, v);
  }

  /** Enough returns for the unit. */
  predicate Ranked(valid: seq<Stock>, day: int, period: int) {
    |Returns(valid, day, period)| >= MinStocks
  }

  /** No period that would be ranked occurs twice. */
  ghost predicate NoRepeatedRanked(valid: seq<Stock>, day: int, periods: seq<int>) {
    forall i, j :: 0 <= i < j < |periods| && periods[i] == periods[j] ==> !Ranked(valid, day, periods[i])
  }

  /**
   * A day's periods fill the group with one dataset per ranked period holding
   * that unit's rows, and fail exactly when a ranked period repeats.
   */
  lemma FillGroupFacts(valid: seq<Stock>, day: int, periods: seq<int>)
    ensures FillGroup(valid, day, periods).1 <==> NoRepeatedRanked(valid, day, periods)
    ensures FillGroup(valid, day, periods).1 ==>
      forall k :: k in FillGroup(valid, day, periods).0 <==>
        exists p :: p in periods && Ranked(valid, day, p) && k == RpsKey(p)
    ensures FillGroup(valid, day, periods).1 ==>
      forall p :: p in periods && Ranked(valid, day, p) ==>
        FillGroup(valid, day, periods).0[RpsKey(p)] == EncodeRows(RpsValues(Returns(valid, day, p)))
  {
    FillWithFacts(UnitRows, valid, day, periods);
    forall p ensures UnitRows(valid, day, p).Some? <==> Ranked(valid, day, p) {}
    forall p | Ranked(valid, day, p) ensures UnitRows(valid, day, p).value == EncodeRows(RpsValues(Returns(valid, day, p))) {}
  }

  /** No period whose unit has rows occurs twice. */
  ghost predicate NoRepeatedWith(unit: (seq<Stock>, int, int) -> Option<Rows>, valid: seq<Stock>, day: int, periods: seq<int>) {
    forall i, j :: 0 <= i < j < |periods| && periods[i] == periods[j] ==> unit(valid, day, periods[i]).None?
  }

  lemma {:induction false} FillWithFacts(unit: (seq<Stock>, int, int) -> Option<Rows>, valid: seq<Stock>, day: int, periods: seq<int>)
    ensures FillWith(unit, valid, day, periods).1 <==> NoRepeatedWith(unit, valid, day, periods)
    ensures FillWith(unit, valid, day, periods).1 ==>
      forall k :: k in FillWith(unit, valid, day, periods).0 <==>
        exists p :: p in periods && unit(valid, day, p).Some? && k == RpsKey(p)
    ensures FillWith(unit, valid, day, periods).1 ==>
      forall p :: p in periods && unit(valid, day, p).Some? ==>
        FillWith(unit, valid, day, periods).0[RpsKey(p)] == unit(valid, day, p).value
  {
    if periods != [] {
      var init, q := periods[..|periods| - 1], periods[|periods| - 1];
      assert periods == init + [q];
      FillWithFacts(unit, valid, day, init);
      var (g, ok) := FillWith(unit, valid, day, init);
      if ok {
        FillStep(unit, valid, day, init, q, g);
      } else {
        assert !NoRepeatedWith(unit, valid, day, periods) by {
          var i, j :| 0 <= i < j < |init| && init[i] == init[j] && unit(valid, day, init[i]).Some?;
          assert periods[i] == init[i] && periods[j] == init[j];
        }
      }
    }
  }

  lemma FillStep(unit: (seq<Stock>, int, int) -> Option<Rows>, valid: seq<Stock>, day: int, init: seq<int>, q: int, g: Group)
    requires FillWith(unit, valid, day, init) == (g, true)
    requires NoRepeatedWith(unit, valid, day, init)
    requires forall k :: k in g <==> exists p :: p in init && unit(valid, day, p).Some? && k == RpsKey(p)
    requires forall p :: p in init && unit(valid, day, p).Some? ==> g[RpsKey(p)] == unit(valid, day, p).value
    ensures FillWith(unit, valid, day, init + [q]) == StepWith(unit, g, valid, day, q)
    ensures StepWith(unit, g, valid, day, q).1 <==> NoRepeatedWith(unit, valid, day, init + [q])
    ensures StepWith(unit, g, valid, day, q).1 ==>
      forall k :: k in StepWith(unit, g, valid, day, q).0 <==>
        exists p :: p in init + [q] && unit(valid, day, p).Some? && k == RpsKey(p)
    ensures StepWith(unit, g, valid, day, q).1 ==>
      forall p :: p in init + [q] && unit(valid, day, p).Some? ==>
        StepWith(unit, g, valid, day, q).0[RpsKey(p)] == unit(valid, day, p).value
  {
    var periods := init + [q];
    assert periods[..|periods| - 1] == init;
    KeyInGroup(unit, valid, day, init, q, g);
    RankedSnoc(unit, valid, day, init, q);
    if StepWith(unit, g, valid, day, q).1 {
      FillStepContents(unit, valid, day, init, q, g);
    }
  }

  lemma FillStepContents(unit: (seq<Stock>, int, int) -> Option<Rows>, valid: seq<Stock>, day: int, init: seq<int>, q: int, g: Group)
    requires forall k :: k in g <==> exists p :: p in init && unit(valid, day, p).Some? && k == RpsKey(p)
    requires forall p :: p in init && unit(valid, day, p).Some? ==> g[RpsKey(p)] == unit(valid, day, p).value
    requires StepWith(unit, g, valid, day, q).1
    ensures forall k :: k in StepWith(unit, g, valid, day, q).0 <==>
      exists p :: p in init + [q] && unit(valid, day, p).Some? && k == RpsKey(p)
    ensures forall p :: p in init + [q] && unit(valid, day, p).Some? ==>
      StepWith(unit, g, valid, day, q).0[RpsKey(p)] == unit(valid, day, p).value
  {
    KeyInGroup(unit, valid, day, init, q, g);
    if unit(valid, day, q).Some? {
      var key := RpsKey(q);
      var g' := g[key := unit(valid, day, q).value];
      assert StepWith(unit, g, valid, day, q) == (g', true);
      forall p | p in init && unit(valid, day, p).Some? ensures g'[RpsKey(p)] == g[RpsKey(p)] {
        if RpsKey(p) == key { RpsKeyInjective(p, q); }
      }
    } else {
      assert StepWith(unit, g, valid, day, q) == (g, true);
    }
  }

  /** The dataset name of `q` is taken exactly when `q` was already ranked. */
  lemma KeyInGroup(unit: (seq<Stock>, int, int) -> Option<Rows>, valid: seq<Stock>, day: int, init: seq<int>, q: int, g: Group)
    requires forall k :: k in g <==> exists p :: p in init && unit(valid, day, p).Some? && k == RpsKey(p)
    ensures RpsKey(q) in g <==> q in init && unit(valid, day, q).Some?
  {
    if RpsKey(q) in g {
      var p :| p in init && unit(valid, day, p).Some? && RpsKey(q) == RpsKey(p);
      RpsKeyInjective(p, q);
    }
  }

  /** One more period keeps ranked periods unrepeated unless it is ranked and already present. */
  lemma RankedSnoc(unit: (seq<Stock>, int, int) -> Option<Rows>, valid: seq<Stock>, day: int, init: seq<int>, q: int)
    requires NoRepeatedWith(unit, valid, day, init)
    ensures NoRepeatedWith(unit, valid, day, init + [q]) <==> !(unit(valid, day, q).Some? && q in init)
  {
    var periods := init + [q];
    if unit(valid, day, q).Some? && q in init {
      var i :| 0 <= i < |init| && init[i] == q;
      assert periods[i] == q && periods[|init|] == q;
    } else {
      forall i, j | 0 <= i < j < |periods| && periods[i] == periods[j] ensures unit(valid, day, periods[i]).None? {
        assert periods[i] == init[i];
        if j < |init| {
          assert init[j] == periods[j];
        } else {
          assert periods[j] == q;
        }
      }
    }
  }

  /** A day with fewer than ten eligible stocks gets an empty group. */
  lemma SmallUniverseEmptyGroup(listing: map<string, int>, stocks: seq<Stock>, day: Day, periods: seq<int>)
    requires |EligibleStocks(stocks, listing, day.serial)| < MinStocks
    ensures DayGroup(listing, stocks, day, periods) == (map[], true)
  {
  }

  ghost predicate DistinctTags(days: seq<Day>) {
    forall i, j :: 0 <= i < j < |days| ==> days[i].tag != days[j].tag
  }

  /**
   * A run succeeds exactly when the calendar is not empty, the day tags are
   * distinct and every day's group is written; then the store holds one group
   * per day, as that day computes it.
   */
  lemma RunFacts(stocks: seq<Stock>, days: seq<Day>, periods: seq<int>)
    ensures var listing := ListingDates(stocks);
      DailyRps(stocks, days, periods).1 <==>
        |days| > 0 && DistinctTags(days) && forall k :: 0 <= k < |days| ==> DayGroup(listing, stocks, days[k], periods).1
    ensures DailyRps(stocks, days, periods).1 ==>
      forall t :: t in DailyRps(stocks, days, periods).0 <==> exists k :: 0 <= k < |days| && days[k].tag == t
    ensures var listing := ListingDates(stocks);
      DailyRps(stocks, days, periods).1 ==>
        forall k :: 0 <= k < |days| ==>
          DailyRps(stocks, days, periods).0[days[k].tag] == DayGroup(listing, stocks, days[k], periods).0
  {
    RunWithFacts(DayGroup, ListingDates(stocks), stocks, days, periods);
  }

  lemma {:induction false} RunWithFacts(group: GroupFn, listing: map<string, int>, stocks: seq<Stock>, days: seq<Day>, periods: seq<int>)
    ensures RunWith(group, listing, stocks, days, periods).1 <==>
      DistinctTags(days) && forall k :: 0 <= k < |days| ==> group(listing, stocks, days[k], periods).1
    ensures RunWith(group, listing, stocks, days, periods).1 ==>
      forall t :: t in RunWith(group, listing, stocks, days, periods).0 <==> exists k :: 0 <= k < |days| && days[k].tag == t
    ensures RunWith(group, listing, stocks, days, periods).1 ==>
      forall k :: 0 <= k < |days| ==>
        days[k].tag in RunWith(group, listing, stocks, days, periods).0 &&
        RunWith(group, listing, stocks, days, periods).0[days[k].tag] == group(listing, stocks, days[k], periods).0
  {
    if days != [] {
      var init, day := days[..|days| - 1], days[|days| - 1];
      assert days == init + [day];
      RunWithFacts(group, listing, stocks, init, periods);
      var (st, ok) := RunWith(group, listing, stocks, init, periods);
      if ok {
        RunStep(group, listing, stocks, init, day, periods, st);
      } else {
        assert !(DistinctTags(days) && forall k :: 0 <= k < |days| ==> group(listing, stocks, days[k], periods).1) by {
          if DistinctTags(days) {
            forall i, j | 0 <= i < j < |init| ensures init[i].tag != init[j].tag {
              assert init[i] == days[i] && init[j] == days[j];
            }
            var k :| 0 <= k < |init| && !group(listing, stocks, init[k], periods).1;
            assert days[k] == init[k];
          }
        }
      }
    }
  }

  lemma RunStep(group: GroupFn, listing: map<string, int>, stocks: seq<Stock>, init: seq<Day>, day: Day, periods: seq<int>, st: Store)
    requires RunWith(group, listing, stocks, init, periods) == (st, true)
    requires DistinctTags(init) && forall k :: 0 <= k < |init| ==> group(listing, stocks, init[k], periods).1
    requires forall t :: t in st <==> exists k :: 0 <= k < |init| && init[k].tag == t
    requires forall k :: 0 <= k < |init| ==> init[k].tag in st && st[init[k].tag] == group(listing, stocks, init[k], periods).0
    ensures RunWith(group, listing, stocks, init + [day], periods) == DayStepWith(group, st, listing, stocks, day, periods)
    ensures DayStepWith(group, st, listing, stocks, day, periods).1 <==>
      DistinctTags(init + [day]) && forall k :: 0 <= k < |init + [day]| ==> group(listing, stocks, (init + [day])[k], periods).1
    ensures DayStepWith(group, st, listing, stocks, day, periods).1 ==>
      forall t :: t in DayStepWith(group, st, listing, stocks, day, periods).0 <==>
        exists k :: 0 <= k < |init + [day]| && (init + [day])[k].tag == t
    ensures DayStepWith(group, st, listing, stocks, day, periods).1 ==>
      forall k :: 0 <= k < |init + [day]| ==>
        (init + [day])[k].tag in DayStepWith(group, st, listing, stocks, day, periods).0 &&
        DayStepWith(group, st, listing, stocks, day, periods).0[(init + [day])[k].tag] == group(listing, stocks, (init + [day])[k], periods).0
  {
    var days := init + [day];
    assert days[..|days| - 1] == init;
    TagsSnoc(init, day, st);
    if day.tag in st {
      assert DayStepWith(group, st, listing, stocks, day, periods) == (st, false);
    } else {
      var (g, gok) := group(listing, stocks, day, periods);
      assert DayStepWith(group, st, listing, stocks, day, periods) == (st[day.tag := g], gok);
      StepAdds(group, listing, stocks, init, day, periods, st);
    }
  }

  /** Adding a day with a new tag: the days all write exactly when the new one does, and each day's tag holds its group. */
  lemma StepAdds(group: GroupFn, listing: map<string, int>, stocks: seq<Stock>, init: seq<Day>, day: Day, periods: seq<int>, st: Store)
    requires day.tag !in st
    requires forall k :: 0 <= k < |init| ==> group(listing, stocks, init[k], periods).1
    requires forall k :: 0 <= k < |init| ==> init[k].tag in st && st[init[k].tag] == group(listing, stocks, init[k], periods).0
    ensures var days := init + [day];
      (forall k :: 0 <= k < |days| ==> group(listing, stocks, days[k], periods).1) <==> group(listing, stocks, day, periods).1
    ensures var days, st' := init + [day], st[day.tag := group(listing, stocks, day, periods).0];
      forall k :: 0 <= k < |days| ==> days[k].tag in st' && st'[days[k].tag] == group(listing, stocks, days[k], periods).0
  {
    var days := init + [day];
    var st' := st[day.tag := group(listing, stocks, day, periods).0];
    forall k | 0 <= k < |init| ensures days[k] == init[k] {}
    assert days[|init|] == day;
    forall k | 0 <= k < |days| ensures days[k].tag in st' && st'[days[k].tag] == group(listing, stocks, days[k], periods).0 {
      if k < |init| {
        assert days[k] == init[k] && init[k].tag in st;
      }
    }
  }

  /** One more day: its tag keeps the tags distinct exactly when it is new, and is added to them. */
  lemma TagsSnoc(init: seq<Day>, day: Day, st: Store)
    requires DistinctTags(init)
    requires forall t :: t in st <==> exists k :: 0 <= k < |init| && init[k].tag == t
    ensures DistinctTags(init + [day]) <==> day.tag !in st
    ensures forall t :: (t in st || t == day.tag) <==> exists k :: 0 <= k < |init + [day]| && (init + [day])[k].tag == t
  {
    var days := init + [day];
    forall k | 0 <= k < |init| ensures days[k] == init[k] {}
    assert days[|init|] == day;
    if day.tag in st {
      var k :| 0 <= k < |init| && init[k].tag == day.tag;
      assert days[k].tag == days[|init|].tag;
    } else {
      forall i, j | 0 <= i < j < |days| ensures days[i].tag != days[j].tag {
        if j == |init| {
          assert init[i].tag in st;
        }
      }
    }
    forall t | exists k :: 0 <= k < |days| && days[k].tag == t ensures t in st || t == day.tag {
      var k :| 0 <= k < |days| && days[k].tag == t;
      if k < |init| { assert init[k].tag == t; }
    }
  }

  /**
   * Reading a unit back after a successful run: the truncated scores of the
   * unit when its day had enough eligible stocks and the period was ranked,
   * otherwise an empty dictionary.
   */
  lemma RunThenLoad(stocks: seq<Stock>, days: seq<Day>, periods: seq<int>, k: nat, p: int)
    requires DailyRps(stocks, days, periods).1 && k < |days|
    ensures var valid := EligibleStocks(stocks, ListingDates(stocks), days[k].serial);
      var values := RpsValues(Returns(valid, days[k].serial, p));
      Load(DailyRps(stocks, days, periods).0, days[k].tag, p) ==
        if |valid| >= MinStocks && p in periods && Ranked(valid, days[k].serial, p)
        then Some(seq(|values|, i requires 0 <= i < |values| => (values[i].0, ScoreText.Truncated(values[i].1))))
        else Some([])
  {
    var listing := ListingDates(stocks);
    var st := DailyRps(stocks, days, periods).0;
    var day := days[k];
    var valid := EligibleStocks(stocks, listing, day.serial);
    RunFacts(stocks, days, periods);
    assert st[day.tag] == DayGroup(listing, stocks, day, periods).0;
    if |valid| >= MinStocks {
      FillGroupFacts(valid, day.serial, periods);
      var rets := Returns(valid, day.serial, p);
      if p in periods && Ranked(valid, day.serial, p) {
        FromPairsKeys(RankScores(SortDesc(rets)));
        LoadWritten(st, day.tag, p, RpsValues(rets));
      } else {
        if RpsKey(p) in st[day.tag] {
          var q :| q in periods && Ranked(valid, day.serial, q) && RpsKey(p) == RpsKey(q);
          RpsKeyInjective(p, q);
        }
        LoadMissing(st, day.tag, p);
      }
    } else {
      LoadMissing(st, day.tag, p);
    }
  }
}
