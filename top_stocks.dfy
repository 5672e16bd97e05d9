/**
 * `get_top_rps_stocks`: read one day's datasets for several periods, keep the
 * codes scored in every period, combine their scores (plain or `1/period`
 * weighted) and return the best `top_n`.
 */
module TopStocks {
  import opened Wrappers
  import opened OrderedDict
  import opened Ranking
  import opened RpsStore

  /** `all_rps_data[code]`: period to score; the key `'RPS{p}'` is represented by `p`. */
  type PeriodScores = Dict<int, real>

  /** The per-period scores gathered for `code` so far (`{}` before its first one). */
  function Inner(all: Dict<string, PeriodScores>, code: string): PeriodScores {
    Get(all, code).GetOr([])
  }

  /** The inner loop: `all_rps_data[code][f'RPS{period}'] = rps` for every loaded pair. */
  function Merge(all: Dict<string, PeriodScores>, period: int, d: Dict<string, real>): Dict<string, PeriodScores> {
    if d == [] then all
    else
      var m := Merge(all, period, d[..|d| - 1]);
      var code := d[|d| - 1].0;
      Put(m, code, Put(Inner(m, code), period, d[|d| - 1].1))
  }

  /** `all_rps_data` after loading every period; `None` where a load raises. */
  function Gather(store: Store, date: string, periods: seq<int>): Option<Dict<string, PeriodScores>> {
    if periods == [] then Some([])
    else
      match Gather(store, date, periods[..|periods| - 1])
      case None => None
      case Some(all) =>
        match Load(store, date, periods[|periods| - 1])
        case None => None
        case Some(d) => Some(Merge(all, periods[|periods| - 1], d))
  }

  /** `(total, weight_sum)` of the weighted loop; `None` where `1 / period` or the lookup raises. */
  function WeightedSums(vals: PeriodScores, periods: seq<int>): Option<(real, real)> {
    if periods == [] then Some((0.0, 0.0))
    else
      var p := periods[|periods| - 1];
      match WeightedSums(vals, periods[..|periods| - 1])
      case None => None
      case Some(tw) =>
        if p == 0 then None
        else
          match Get(vals, p)
          case None => None
          case Some(s) => Some(AddWeighted(tw, s, p))
  }

  /** `total += rps * weight; weight_sum += weight` with `weight = 1 / period`. */
  function AddWeighted(tw: (real, real), s: real, period: int): (real, real)
    requires period != 0
  {
    (tw.0 + s * (1.0 / (period as real)), tw.1 + 1.0 / (period as real))
  }

  /** `sum(rps_values.values())` */
  function SumValues(vals: PeriodScores): real {
    if vals == [] then 0.0 else SumValues(vals[..|vals| - 1]) + vals[|vals| - 1].1
  }

  /** The composite score of one code; `None` where the source divides by zero. */
  function Composite(vals: PeriodScores, periods: seq<int>, weighted: bool): Option<real> {
    if weighted then
      match WeightedSums(vals, periods)
      case None => None
      case Some(tw) => if tw.1 == 0.0 then None else Some(tw.0 / tw.1)
    else Some(SumValues(vals))
  }

  /** `rps_sum`: the codes holding as many scores as there are periods, with their composite. */
  function Candidates(all: Dict<string, PeriodScores>, periods: seq<int>, weighted: bool): Option<seq<(string, real)>> {
    if all == [] then Some([])
    else
      var e := all[|all| - 1];
      match Candidates(all[..|all| - 1], periods, weighted)
      case None => None
      case Some(c) =>
        if |e.1| == |periods| then
          match Composite(e.1, periods, weighted)
          case None => None
          case Some(v) => Some(c + [(e.0, v)])
        else Some(c)
  }

  function TopCandidates(store: Store, date: string, periods: seq<int>, weighted: bool): Option<seq<(string, real)>> {
    match Gather(store, date, periods)
    case None => None
    case Some(all) => Candidates(all, periods, weighted)
  }

  /** `get_top_rps_stocks` as a function of the store. */
  function TopRps(store: Store, date: string, periods: seq<int>, topN: int, weighted: bool): Option<seq<(string, real)>> {
    match TopCandidates(store, date, periods, weighted)
    case None => None
    case Some(c) => Some(Take(SortDesc(c), topN))
  }

  // ---------------------------------------------------------------------------
  // The loops of get_top_rps_stocks

  method MergeLoaded(all: Dict<string, PeriodScores>, period: int, d: Dict<string, real>) returns (r: Dict<string, PeriodScores>)
    ensures r == Merge(all, period, d)
  {
    r := all;
    var i := 0;
    while i < |d|
      invariant 0 <= i <= |d|
      invariant r == Merge(all, period, d[..i])
    {
      assert d[..i + 1][..i] == d[..i];
      var (code, rps) := d[i];
      var inner := Get(r, code).GetOr([]);
      r := Put(r, code, Put(inner, period, rps));
      i := i + 1;
    }
    assert d[..i] == d;
  }

  method WeightedScore(vals: PeriodScores, periods: seq<int>) returns (r: Option<real>)
    ensures r == Composite(vals, periods, true)
  {
    var total, weightSum := 0.0, 0.0;
    var i := 0;
    while i < |periods|
      invariant 0 <= i <= |periods|
      invariant WeightedSums(vals, periods[..i]) == Some((total, weightSum))
    {
      var period := periods[i];
      WeightedStep(vals, periods, i);
      if period == 0 {
        WeightedSumsFailOn(vals, periods, i + 1);
        return None;
      }
      var s := Get(vals, period);
      if s.None? {
        WeightedSumsFailOn(vals, periods, i + 1);
        return None;
      }
      var next := AddWeighted((total, weightSum), s.value, period);
      total, weightSum := next.0, next.1;
      i := i + 1;
    }
    assert periods[..i] == periods;
    CompositeOfSums(vals, periods, total, weightSum);
    if weightSum == 0.0 {
      return None;
    }
    r := Some(total / weightSum);
  }

  lemma CompositeOfSums(vals: PeriodScores, periods: seq<int>, total: real, weightSum: real)
    requires WeightedSums(vals, periods) == Some((total, weightSum))
    ensures Composite(vals, periods, true) == if weightSum == 0.0 then None else Some(total / weightSum)
  {
  }

  lemma WeightedStep(vals: PeriodScores, periods: seq<int>, i: nat)
    requires i < |periods|
    ensures WeightedSums(vals, periods[..i + 1]) ==
      match WeightedSums(vals, periods[..i])
      case None => None
      case Some(tw) =>
        if periods[i] == 0 then None
        else
          match Get(vals, periods[i])
          case None => None
          case Some(s) => Some(AddWeighted(tw, s, periods[i]))
  {
    assert periods[..i + 1][..i] == periods[..i];
  }

  lemma {:induction false} WeightedSumsFailOn(vals: PeriodScores, periods: seq<int>, k: nat)
    requires k <= |periods| && WeightedSums(vals, periods[..k]).None?
    ensures WeightedSums(vals, periods).None?
    decreases |periods| - k
  {
    if k < |periods| {
      assert periods[..k + 1][..k] == periods[..k];
      WeightedSumsFailOn(vals, periods, k + 1);
    } else {
      assert periods[..k] == periods;
    }
  }

  method CollectCandidates(all: Dict<string, PeriodScores>, periods: seq<int>, weighted: bool) returns (r: Option<seq<(string, real)>>)
    ensures r == Candidates(all, periods, weighted)
  {
    var rpsSum: seq<(string, real)> := [];
    var i := 0;
    while i < |all|
      invariant 0 <= i <= |all|
      invariant Candidates(all[..i], periods, weighted) == Some(rpsSum)
    {
      assert all[..i + 1][..i] == all[..i];
      var (code, vals) := all[i];
      if |vals| == |periods| {
        var v: Option<real>;
        if weighted {
          v := WeightedScore(vals, periods);
        } else {
          v := Some(SumValues(vals));
        }
        if v.None? {
          CandidatesFailOn(all, periods, weighted, i + 1);
          return None;
        }
        rpsSum := rpsSum + [(code, v.value)];
      }
      i := i + 1;
    }
    assert all[..i] == all;
    r := Some(rpsSum);
  }

  lemma {:induction false} CandidatesFailOn(all: Dict<string, PeriodScores>, periods: seq<int>, weighted: bool, k: nat)
    requires k <= |all| && Candidates(all[..k], periods, weighted).None?
    ensures Candidates(all, periods, weighted).None?
    decreases |all| - k
  {
    if k < |all| {
      assert all[..k + 1][..k] == all[..k];
      CandidatesFailOn(all, periods, weighted, k + 1);
    } else {
      assert all[..k] == all;
    }
  }

  /** `get_top_rps_stocks`; `None` where the source raises. */
  method GetTopRpsStocks(store: Store, date: string, periods: seq<int>, topN: int, weighted: bool)
    returns (r: Option<seq<(string, real)>>)
    ensures r == TopRps(store, date, periods, topN, weighted)
    ensures r.Some? ==> NonIncreasing(r.value) && (topN >= 0 ==> |r.value| <= topN)
  {
    var all: Dict<string, PeriodScores> := [];
    var i := 0;
    while i < |periods|
      invariant 0 <= i <= |periods|
      invariant Gather(store, date, periods[..i]) == Some(all)
    {
      assert periods[..i + 1][..i] == periods[..i];
      var rpsDict := LoadRpsData(store, date, periods[i]);
      if rpsDict.None? {
        GatherFailsOn(store, date, periods, i + 1);
        return None;
      }
      all := MergeLoaded(all, periods[i], rpsDict.value);
      i := i + 1;
    }
    assert periods[..i] == periods;
    var rpsSum := CollectCandidates(all, periods, weighted);
    if rpsSum.None? {
      return None;
    }
    var sorted := SortDesc(rpsSum.value);
    SortDescSorted(rpsSum.value);
    r := Some(Take(sorted, topN));
    forall a, b | 0 <= a < b < |r.value| ensures r.value[a].1 >= r.value[b].1 {
      assert r.value[a] == sorted[a] && r.value[b] == sorted[b];
    }
  }

  lemma {:induction false} GatherFailsOn(store: Store, date: string, periods: seq<int>, k: nat)
    requires k <= |periods| && Gather(store, date, periods[..k]).None?
    ensures Gather(store, date, periods).None?
    decreases |periods| - k
  {
    if k < |periods| {
      assert periods[..k + 1][..k] == periods[..k];
      GatherFailsOn(store, date, periods, k + 1);
    } else {
      assert periods[..k] == periods;
    }
  }

  // ---------------------------------------------------------------------------
  // Properties

  /** The `(period, score)` pairs of `code`, one per loaded period whose dictionary holds it. */
  function Hits(store: Store, date: string, periods: seq<int>, code: string): seq<(int, real)> {
    if periods == [] then []
    else
      var p := periods[|periods| - 1];
      Hits(store, date, periods[..|periods| - 1], code) +
      match Load(store, date, p)
      case None => []
      case Some(d) => (match Get(d, code) case Some(v) => [(p, v)] case None => [])
  }

  /** Every period loads and its dictionary holds `code`. */
  ghost predicate ScoredInAll(store: Store, date: string, periods: seq<int>, code: string) {
    forall p :: p in periods ==> Load(store, date, p).Some? && Get(Load(store, date, p).value, code).Some?
  }

  ghost predicate NoRepeats(periods: seq<int>) {
    forall i, j :: 0 <= i < j < |periods| ==> periods[i] != periods[j]
  }

  /** Merging one loaded dictionary records each of its codes' scores under the period. */
  lemma {:induction false} MergeFacts(all: Dict<string, PeriodScores>, period: int, d: Dict<string, real>)
    requires DistinctKeys(d)
    ensures forall c :: Get(Merge(all, period, d), c).Some? <==> Get(all, c).Some? || Get(d, c).Some?
    ensures forall c ::
      Inner(Merge(all, period, d), c) == (if Get(d, c).Some? then Put(Inner(all, c), period, Get(d, c).value) else Inner(all, c))
    ensures DistinctKeys(all) ==> DistinctKeys(Merge(all, period, d))
  {
    if d != [] {
      var init, e := d[..|d| - 1], d[|d| - 1];
      assert d == init + [e];
      forall i, j | 0 <= i < j < |init| ensures init[i].0 != init[j].0 {
        assert init[i] == d[i] && init[j] == d[j];
      }
      MergeFacts(all, period, init);
      var m := Merge(all, period, init);
      PutFacts(m, e.0, Put(Inner(m, e.0), period, e.1));
      forall c ensures Get(d, c) == if Get(init, c).Some? then Get(init, c) else if e.0 == c then Some(e.1) else None {
        GetSnoc(init, e, c);
      }
      forall i | 0 <= i < |init| ensures init[i].0 != e.0 {
        assert init[i] == d[i];
      }
      GetSomeIff(init, e.0);
    }
  }

  /**
   * `all_rps_data` exists when every period loads; it holds each code once, and
   * a code's inner dictionary is built from its hits in period order.
   */
  lemma {:induction false} GatherFacts(store: Store, date: string, periods: seq<int>)
    ensures Gather(store, date, periods).Some? <==> forall p :: p in periods ==> Load(store, date, p).Some?
    ensures Gather(store, date, periods).Some? ==> DistinctKeys(Gather(store, date, periods).value)
    ensures Gather(store, date, periods).Some? ==>
      forall c :: Inner(Gather(store, date, periods).value, c) == FromPairs(Hits(store, date, periods, c))
    ensures Gather(store, date, periods).Some? ==>
      forall c :: Get(Gather(store, date, periods).value, c).Some? <==> |Hits(store, date, periods, c)| > 0
  {
    if periods != [] {
      var init, p := periods[..|periods| - 1], periods[|periods| - 1];
      assert periods == init + [p];
      GatherFacts(store, date, init);
      if Gather(store, date, init).Some? && Load(store, date, p).Some? {
        var all, d := Gather(store, date, init).value, Load(store, date, p).value;
        LoadDistinct(store, date, p);
        MergeFacts(all, p, d);
        forall c ensures Inner(Merge(all, p, d), c) == FromPairs(Hits(store, date, periods, c)) {
          if Get(d, c).Some? {
            FromPairsSnoc(Hits(store, date, init, c), (p, Get(d, c).value));
          } else {
            assert Hits(store, date, periods, c) == Hits(store, date, init, c);
          }
        }
        if DistinctKeys(all) {
        }
      }
    }
  }

  /** A code has one hit per period exactly when every period's dictionary holds it. */
  lemma {:induction false} HitsFacts(store: Store, date: string, periods: seq<int>, code: string)
    requires forall p :: p in periods ==> Load(store, date, p).Some?
    ensures |Hits(store, date, periods, code)| <= |periods|
    ensures |Hits(store, date, periods, code)| == |periods| <==> ScoredInAll(store, date, periods, code)
    ensures |Hits(store, date, periods, code)| == |periods| ==> forall i :: 0 <= i < |periods| ==>
      Hits(store, date, periods, code)[i] == (periods[i], Get(Load(store, date, periods[i]).value, code).value)
  {
    if periods != [] {
      var init, p := periods[..|periods| - 1], periods[|periods| - 1];
      assert periods == init + [p];
      HitsFacts(store, date, init, code);
      if |Hits(store, date, periods, code)| == |periods| {
        assert |Hits(store, date, init, code)| == |init|;
        assert Get(Load(store, date, p).value, code).Some?;
        forall q | q in periods ensures Load(store, date, q).Some? && Get(Load(store, date, q).value, code).Some? {
          if q != p {
            assert q in init;
          }
        }
      }
      if ScoredInAll(store, date, periods, code) {
        assert ScoredInAll(store, date, init, code);
      }
    }
  }

  /**
   * Strict intersection: a code's inner dictionary has one entry per period
   * exactly when the periods are distinct and every period's dictionary holds it.
   */
  lemma StrictIntersection(store: Store, date: string, periods: seq<int>, code: string)
    requires Gather(store, date, periods).Some?
    ensures (Get(Gather(store, date, periods).value, code).Some? &&
             |Inner(Gather(store, date, periods).value, code)| == |periods|) <==>
      |periods| > 0 && NoRepeats(periods) && ScoredInAll(store, date, periods, code)
  {
    GatherFacts(store, date, periods);
    HitsFacts(store, date, periods, code);
    var h := Hits(store, date, periods, code);
    FromPairsKeys(h);
    FromPairsLength(h);
    if |h| == |periods| {
      assert DistinctKeys(h) <==> NoRepeats(periods) by {
        assert forall i :: 0 <= i < |h| ==> h[i].0 == periods[i];
      }
    }
  }

  /** `rps_sum` holds the codes with a full inner dictionary, each with its composite score. */
  lemma {:induction false} CandidatesFacts(all: Dict<string, PeriodScores>, periods: seq<int>, weighted: bool)
    ensures Candidates(all, periods, weighted).Some? <==>
      forall i :: 0 <= i < |all| && |all[i].1| == |periods| ==> Composite(all[i].1, periods, weighted).Some?
    ensures Candidates(all, periods, weighted).Some? ==>
      forall x :: x in Candidates(all, periods, weighted).value <==>
        exists i :: 0 <= i < |all| && all[i].0 == x.0 && |all[i].1| == |periods| && Composite(all[i].1, periods, weighted) == Some(x.1)
  {
    if all != [] {
      var init := all[..|all| - 1];
      assert all == init + [all[|all| - 1]];
      CandidatesFacts(init, periods, weighted);
    }
  }

  /**
   * A code is selected exactly when the periods are distinct and every period's
   * dictionary holds it; its score is the composite of its per-period scores.
   */
  lemma Selected(store: Store, date: string, periods: seq<int>, weighted: bool, code: string)
    requires TopCandidates(store, date, periods, weighted).Some?
    ensures (exists v :: (code, v) in TopCandidates(store, date, periods, weighted).value) <==>
      |periods| > 0 && NoRepeats(periods) && ScoredInAll(store, date, periods, code)
    ensures forall v :: (code, v) in TopCandidates(store, date, periods, weighted).value ==>
      Composite(Hits(store, date, periods, code), periods, weighted) == Some(v)
  {
    var all := Gather(store, date, periods).value;
    GatherFacts(store, date, periods);
    CandidateOfCode(all, periods, weighted, code);
    StrictIntersection(store, date, periods, code);
    var h := Hits(store, date, periods, code);
    if |periods| > 0 && NoRepeats(periods) && ScoredInAll(store, date, periods, code) {
      HitsFacts(store, date, periods, code);
      assert DistinctKeys(h) by {
        assert forall i :: 0 <= i < |h| ==> h[i].0 == periods[i];
      }
      FromDistinctPairs(h);
      assert Inner(all, code) == h;
    }
  }

  /** With distinct codes, a code's candidate entry is its full inner dictionary's composite. */
  lemma CandidateOfCode(all: Dict<string, PeriodScores>, periods: seq<int>, weighted: bool, code: string)
    requires DistinctKeys(all) && Candidates(all, periods, weighted).Some?
    ensures Get(all, code).Some? && |Inner(all, code)| == |periods| ==> Composite(Inner(all, code), periods, weighted).Some?
    ensures forall v :: (code, v) in Candidates(all, periods, weighted).value <==>
      Get(all, code).Some? && |Inner(all, code)| == |periods| && Composite(Inner(all, code), periods, weighted) == Some(v)
  {
    CandidatesFacts(all, periods, weighted);
    GetSomeIff(all, code);
    forall i | 0 <= i < |all| && all[i].0 == code ensures all[i].1 == Inner(all, code) {
      GetDistinct(all, i);
    }
    if Get(all, code).Some? {
      var i := IndexOf(all, code);
      assert all[i].0 == code;
    }
  }

  lemma MulMono(a: real, b: real, c: real)
    requires a <= b && c > 0.0
    ensures a * c <= b * c
  {
  }

  /** `total` lies between `lo` and `hi` times `weight_sum`. */
  predicate Bracketed(tw: (real, real), lo: real, hi: real) {
    tw.1 >= 0.0 && lo * tw.1 <= tw.0 <= hi * tw.1
  }

  lemma {:induction false} WeightedSumsBounds(vals: PeriodScores, periods: seq<int>, lo: real, hi: real)
    requires forall i :: 0 <= i < |periods| ==> periods[i] > 0
    requires forall i :: 0 <= i < |periods| ==> Get(vals, periods[i]).Some? && lo <= Get(vals, periods[i]).value <= hi
    ensures WeightedSums(vals, periods).Some?
    ensures Bracketed(WeightedSums(vals, periods).value, lo, hi)
    ensures |periods| > 0 ==> WeightedSums(vals, periods).value.1 > 0.0
  {
    if periods != [] {
      var init, p := periods[..|periods| - 1], periods[|periods| - 1];
      assert periods == init + [p];
      WeightedSumsBounds(vals, init, lo, hi);
      var tw, sp := WeightedSums(vals, init).value, Get(vals, p).value;
      var next := AddWeighted(tw, sp, p);
      assert WeightedSums(vals, periods) == Some(next);
      BoundsStep(tw, sp, p, lo, hi);
    } else {
      BoundsStart(lo, hi);
    }
  }

  lemma BoundsStart(lo: real, hi: real)
    ensures Bracketed((0.0, 0.0), lo, hi)
  {
    assert lo * 0.0 == 0.0 && hi * 0.0 == 0.0;
  }

  lemma BoundsStep(tw: (real, real), s: real, p: int, lo: real, hi: real)
    requires p > 0 && lo <= s <= hi && Bracketed(tw, lo, hi)
    ensures Bracketed(AddWeighted(tw, s, p), lo, hi) && AddWeighted(tw, s, p).1 > 0.0
  {
    var w := 1.0 / (p as real);
    assert w > 0.0;
    MulMono(lo, s, w);
    MulMono(s, hi, w);
    var next := AddWeighted(tw, s, p);
    assert next.0 == tw.0 + s * w && next.1 == tw.1 + w;
    assert lo * next.1 == lo * tw.1 + lo * w;
    assert hi * next.1 == hi * tw.1 + hi * w;
  }

  /** The weighted composite lies between the code's smallest and largest per-period score. */
  lemma WeightedBetween(vals: PeriodScores, periods: seq<int>, lo: real, hi: real)
    requires |periods| > 0 && forall i :: 0 <= i < |periods| ==> periods[i] > 0
    requires forall i :: 0 <= i < |periods| ==> Get(vals, periods[i]).Some? && lo <= Get(vals, periods[i]).value <= hi
    ensures Composite(vals, periods, true).Some?
    ensures lo <= Composite(vals, periods, true).value <= hi
  {
    WeightedSumsBounds(vals, periods, lo, hi);
    var tw := WeightedSums(vals, periods).value;
    CompositeOfSums(vals, periods, tw.0, tw.1);
    DivBounds(tw.0, tw.1, lo, hi);
  }

  lemma DivBounds(t: real, w: real, lo: real, hi: real)
    requires w > 0.0 && lo * w <= t <= hi * w
    ensures lo <= t / w <= hi
  {
    assert (t / w) * w == t;
    if t / w < lo {
      MulMono(t / w, lo, w);
    }
    if t / w > hi {
      MulMono(hi, t / w, w);
    }
  }

  /** The result is the top of the stable descending order of `rps_sum`, cut at `top_n`. */
  lemma TopRpsFacts(store: Store, date: string, periods: seq<int>, topN: int, weighted: bool)
    requires TopRps(store, date, periods, topN, weighted).Some?
    ensures TopCandidates(store, date, periods, weighted).Some?
    ensures var cands := TopCandidates(store, date, periods, weighted).value;
      var r := TopRps(store, date, periods, topN, weighted).value;
      && r == SortDesc(cands)[..|r|]
      && NonIncreasing(r)
      && (topN >= 0 ==> |r| == if topN < |cands| then topN else |cands|)
      && multiset(SortDesc(cands)) == multiset(cands)
      && forall v :: WithScore(SortDesc(cands), v) == WithScore(cands, v)
  {
    var cands := TopCandidates(store, date, periods, weighted).value;
    SortDescFacts(cands);
    var r := TopRps(store, date, periods, topN, weighted).value;
    forall a, b | 0 <= a < b < |r| ensures r[a].1 >= r[b].1 {
      assert r[a] == SortDesc(cands)[a] && r[b] == SortDesc(cands)[b];
    }
  }

  /** `{10: {A: 90, B: 80}, 20: {A: 70}}` unweighted: only A is kept, with 160. */
  lemma ExampleStrictIntersection()
    ensures Candidates(Merge(Merge([], 10, [("A", 90.0), ("B", 80.0)]), 20, [("A", 70.0)]), [10, 20], false) ==
      Some([("A", 160.0)])
  {
    var a, b: PeriodScores := [(10, 90.0)], [(10, 80.0)];
    var d1: Dict<string, real> := [("A", 90.0), ("B", 80.0)];
    assert d1[..1] == [("A", 90.0)];
    assert Merge([], 10, d1[..1]) == [("A", a)];
    assert [("A", a)][1..] == [];
    assert "A" != "B" by { assert "A"[0] != "B"[0]; }
    assert Get([("A", a)], "B") == None;
    assert Inner([("A", a)], "B") == [];
    assert Put([], 10, 80.0) == b;
    assert Put([("A", a)], "B", b) == [("A", a), ("B", b)];
    var m1 := Merge([], 10, d1);
    assert m1 == [("A", a), ("B", b)];
    var a2: PeriodScores := [(10, 90.0), (20, 70.0)];
    assert Put(a, 20, 70.0) == a2;
    var m2 := Merge(m1, 20, [("A", 70.0)]);
    assert [("A", 70.0)][..0] == [];
    assert Inner(m1, "A") == a;
    assert Put(m1, "A", a2) == [("A", a2), ("B", b)];
    assert Merge(m1, 20, []) == m1;
    assert m2 == [("A", a2), ("B", b)];
    assert m2[..1] == [("A", a2)];
    assert a2[..1] == a;
    assert SumValues(a) == 90.0;
    assert SumValues(a2) == 160.0;
    assert m2[..1][..0] == [];
    assert |a2| == |[10, 20]|;
    assert Composite(a2, [10, 20], false) == Some(160.0);
    assert m2[..1][|m2[..1]| - 1] == ("A", a2);
    assert Candidates(m2[..1][..0], [10, 20], false) == Some([]);
    assert [] + [("A", 160.0)] == [("A", 160.0)];
    assert Candidates(m2[..1], [10, 20], false) == Some([("A", 160.0)]);
    assert m2[..2] == m2;
  }

  /** Periods 10 and 20 with A at 90 and 60: weights 2/3 and 1/3 give 80. */
  lemma ExampleWeighted()
    ensures Composite([(10, 90.0), (20, 60.0)], [10, 20], true) == Some(80.0)
  {
    assert [10, 20][..1] == [10];
    assert WeightedSums([(10, 90.0), (20, 60.0)], [10]) == Some((9.0, 0.1));
    assert WeightedSums([(10, 90.0), (20, 60.0)], [10, 20]) == Some((12.0, 0.15));
  }
}
