# RPS engine — a Dafny model

This project models the relative price strength (RPS) engine and the scripts that consume its output.

- **Generator** (`RPS_generator.py`). For every trading day and every period, `calculate_daily_rps` does the following:
  - it ranks the seasoned stocks (listed at least 365 days earlier) by their trailing return;
  - it turns sorted position `i` of `N` into the score `(N - i) / N * 100`;
  - it writes the scores into the store `daily_rps.h5`, which has one group per date tag and one dataset `RPS{period}` of `[code, str(score)]` rows.
- **Reading the store back**:
  - `load_rps_data` reads one dataset back into a dictionary;
  - `get_top_rps_stocks` keeps the codes scored in every requested period, combines their scores (a plain sum or a `1/period`-weighted mean), and returns the best `top_n`.
- **Pivot readers**. `read_rps_file` (utils.py) and `read_rps_to_dataframe` (rps.py and the RPS10 indicator's part.py) turn the store into a date × code table for one period. A missing cell is NaN.
- **Watch lists**. `read_guchi` converts an EBK watch-list file into `sz…`/`sh…` codes.
- **Simplified selectors**:
  - rps_simple.py ranks the n-bar change rates by percentile and sums three RPS columns;
  - backtest_example.py computes returns relative to the Shanghai index, sums them with zero fill, and keeps the top five.

How the model represents the system:

- The store is a map: date tag → dataset name → rows. The class `RpsStore.RpsFile` holds it, and its methods refuse to create a group or dataset whose name is taken.
- Python dictionaries are insertion-ordered association lists (`OrderedDict`).
- A stock's bars are a sequence of closes, plus the bar position that a query at each day starts from.
- Dates are day numbers, each paired with its group tag.
- Scores are exact reals. Their text form is a fixed-point decimal with ten fraction digits (`ScoreText`).
- A Python exception that ends a call is a `None` result. When it ends the generator, it is `ok == false`.
- Each loop of the source is a method with loop invariants. Each method is proved equal to a specification function, and the promised properties are lemmas about those functions.

Modules, file by file:

- `wrappers.dfy`: `Option`.
- `decimal.dfy`: decimal digits.
- `ordered_dict.dfy`: Python dictionaries.
- `str_order.dfy`: `str` ordering and `sorted` of a set.
- `score_text.dfy`: score text.
- `ranking.dfy`: the stable descending sort, percentiles and slicing.
- `rps_store.dfy`: the store and `load_rps_data`.
- `rps_generator.dfy`: `calculate_daily_rps`.
- `top_stocks.dfy`: `get_top_rps_stocks`.
- `pivot.dfy`: the three table readers and `part`.
- `ebk.dfy`: `read_guchi`.
- `rps_simple.dfy`: rps_simple.py.
- `backtest.dfy`: backtest_example.py lines 8-52.

## Model

| member | source | states |
|---|---|---|
| RpsGenerator.CalculateDailyRps | RPS_generator.py:34-136 | An empty calendar fails before the store is written, since printing its first day raises. Otherwise the run starts from a fresh, empty store. The final store and success flag are those of `DailyRps`: listing dates first, then for each day a group, eligible stocks, per-period returns, ranking and dataset writes. It fails where a group or dataset name is taken. |
| RpsGenerator.CollectListingDates | RPS_generator.py:41-50 | The listing map is `ListingDates`. Only stocks whose first-bar lookup succeeded get an entry. |
| RpsGenerator.ListingOfStock | RPS_generator.py:41-50 | With distinct codes, a stock has a listing day exactly when its lookup succeeded, and that day is its first bar's day. |
| RpsGenerator.ListingMissing | RPS_generator.py:41-50 | A code that not a single stock carries has no listing day. |
| RpsGenerator.CollectEligible | RPS_generator.py:64-67 | `valid_stocks` is `EligibleStocks`: the stocks whose code has a listing day at most `day - 365`, in universe order. |
| RpsGenerator.EligibleMembers | RPS_generator.py:61-67 | A stock is eligible exactly when it is in the universe and was listed on or before `day - 365`. There are never more eligible stocks than stocks. |
| RpsGenerator.EligibilityGate | RPS_generator.py:41-67 | With distinct codes, a stock joins a day's ranking if and only if its listing lookup succeeded and it was listed at least 365 days before the day. |
| RpsGenerator.CollectReturns | RPS_generator.py:78-110 | The collected returns are `Returns`: a stock with no bar that day, no bar `period` positions back, or a past close `<= 0` gets no record. |
| RpsGenerator.ReturnMeaning | RPS_generator.py:92-105 | A defined return uses the bar at the day and the bar `period` positions earlier, whose close is positive. The return satisfies `past * (1 + r/100) == current`. |
| RpsGenerator.ReturnsMembers | RPS_generator.py:78-110 | The returns are exactly the (code, return) pairs of valid stocks whose return is defined. No stock is zero-filled, and there are at most as many returns as valid stocks. |
| RpsGenerator.AssignScores | RPS_generator.py:121-127 | `rps_values` is the dictionary built from the scores `(N - i) / N * 100` of the sorted positions. |
| RpsGenerator.ScoresFacts | RPS_generator.py:118-127 | There is one score per return. The top score is exactly 100 and the bottom is `100 / N`. Scores strictly decrease with the position and lie in (0, 100]. |
| RpsGenerator.ScoresAreRanks | RPS_generator.py:118-127 | With distinct codes, `rps_values` holds every sorted code with its position's score, in sorted order. |
| RpsGenerator.HigherReturnHigherScore | RPS_generator.py:118-127 | A strictly higher return gets a strictly higher score. |
| RpsGenerator.TiesKeepOrder | RPS_generator.py:118 | Stocks with equal returns keep their input order after the sort. |
| RpsGenerator.WriteScores | RPS_generator.py:131-136 | Creating an existing dataset fails and leaves the store unchanged. Otherwise the dataset holds exactly `len(rps_values)` rows `[code, str(score)]`, in dictionary order. |
| RpsGenerator.RankPeriod | RPS_generator.py:75-136 | One (day, period) unit is written as `PeriodStep` says. Fewer than 10 returns leaves the group unchanged, and an existing dataset is refused. |
| RpsGenerator.FillDay | RPS_generator.py:75-136 | The periods loop turns the day's empty group into `FillGroup`. |
| RpsGenerator.RankDay | RPS_generator.py:57-136 | One day follows `DayStep`. An existing tag fails. With fewer than 10 eligible stocks the new group stays empty. Otherwise the periods fill it. |
| RpsGenerator.FillGroupFailsOn | RPS_generator.py:131 | Once a dataset creation fails, the rest of the day's periods leave the group as it was. |
| RpsGenerator.RunFailsOn | RPS_generator.py:58 | A conflict on a day ends the run with the store as it was then. |
| RpsGenerator.FillGroupFacts | RPS_generator.py:75-136 | A day's group holds a dataset for exactly the ranked periods (those with at least 10 returns), each holding that period's ranked rows. Filling fails exactly when a ranked period repeats. |
| RpsGenerator.SmallUniverseEmptyGroup | RPS_generator.py:58-72 | With fewer than 10 eligible stocks the day's group exists and has no dataset. |
| RpsGenerator.RunFacts | RPS_generator.py:34-136 | A run succeeds exactly when the calendar is not empty, the day tags are distinct and every day's group is written. The store then has one group per day, holding what that day computes. |
| RpsGenerator.RunThenLoad | RPS_generator.py:131-164 | After a successful run, reading a (day, period) back gives the unit's codes in rank order with their scores truncated to the stored digits. When the day or period was skipped it gives `{}`. |
| RpsStore.RpsFile.CreateGroup | RPS_generator.py:58 | Creating a group succeeds exactly when the tag is new. It then adds an empty group, and otherwise changes nothing. |
| RpsStore.RpsFile.CreateDataset | RPS_generator.py:131-132 | Creating a dataset succeeds exactly when the name is new in the group. It then adds `n` empty rows, and otherwise changes nothing. |
| RpsStore.RpsFile.WriteRow | RPS_generator.py:136 | Row `i` of the named dataset becomes the given row, and nothing else in the store changes. |
| RpsStore.RpsKeyInjective | RPS_generator.py:131-157 | Different periods have different dataset names `RPS{p}`. |
| RpsStore.LoadRpsData | RPS_generator.py:152-164 | The result is `Load`: `{}` when the date tag or `RPS{p}` is absent, otherwise `code → float(text)` row by row. It is `None` where `float` raises. |
| RpsStore.ParseRowsFacts | RPS_generator.py:161-162 | Parsing a dataset succeeds exactly when every score text parses. The parsed pairs are then the rows' codes with their values, in row order. |
| RpsStore.LoadMissing | RPS_generator.py:155-159 | A date or period that was never written reads as `{}`, not as an error. |
| RpsStore.DecodeEncodedRows | RPS_generator.py:136-162 | Reading back rows written from a dictionary with distinct codes gives its codes, in order, with each score truncated to ten fraction digits. |
| RpsStore.LoadWritten | RPS_generator.py:131-164 | A dataset written from a dictionary loads back as that dictionary with truncated scores. |
| RpsStore.LoadDistinct | RPS_generator.py:161-162 | A loaded dictionary never holds a code twice. |
| ScoreText.RoundTrip | RPS_generator.py:136-162 | `float(str(x))` gives `x` truncated to ten fraction digits. |
| ScoreText.TruncatedClose | RPS_generator.py:136-162 | The truncation keeps the sign, moves towards zero and errs by less than `10^-10`. |
| ScoreText.ExactWhenRepresentable | RPS_generator.py:136-162 | A score with at most ten fraction digits is read back exactly. |
| Ranking.SortDescFacts | RPS_generator.py:118 | The sort returns a permutation of its input in non-increasing order of score. Equal scores keep their input order, so the sort is stable. |
| Ranking.PercentileBounds | RPS_generator.py:126 | `(N - i) / N * 100` lies in (0, 100]. It is 100 at `i = 0` and `100 / N` at `i = N - 1`. |
| Ranking.PercentileDecreasing | RPS_generator.py:126 | A later position gets a strictly lower score. |
| Ranking.Take | RPS_generator.py:212 | `s[:n]` is a prefix of `s` with `min(n, \|s\|)` entries. A negative `n` drops entries from the end. |
| TopStocks.GetTopRpsStocks | RPS_generator.py:166-212 | The result is `TopRps`: per-period loads merged, strict-intersection candidates, their composite, then the stable descending sort cut to `top_n`. It is in non-increasing order, with at most `top_n` entries when `top_n >= 0`. |
| TopStocks.MergeLoaded | RPS_generator.py:185-188 | The inner loop gives `Merge`: each loaded code gets `all_rps_data[code]['RPS{p}'] = rps`. |
| TopStocks.MergeFacts | RPS_generator.py:185-188 | After merging, the codes are those present before or in the loaded dictionary. Each inner dictionary gains the period's score, and codes stay distinct. |
| TopStocks.GatherFacts | RPS_generator.py:183-188 | Gathering succeeds exactly when every period loads. The inner dictionary of a code is then its (period, score) pairs over the periods that score it. |
| TopStocks.HitsFacts | RPS_generator.py:183-188 | A code has as many gathered scores as there are periods exactly when every period's dictionary holds it. |
| TopStocks.WeightedScore | RPS_generator.py:196-204 | The weighted loop computes `Σ s_p/p ÷ Σ 1/p`. It is `None` where `1 / period` or the division raises. |
| TopStocks.CollectCandidates | RPS_generator.py:191-208 | `rps_sum` is `Candidates`: the codes whose inner dictionary has `len(periods)` entries, with their composite. |
| TopStocks.CandidatesFacts | RPS_generator.py:193-208 | A pair is in `rps_sum` exactly when its code's inner dictionary is full and the composite is its value. The loop raises exactly when some full entry's composite raises. |
| TopStocks.StrictIntersection | RPS_generator.py:183-195 | A code passes the length check if and only if the periods are non-empty and distinct and every period's dictionary holds the code. Codes missing from some period are dropped, not zero-filled. |
| TopStocks.Selected | RPS_generator.py:183-208 | A code is selected exactly when the periods are distinct and every one scores it. Its value is the plain sum or the weighted mean of those scores. |
| TopStocks.WeightedBetween | RPS_generator.py:196-204 | With positive periods, the weighted score lies between the code's lowest and highest per-period scores. |
| TopStocks.TopRpsFacts | RPS_generator.py:211-212 | The result is the first `min(top_n, \|candidates\|)` entries of the stable descending sort of the candidates. It is non-increasing, and ties keep candidate order. |
| TopStocks.ExampleStrictIntersection | RPS_generator.py:183-208 | With `{10: {A: 90, B: 80}, 20: {A: 70}}` unweighted, only A is kept, with 160. |
| TopStocks.ExampleWeighted | RPS_generator.py:196-204 | Scores 90 at period 10 and 60 at period 20 give the weighted score 80. |
| RpsPivot.ReadRpsFile | utils.py:5-72 | The table (`PivotOf`), with the added `'datetime'` column. Three claims:<br>1. It fails exactly when some dataset of the period does not parse.<br>2. Its rows are the dates holding `RPS{period}`, in sorted order, and its columns are the sorted union of their codes.<br>3. Each row has one cell per code, holding the date's score or NaN. |
| RpsPivot.ReadRpsToDataframe | rps.py:190-257 | The same table, with `'date'` converted in place and no extra column. |
| RpsPivot.ReadRpsFrame | hikyuu_hub/ind/RPS10/part.py:16-83 | The readers' shared body meets `PivotOf`, and the datetime column is present as requested. |
| RpsPivot.ReadDates | utils.py:17-39 | The loop over the sorted keys keeps exactly the dates holding the period, in order, and records each one's loaded dictionary. `all_stocks` is the union of their codes. It fails exactly when some read raises. |
| RpsPivot.ReadDate | utils.py:22-35 | One date of the loop: the loaded dictionary is `Load` of the date (empty when the group lacks `RPS{period}`), and the date's codes join `all_stocks` only when it holds the period. |
| RpsPivot.ReadDataset | utils.py:30-35 | One dataset is read into `date_data` as `DecodeRows`, and its codes are added to `all_stocks`. |
| RpsPivot.BuildCells | utils.py:48-58 | Every row has `\|codes\|` cells, and cell `j` is `date_data.get(codes[j], nan)`. |
| RpsPivot.WithPeriodFacts | utils.py:17-39 | Filtering the sorted keys keeps them sorted and keeps exactly the keys whose group has `RPS{period}`. |
| RpsPivot.PivotUnique | utils.py:5-72 | The table is determined by the store and the period: two readings agree. |
| RpsPivot.LastDuplicateWins | hikyuu_hub/ind/RPS10/part.py:42-46 | A code that appears twice in a date's dataset gets the score of its last row. |
| RpsPivot.Part | hikyuu_hub/ind/RPS10/part.py:84-99 | `part` reads the `RPS10` table. The code is the context stock's, or `"000001"` when that is empty, so it is never empty. |
| StrOrder.SortedList | utils.py:17-18 | `sorted(...)` of a set is strictly increasing in Python's string order and has exactly the set's members. |
| StrOrder.IncreasingUnique | utils.py:45 | Two increasing lists with the same members are equal, so `sorted` has one answer. |
| Ebk.ReadGuchi | utils.py:75-99 | If opening the file fails the result is `[]`. Otherwise it is `Guchi` of the lines. |
| Ebk.StripFacts | utils.py:83 | `strip()` removes exactly the surrounding whitespace. The result is a slice of the line with no whitespace at either end. |
| Ebk.GuchiAppend | utils.py:81-95 | The concatenation of two line lists converts to the concatenation of their conversions, so output keeps line order. |
| Ebk.GuchiSingle | utils.py:83-95 | A one-line file gives exactly that line's conversion, so each line is converted on its own. |
| Ebk.GuchiEntries | utils.py:81-95 | There is exactly one code per line that is non-blank once stripped and starts with `0` or `1`. Each code comes from such a line: `sz` exactly for a leading `0`, `sh` exactly for a leading `1`, then `line[1:]`. Every such line has its code. |
| Ebk.ConvertLineFacts | utils.py:83-95 | A line yields one code when it is non-blank once stripped and starts with `0` or `1`, and none otherwise. The code is `sz` exactly for a leading `0` and `sh` exactly for a leading `1`, followed by the stripped line after its first character. |
| RpsSimple.CalculateRps | rps_simple.py:77-138 | The result is `CalculateRpsFrame`. The stocks loop builds `result_data`, then each `RPS{n}` column is ranked. It is `None` where pandas raises. |
| RpsSimple.CollectRows | rps_simple.py:95-128 | The stocks loop gives `KeptRows`: in stock order, one row of code, name and rates for each stock with enough bars and a rate for every period. |
| RpsSimple.RankColumns | rps_simple.py:134-136 | The ranking loop gives `RankAll`: each period's column replaced by its percentile ranks, one period after another. |
| RpsSimple.StockRates | rps_simple.py:112-117 | The periods loop of one stock gives `Rates`. It is `None` where an index raises. |
| RpsSimple.MaxOf | rps_simple.py:102-105 | `max(n_days)` is a member of the list and at least every member. It is `None` exactly for an empty list. |
| RpsSimple.ChangeRateMeaning | rps_simple.py:116 | The rate is defined exactly when `-n` is a valid Python index of `closes` and `closes[-n]` is non-zero. Then `closes[-n] * (1 + rate / 100) == closes[-1]`. |
| RpsSimple.RatePairsFacts | rps_simple.py:113-117 | Past the length guard, every period gets its entry: `RPS{n}` mapped to its change rate, in period order. The loop fails exactly when a rate does. |
| RpsSimple.StockRowFacts | rps_simple.py:102-125 | A stock is kept if and only if all of these hold: there are periods; they are distinct; it has at least `max(n_days)` bars; every change rate is defined. The row then holds `RPS{n}` and that rate for each period, in order. With distinct periods the all-periods check passes for every stock that reaches it. With a repeated period it rejects every stock. |
| RpsSimple.KeptRowsMembers | rps_simple.py:98-125 | `result_data` consists of the rows of the kept stocks, with at most one row per stock. |
| RpsSimple.KeptRowsShaped | rps_simple.py:120-125 | Every kept row holds the distinct `RPS{n}` columns in period order. When any row is kept, the periods are distinct. |
| RpsSimple.CalculateRpsFacts | rps_simple.py:131-138 | The frame is `None` exactly when no stock was kept and there are periods. Otherwise it has one row per kept stock, with code and name, and its `RPS{n}` cell is the percentile rank of the stock's rate among the kept rates for that period. |
| RpsSimple.PctRankBounds | rps_simple.py:136 | `rank(pct=True) * 100` of a column value lies in (0, 100]. |
| RpsSimple.PctRankOrder | rps_simple.py:136 | A smaller change rate gets a strictly smaller rank, so ranks preserve the rates' order. |
| RpsSimple.SimpleRpsSelector | rps_simple.py:43-74 | The result is `Picks(TopRows(...))`: the top `count` rows by `RPS_SUM`, each with the market's details. |
| RpsSimple.PicksFacts | rps_simple.py:50-74 | There are at most as many picks as selected rows. Each pick comes from a selected row whose code the market knows, and every such row is picked. Picks follow a non-increasing `RPS_SUM` order. |
| RpsSimple.SelectorFacts | rps_simple.py:43-74 | The output holds at most `count` entries and never more than there are rows, in non-increasing `RPS_SUM` order. Each entry is a table row with a known code, and `RPS_SUM = RPS50 + RPS120 + RPS250`. `close` is the code's last close, or `None` for a code with no bars. |
| Backtest.CalculateRps | backtest_example.py:8-29 | The result is `BacktestRps` and does not depend on `period`. It is `None` where Python raises: empty benchmark bars or a zero benchmark start price, or a listed stock with bars that has a zero start price or meets a zero benchmark return. |
| Backtest.RelativeRps | backtest_example.py:17-27 | The stocks loop against a given benchmark return gives `Relative`, skipping stocks with no bars and failing where a division by zero raises. |
| Backtest.RelativeFacts | backtest_example.py:17-27 | After a call that does not raise, a stock has a value exactly when it is listed and has bars. The value is `(stock_return - benchmark_return) / benchmark_return` with `return = (last - first) / first`. Keys are distinct. |
| Backtest.RelativeSucceeds | backtest_example.py:17-27 | The stocks loop raises exactly when some listed stock with bars has a zero first close, or there is such a stock and the benchmark return is zero. A stock without bars is skipped before any division. |
| Backtest.BacktestSucceeds | backtest_example.py:8-27 | `calculate_rps` raises exactly when the benchmark has no bars or a zero first close, or some listed stock with bars has a zero first close or meets a benchmark whose last close equals its first. |
| Backtest.RelativeMeaning | backtest_example.py:22-26 | A stock with a value has bars, a non-zero first close and a non-zero benchmark return. Its range return is `benchmark_return * (1 + v)`, so its closes grow from `first` to `first * (1 + benchmark_return * (1 + v))`. |
| Backtest.Combine | backtest_example.py:42-48 | The combination loop gives `Combined`, adding one `Put` per listed stock. |
| Backtest.CombinedFacts | backtest_example.py:42-48 | Every listed stock gets the total `rps50 + rps120 + rps250`, with a missing value counted as 0 (zero fill). No other code gets a total, and keys are distinct. |
| Backtest.Top5Facts | backtest_example.py:50-52 | The selection has `min(5, \|codes\|)` distinct listed codes in non-increasing order of total. No listed code left out has a larger total than any code kept. |
| Backtest.TopKeys | backtest_example.py:50-52 | The first `n` keys of a dictionary sorted by value form a top-`n` selection: distinct keys, non-increasing values, and none below a key left out. |

## Left out

- Market-data access (`blocka`, `get_stock`, `get_kdata`, `Query`, `KQueryByDate`, `StockManager`) is not modelled. Bars, listing lookups and names are inputs.
- A negative `start_pos - period` is a query counted from the end of the series (RPS_generator.py:92-94). The model leaves that meaning out, and such a stock gets no return.
- h5py file handling, the `with` scoping and bytes/UTF-8 decoding are not modelled. The store is nested maps, and codes and texts are strings.
- Python floats are exact reals. `str(x)` is modelled as a fixed-point text with ten fraction digits, truncated, and `float(text)` as a decimal parser.
- RpsStore.LoadWritten: the written map comes back with each score truncated to ten fraction digits, not exactly. The model's text form is not Python's shortest round-trip `repr`.
- RpsGenerator.RunThenLoad: same limitation as LoadWritten; scores read back truncated.
- RpsGenerator.CalculateDailyRps: on an empty calendar the source raises before `daily_rps.h5` is opened, so no file is created or truncated. The model returns a fresh, empty store with `ok == false` and says nothing about a file already on disk.
- IEEE infinities and NaN arithmetic are not modelled.
- RpsSimple.ChangeRate: a zero `closes[-n]` makes the stock skipped. numpy would produce `inf` or `nan` and keep the stock.
- pandas internals are not modelled: DataFrame construction, `to_datetime` and the `'date'`/`'datetime'` column types. The table keeps dates as strings, with only a flag for the extra column.
- RpsSimple.SimpleRpsSelector and Backtest.Top5Facts: pandas' `sort_values` is not stable. The model fixes one order among ties (the stable one), and the lemmas claim only non-increasing order and membership.
- RpsSimple.SimpleRpsSelector: reading the RPS table with `read_csv` is not modelled. The random sample data (rps_simple.py:19-37) is not modelled either, so the table is an input.
- RpsSimple.SimpleRpsSelector: "an exception" while fetching a code's details is modelled as the code being unknown to the market map.
- The indicator wrapper in rps.py:77-165 (`crtRpsIndicatorImp`, `rpswrap_calculate`) is not part of this model. `df_to_ind` and the `Indicator` object built in part.py are not part of it either.
- The first definition of `read_rps_to_dataframe` (rps.py:6-73) is shadowed by the second and has the same body. It is covered by the same model.
- Backtest machinery (backtest_example.py:54-89), all `__main__` blocks and `to_csv` are not modelled.
- `print` and `tqdm` progress output, and GB2312 decoding of EBK files, are not modelled. A file that cannot be opened is an absent list of lines.
- rps.py imports nothing named `tqdm`, so the reader there would raise `NameError` at run time. The model treats rps.py like utils.py and does not model that failure.
