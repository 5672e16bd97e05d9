/**
 * The per-day RPS store (`daily_rps.h5`): one group per date tag, holding one
 * dataset `"RPS" + period` per period, each a table of `[code, str(score)]` rows.
 */
module RpsStore {
  import opened Wrappers
  import opened OrderedDict
  import Decimal
  import ScoreText

  type Rows = seq<(string, string)>
  type Group = map<string, Rows>
  type Store = map<string, Group>

  /** `f'RPS{period}'` */
  function RpsKey(period: int): string {
    "RPS" + Decimal.IntToString(period)
  }

  lemma RpsKeyInjective(p: int, q: int)
    requires RpsKey(p) == RpsKey(q)
    ensures p == q
  {
    assert RpsKey(p)[3..] == Decimal.IntToString(p);
    assert RpsKey(q)[3..] == Decimal.IntToString(q);
    Decimal.IntToStringInjective(p, q);
  }

  /** The open output file. Creating a group or dataset whose name is taken fails. */
  class RpsFile {
    var groups: Store

    /** `h5py.File(output_file, 'w')` truncates: the file starts empty. */
    constructor ()
      ensures groups == map[]
    {
      groups := map[];
    }

    /** `f.create_group(tag)` */
    method CreateGroup(tag: string) returns (ok: bool)
      modifies this
      ensures ok == (tag !in old(groups))
      ensures groups == if ok then old(groups)[tag := map[]] else old(groups)
    {
      ok := tag !in groups;
      if ok {
        groups := groups[tag := map[]];
      }
    }

    /** `date_group.create_dataset(name, (n, 2), dtype=str)`: `n` rows of empty strings. */
    method CreateDataset(tag: string, name: string, n: nat) returns (ok: bool)
      requires tag in groups
      modifies this
      ensures ok == (name !in old(groups)[tag])
      ensures groups == if ok then old(groups)[tag := old(groups)[tag][name := seq(n, _ => ("", ""))]]
                        else old(groups)
    {
      ok := name !in groups[tag];
      if ok {
        groups := groups[tag := groups[tag][name := seq(n, _ => ("", ""))]];
      }
    }

    /** `rps_dataset[i] = [code, text]` */
    method WriteRow(tag: string, name: string, i: nat, row: (string, string))
      requires tag in groups && name in groups[tag] && i < |groups[tag][name]|
      modifies this
      ensures groups == old(groups)[tag := old(groups)[tag][name := old(groups)[tag][name][i := row]]]
    {
      groups := groups[tag := groups[tag][name := groups[tag][name][i := row]]];
    }
  }

  /** The rows written for a score dictionary: `[code, str(score)]` in dictionary order. */
  function EncodeRows(values: Dict<string, real>): (rows: Rows)
    ensures |rows| == |values|
  {
    seq(|values|, i requires 0 <= i < |values| => (values[i].0, ScoreText.Encode(values[i].1)))
  }

  /** The rows' scores parsed with `float(...)`, or `None` if some text does not parse. */
  function ParseRows(rows: Rows): Option<seq<(string, real)>> {
    ParseAll(ScoreText.Decode, rows)
  }

  /** The row-by-row parse with `parse` standing for `float(...)`. */
  function ParseAll(parse: string -> Option<real>, rows: Rows): Option<seq<(string, real)>> {
    if rows == [] then Some([])
    else
      match ParseAll(parse, rows[..|rows| - 1])
      case None => None
      case Some(ps) =>
        match parse(rows[|rows| - 1].1)
        case None => None
        case Some(v) => Some(ps + [(rows[|rows| - 1].0, v)])
  }

  /** `for code, rps in rows: d[code] = float(rps)`; `None` where `float` raises. */
  function DecodeRows(rows: Rows): Option<Dict<string, real>> {
    match ParseRows(rows)
    case None => None
    case Some(ps) => Some(FromPairs(ps))
  }

  /** `load_rps_data` as a function of the store's contents. */
  function Load(store: Store, date: string, period: int): Option<Dict<string, real>> {
    if date in store && RpsKey(period) in store[date] then DecodeRows(store[date][RpsKey(period)])
    else Some([])
  }

  lemma ParseRowsFacts(rows: Rows)
    ensures ParseRows(rows).Some? <==> forall i :: 0 <= i < |rows| ==> ScoreText.Decode(rows[i].1).Some?
    ensures ParseRows(rows).Some? ==>
      |ParseRows(rows).value| == |rows| &&
      forall i :: 0 <= i < |rows| ==>
        ParseRows(rows).value[i] == (rows[i].0, ScoreText.Decode(rows[i].1).value)
  {
    ParseAllSucceeds(ScoreText.Decode, rows);
    if ParseRows(rows).Some? { ParseAllValues(ScoreText.Decode, rows); }
  }

  lemma {:induction false} ParseAllSucceeds(parse: string -> Option<real>, rows: Rows)
    ensures ParseAll(parse, rows).Some? <==> forall i :: 0 <= i < |rows| ==> parse(rows[i].1).Some?
  {
    if rows != [] {
      var init := rows[..|rows| - 1];
      ParseAllSucceeds(parse, init);
      assert forall i :: 0 <= i < |init| ==> init[i] == rows[i];
    }
  }

  lemma {:induction false} ParseAllValues(parse: string -> Option<real>, rows: Rows)
    requires ParseAll(parse, rows).Some?
    ensures |ParseAll(parse, rows).value| == |rows|
    ensures forall i :: 0 <= i < |rows| ==>
      parse(rows[i].1).Some? && ParseAll(parse, rows).value[i] == (rows[i].0, parse(rows[i].1).value)
  {
    if rows != [] {
      var init := rows[..|rows| - 1];
      ParseAllValues(parse, init);
      assert forall i :: 0 <= i < |init| ==> init[i] == rows[i];
    }
  }

  /** One more row: its score parses and is appended, or the whole read fails. */
  lemma ParseRowsStep(rows: Rows, i: nat)
    requires i < |rows|
    ensures ParseRows(rows[..i + 1]) ==
      match ParseRows(rows[..i])
      case None => None
      case Some(ps) =>
        match ScoreText.Decode(rows[i].1)
        case None => None
        case Some(v) => Some(ps + [(rows[i].0, v)])
  {
    assert rows[..i + 1][..i] == rows[..i];
  }

  lemma {:induction false} ParseRowsPrefixFails(rows: Rows, j: nat)
    requires j <= |rows| && ParseRows(rows[..j]).None?
    ensures ParseRows(rows).None?
    decreases |rows| - j
  {
    if j < |rows| {
      assert rows[..j + 1][..j] == rows[..j];
      ParseRowsPrefixFails(rows, j + 1);
    } else {
      assert rows[..j] == rows;
    }
  }

  /** Reading back rows written from a dictionary gives the dictionary, each score truncated to the stored digits. */
  lemma {:induction false} DecodeEncodedRows(values: Dict<string, real>)
    requires DistinctKeys(values)
    ensures DecodeRows(EncodeRows(values)) ==
      Some(seq(|values|, i requires 0 <= i < |values| => (values[i].0, ScoreText.Truncated(values[i].1))))
  {
    var rows := EncodeRows(values);
    var back := seq(|values|, i requires 0 <= i < |values| => (values[i].0, ScoreText.Truncated(values[i].1)));
    forall i | 0 <= i < |rows| ensures ScoreText.Decode(rows[i].1) == Some(back[i].1) {
      ScoreText.RoundTrip(values[i].1);
    }
    ParseRowsFacts(rows);
    assert ParseRows(rows).value == back;
    assert DistinctKeys(back) by {
      forall i, j | 0 <= i < j < |back| ensures back[i].0 != back[j].0 {
        assert back[i].0 == values[i].0 && back[j].0 == values[j].0;
      }
    }
    FromDistinctPairs(back);
  }

  /** `load_rps_data`: the dataset for `(date, period)` read into a dictionary, or `{}` when absent. */
  method LoadRpsData(store: Store, date: string, period: int) returns (r: Option<Dict<string, real>>)
    ensures r == Load(store, date, period)
  {
    var d: Dict<string, real> := [];
    var key := RpsKey(period);
    if date in store && key in store[date] {
      var rows := store[date][key];
      var i := 0;
      while i < |rows|
        invariant 0 <= i <= |rows|
        invariant ParseRows(rows[..i]).Some? && d == FromPairs(ParseRows(rows[..i]).value)
      {
        var v := ScoreText.Decode(rows[i].1);
        ParseRowsStep(rows, i);
        if v.None? {
          ParseRowsPrefixFails(rows, i + 1);
          return None;
        }
        ghost var ps := ParseRows(rows[..i]).value;
        FromPairsSnoc(ps, (rows[i].0, v.value));
        d := Put(d, rows[i].0, v.value);
        i := i + 1;
      }
      assert rows[..i] == rows;
    }
    r := Some(d);
  }

  /** A date or period that was never written reads as an empty dictionary, not an error. */
  lemma LoadMissing(store: Store, date: string, period: int)
    requires date !in store || RpsKey(period) !in store[date]
    ensures Load(store, date, period) == Some([])
  {
  }

  /** Reading a dataset written from a dictionary reproduces its codes, order and (truncated) scores. */
  lemma LoadWritten(store: Store, date: string, period: int, values: Dict<string, real>)
    requires DistinctKeys(values)
    requires date in store && RpsKey(period) in store[date] && store[date][RpsKey(period)] == EncodeRows(values)
    ensures Load(store, date, period) ==
      Some(seq(|values|, i requires 0 <= i < |values| => (values[i].0, ScoreText.Truncated(values[i].1))))
  {
    DecodeEncodedRows(values);
  }

  /** A loaded dictionary never holds a code twice. */
  lemma LoadDistinct(store: Store, date: string, period: int)
    requires Load(store, date, period).Some?
    ensures DistinctKeys(Load(store, date, period).value)
  {
    if date in store && RpsKey(period) in store[date] {
      FromPairsKeys(ParseRows(store[date][RpsKey(period)]).value);
    }
  }
}
