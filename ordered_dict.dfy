/**
 * Python dictionaries as insertion-ordered association lists.
 * Assigning a key that is already present replaces its value in place
 * (the key keeps its first position); a new key goes to the end.
 */
module OrderedDict {
  import opened Wrappers

  type Dict<K, V> = seq<(K, V)>

  function Keys<K, V>(d: Dict<K, V>): seq<K> {
    seq(|d|, i requires 0 <= i < |d| => d[i].0)
  }

  ghost predicate DistinctKeys<K, V>(d: Dict<K, V>) {
    forall i, j :: 0 <= i < j < |d| ==> d[i].0 != d[j].0
  }

  /** `d.get(k)`: the value stored under `k`, if any. */
  function Get<K(==), V>(d: Dict<K, V>, k: K): Option<V> {
    if d == [] then None
    else if d[0].0 == k then Some(d[0].1)
    else Get(d[1..], k)
  }

  /** `d[k] = v` */
  function Put<K(==), V>(d: Dict<K, V>, k: K, v: V): Dict<K, V> {
    if d == [] then [(k, v)]
    else if d[0].0 == k then [(k, v)] + d[1..]
    else [d[0]] + Put(d[1..], k, v)
  }

  /** The dictionary built by assigning the pairs of `s` one after another. */
  function FromPairs<K(==), V>(s: seq<(K, V)>): Dict<K, V> {
    if s == [] then [] else Put(FromPairs(s[..|s| - 1]), s[|s| - 1].0, s[|s| - 1].1)
  }

  /** Position of `k` in the dictionary, `|d|` when absent. */
  function IndexOf<K(==), V>(d: Dict<K, V>, k: K): (r: nat)
    ensures r <= |d|
  {
    if d == [] then 0 else if d[0].0 == k then 0 else 1 + IndexOf(d[1..], k)
  }

  lemma {:induction false} GetSomeIff<K, V>(d: Dict<K, V>, k: K)
    ensures Get(d, k).Some? <==> exists i :: 0 <= i < |d| && d[i].0 == k
    ensures Get(d, k).Some? ==> IndexOf(d, k) < |d| && d[IndexOf(d, k)] == (k, Get(d, k).value)
  {
    if d != [] && d[0].0 != k {
      GetSomeIff(d[1..], k);
      if exists i :: 0 <= i < |d| && d[i].0 == k {
        var i :| 0 <= i < |d| && d[i].0 == k;
        assert d[1..][i - 1].0 == k;
      }
      if exists i :: 0 <= i < |d[1..]| && d[1..][i].0 == k {
        var i :| 0 <= i < |d[1..]| && d[1..][i].0 == k;
        assert d[i + 1].0 == k;
      }
    }
  }

  lemma {:induction false} GetDistinct<K, V>(d: Dict<K, V>, i: nat)
    requires DistinctKeys(d) && i < |d|
    ensures Get(d, d[i].0) == Some(d[i].1)
  {
    if i > 0 {
      assert d[1..][i - 1] == d[i];
      GetDistinct(d[1..], i - 1);
    }
  }

  lemma PutFacts<K, V>(d: Dict<K, V>, k: K, v: V)
    ensures forall k' :: Get(Put(d, k, v), k') == if k' == k then Some(v) else Get(d, k')
    ensures Get(d, k).Some? ==> |Put(d, k, v)| == |d|
    ensures Get(d, k).None? ==> Put(d, k, v) == d + [(k, v)]
    ensures DistinctKeys(d) ==> DistinctKeys(Put(d, k, v))
    ensures forall i :: 0 <= i < |d| ==> Put(d, k, v)[i].0 == d[i].0
  {
    PutShape(d, k, v);
    if DistinctKeys(d) {
      PutDistinct(d, k, v);
    }
  }

  lemma {:induction false} PutShape<K, V>(d: Dict<K, V>, k: K, v: V)
    ensures forall k' :: Get(Put(d, k, v), k') == if k' == k then Some(v) else Get(d, k')
    ensures Get(d, k).Some? ==> |Put(d, k, v)| == |d|
    ensures Get(d, k).None? ==> Put(d, k, v) == d + [(k, v)]
    ensures forall i :: 0 <= i < |d| ==> Put(d, k, v)[i].0 == d[i].0
  {
    if d != [] && d[0].0 != k {
      PutShape(d[1..], k, v);
      assert Put(d, k, v) == [d[0]] + Put(d[1..], k, v);
      assert d == [d[0]] + d[1..];
      forall i | 0 <= i < |d| ensures Put(d, k, v)[i].0 == d[i].0 {
        if i > 0 { assert d[1..][i - 1] == d[i]; }
      }
    }
  }

  lemma {:induction false} PutDistinct<K, V>(d: Dict<K, V>, k: K, v: V)
    requires DistinctKeys(d)
    ensures DistinctKeys(Put(d, k, v))
  {
    if d != [] && d[0].0 != k {
      var p := Put(d[1..], k, v);
      assert Put(d, k, v) == [d[0]] + p;
      assert DistinctKeys(d[1..]) by {
        forall i, j | 0 <= i < j < |d[1..]| ensures d[1..][i].0 != d[1..][j].0 {
          assert d[1..][i] == d[i + 1] && d[1..][j] == d[j + 1];
        }
      }
      PutDistinct(d[1..], k, v);
      PutShape(d[1..], k, v);
      GetSomeIff(d[1..], d[0].0);
      GetSomeIff(p, d[0].0);
      forall i, j | 0 <= i < j < |[d[0]] + p| ensures ([d[0]] + p)[i].0 != ([d[0]] + p)[j].0 {
        if i == 0 {
          assert ([d[0]] + p)[j] == p[j - 1];
        } else {
          assert ([d[0]] + p)[i] == p[i - 1] && ([d[0]] + p)[j] == p[j - 1];
        }
      }
    } else if d != [] {
      forall i, j | 0 <= i < j < |Put(d, k, v)| ensures Put(d, k, v)[i].0 != Put(d, k, v)[j].0 {
        assert Put(d, k, v)[j] == d[j];
        if i > 0 { assert Put(d, k, v)[i] == d[i]; }
      }
    }
  }

  /** Assigning pairs whose keys are distinct reproduces them unchanged, in order. */
  lemma {:induction false} FromDistinctPairs<K, V>(s: seq<(K, V)>)
    requires DistinctKeys(s)
    ensures FromPairs(s) == s
  {
    if s != [] {
      var init := s[..|s| - 1];
      assert DistinctKeys(init) by {
        forall i, j | 0 <= i < j < |init| ensures init[i].0 != init[j].0 {
          assert init[i] == s[i] && init[j] == s[j];
        }
      }
      FromDistinctPairs(init);
      GetSomeIff(init, s[|s| - 1].0);
      PutFacts(init, s[|s| - 1].0, s[|s| - 1].1);
      assert init + [s[|s| - 1]] == s;
    }
  }

  /** The dictionary built from `s` has distinct keys, no more entries than `s`, and exactly its keys. */
  lemma {:induction false} FromPairsKeys<K, V>(s: seq<(K, V)>)
    ensures DistinctKeys(FromPairs(s))
    ensures |FromPairs(s)| <= |s|
    ensures forall k :: Get(FromPairs(s), k).Some? <==> exists i :: 0 <= i < |s| && s[i].0 == k
  {
    if s != [] {
      var init, last := s[..|s| - 1], s[|s| - 1];
      FromPairsKeys(init);
      PutFacts(FromPairs(init), last.0, last.1);
      GetSomeIff(FromPairs(init), last.0);
      forall k ensures Get(FromPairs(s), k).Some? <==> exists i :: 0 <= i < |s| && s[i].0 == k {
        if k != last.0 && (exists i :: 0 <= i < |s| && s[i].0 == k) {
          var i :| 0 <= i < |s| && s[i].0 == k;
          assert init[i].0 == k;
        }
        if k == last.0 { assert s[|s| - 1].0 == k; }
        if exists i :: 0 <= i < |init| && init[i].0 == k {
          var i :| 0 <= i < |init| && init[i].0 == k;
          assert s[i].0 == k;
        }
      }
    }
  }

  /** Each key holds the last value assigned to it: "the last duplicate wins". */
  lemma {:induction false} FromPairsLastWins<K, V>(s: seq<(K, V)>, i: nat)
    requires i < |s|
    requires forall j :: i < j < |s| ==> s[j].0 != s[i].0
    ensures Get(FromPairs(s), s[i].0) == Some(s[i].1)
  {
    var init, last := s[..|s| - 1], s[|s| - 1];
    PutFacts(FromPairs(init), last.0, last.1);
    if i < |s| - 1 {
      assert init[i] == s[i];
      forall j | i < j < |init| ensures init[j].0 != init[i].0 {
        assert init[j] == s[j];
      }
      FromPairsLastWins(init, i);
    }
  }

  lemma FromPairsSnoc<K, V>(s: seq<(K, V)>, p: (K, V))
    ensures FromPairs(s + [p]) == Put(FromPairs(s), p.0, p.1)
  {
    assert (s + [p])[..|s|] == s;
  }

  /** Reordering pairs with distinct keys keeps their keys distinct. */
  lemma DistinctKeysPermutation<K, V>(a: seq<(K, V)>, b: seq<(K, V)>)
    requires multiset(a) == multiset(b) && DistinctKeys(a)
    ensures DistinctKeys(b)
  {
    forall i, j | 0 <= i < j < |b| ensures b[i].0 != b[j].0 {
      if b[i].0 == b[j].0 {
        assert b[i] in multiset(a) && b[j] in multiset(a);
        var i' :| 0 <= i' < |a| && a[i'] == b[i];
        var j' :| 0 <= j' < |a| && a[j'] == b[j];
        assert i' == j';
        CountTwo(b, i, j);
        CountAtMostOne(a, b[i]);
        assert false;
      }
    }
  }

  lemma CountTwo<T>(s: seq<T>, i: nat, j: nat)
    requires i < j < |s| && s[i] == s[j]
    ensures multiset(s)[s[i]] >= 2
  {
    assert s == s[..j] + [s[j]] + s[j + 1..];
    assert s[..j][i] == s[i];
    assert s[i] in multiset(s[..j]);
  }

  lemma {:induction false} CountAtMostOne<K, V>(a: seq<(K, V)>, x: (K, V))
    requires DistinctKeys(a)
    ensures multiset(a)[x] <= 1
  {
    if a != [] {
      var init := a[..|a| - 1];
      assert a == init + [a[|a| - 1]];
      forall i, j | 0 <= i < j < |init| ensures init[i].0 != init[j].0 {
        assert init[i] == a[i] && init[j] == a[j];
      }
      CountAtMostOne(init, x);
    }
  }

  /** Looking up in a dictionary with one more pair at the end. */
  lemma {:induction false} GetSnoc<K, V>(d: Dict<K, V>, p: (K, V), k: K)
    ensures Get(d + [p], k) == if Get(d, k).Some? then Get(d, k) else if p.0 == k then Some(p.1) else None
  {
    if d != [] {
      assert (d + [p])[1..] == d[1..] + [p];
      GetSnoc(d[1..], p, k);
    }
  }

  /** Building a dictionary loses no pair exactly when the keys are distinct. */
  lemma {:induction false} FromPairsLength<K, V>(s: seq<(K, V)>)
    ensures |FromPairs(s)| == |s| <==> DistinctKeys(s)
  {
    if DistinctKeys(s) {
      FromDistinctPairs(s);
    } else {
      FromPairsShrinks(s);
    }
  }

  lemma {:induction false} FromPairsShrinks<K, V>(s: seq<(K, V)>)
    requires !DistinctKeys(s)
    ensures |FromPairs(s)| < |s|
  {
    var init, last := s[..|s| - 1], s[|s| - 1];
    FromPairsKeys(init);
    PutFacts(FromPairs(init), last.0, last.1);
    if exists i :: 0 <= i < |init| && init[i].0 == last.0 {
    } else {
      assert !DistinctKeys(init) by {
        var i, j :| 0 <= i < j < |s| && s[i].0 == s[j].0;
        assert j < |init|;
        assert init[i] == s[i] && init[j] == s[j];
      }
      FromPairsShrinks(init);
    }
  }
}
