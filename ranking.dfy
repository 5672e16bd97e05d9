/**
 * Ordering helpers shared by the generator and the selectors: Python's stable
 * `list.sort(key=lambda x: x[1], reverse=True)` on (key, score) pairs, the
 * percentile `(N - i) / N * 100` of sorted position `i`, and the slice `s[:n]`.
 */
module Ranking {
  ghost predicate NonIncreasing<K>(s: seq<(K, real)>) {
    forall i, j :: 0 <= i < j < |s| ==> s[i].1 >= s[j].1
  }

  /** Inserts `x` into a non-increasing `t` after every entry whose score is at least `x`'s. */
  function Insert<K>(t: seq<(K, real)>, x: (K, real)): seq<(K, real)> {
    if t == [] || x.1 > t[0].1 then [x] + t else [t[0]] + Insert(t[1..], x)
  }

  /** Stable sort, highest score first (insertion sort from the left). */
  function SortDesc<K>(s: seq<(K, real)>): seq<(K, real)> {
    if s == [] then [] else Insert(SortDesc(s[..|s| - 1]), s[|s| - 1])
  }

  /** The entries of `s` whose score is `v`, in their order in `s`. */
  function WithScore<K>(s: seq<(K, real)>, v: real): seq<(K, real)> {
    if s == [] then [] else (if s[0].1 == v then [s[0]] else []) + WithScore(s[1..], v)
  }

  lemma {:induction false} WithScoreAppend<K>(a: seq<(K, real)>, b: seq<(K, real)>, v: real)
    ensures WithScore(a + b, v) == WithScore(a, v) + WithScore(b, v)
  {
    if a != [] {
      assert (a + b)[1..] == a[1..] + b;
      WithScoreAppend(a[1..], b, v);
    } else {
      assert a + b == b;
    }
  }

  lemma {:induction false} WithScoreNone<K>(t: seq<(K, real)>, v: real)
    requires forall i :: 0 <= i < |t| ==> t[i].1 < v
    ensures WithScore(t, v) == []
  {
    if t != [] { WithScoreNone(t[1..], v); }
  }

  lemma {:induction false} InsertPermutes<K>(t: seq<(K, real)>, x: (K, real))
    ensures multiset(Insert(t, x)) == multiset(t) + multiset{x}
    ensures |Insert(t, x)| == |t| + 1
  {
    if t != [] && x.1 <= t[0].1 {
      InsertPermutes(t[1..], x);
      assert t == [t[0]] + t[1..];
    }
  }

  lemma TailNonIncreasing<K>(t: seq<(K, real)>)
    requires NonIncreasing(t) && t != []
    ensures NonIncreasing(t[1..])
    ensures forall i :: 0 <= i < |t[1..]| ==> t[1..][i].1 <= t[0].1
  {
    forall i, j | 0 <= i < j < |t[1..]| ensures t[1..][i].1 >= t[1..][j].1 {
      assert t[1..][i] == t[i + 1] && t[1..][j] == t[j + 1];
    }
    forall i | 0 <= i < |t[1..]| ensures t[1..][i].1 <= t[0].1 {
      assert t[1..][i] == t[i + 1];
    }
  }

  lemma {:induction false} InsertSorted<K>(t: seq<(K, real)>, x: (K, real))
    requires NonIncreasing(t)
    ensures NonIncreasing(Insert(t, x))
  {
    if t == [] || x.1 > t[0].1 {
      var r := [x] + t;
      assert Insert(t, x) == r;
      forall i, j | 0 <= i < j < |r| ensures r[i].1 >= r[j].1 {
        assert r[j] == t[j - 1];
        if i > 0 {
          assert r[i] == t[i - 1];
        } else if j > 1 {
          assert t[0].1 >= t[j - 1].1;
        }
      }
    } else {
      var tail := t[1..];
      TailNonIncreasing(t);
      InsertSorted(tail, x);
      InsertBounded(tail, x, t[0].1);
      var ins := Insert(tail, x);
      var r := [t[0]] + ins;
      assert Insert(t, x) == r;
      forall i, j | 0 <= i < j < |r| ensures r[i].1 >= r[j].1 {
        assert r[j] == ins[j - 1];
        if i > 0 { assert r[i] == ins[i - 1]; }
      }
    }
  }

  /** Inserting below a bound keeps every score below it. */
  lemma {:induction false} InsertBounded<K>(t: seq<(K, real)>, x: (K, real), b: real)
    requires forall i :: 0 <= i < |t| ==> t[i].1 <= b
    requires x.1 <= b
    ensures forall i :: 0 <= i < |Insert(t, x)| ==> Insert(t, x)[i].1 <= b
  {
    if t == [] || x.1 > t[0].1 {
      var r := [x] + t;
      assert Insert(t, x) == r;
      forall i | 0 <= i < |r| ensures r[i].1 <= b {
        if i > 0 { assert r[i] == t[i - 1]; }
      }
    } else {
      var tail := t[1..];
      forall i | 0 <= i < |tail| ensures tail[i].1 <= b {
        assert tail[i] == t[i + 1];
      }
      InsertBounded(tail, x, b);
      var r := [t[0]] + Insert(tail, x);
      assert Insert(t, x) == r;
      forall i | 0 <= i < |r| ensures r[i].1 <= b {
        if i > 0 { assert r[i] == Insert(tail, x)[i - 1]; }
      }
    }
  }

  lemma {:induction false} InsertStable<K>(t: seq<(K, real)>, x: (K, real), v: real)
    requires NonIncreasing(t)
    ensures WithScore(Insert(t, x), v) == WithScore(t, v) + (if x.1 == v then [x] else [])
  {
    if t == [] || x.1 > t[0].1 {
      assert ([x] + t)[1..] == t;
      if x.1 == v {
        forall i | 0 <= i < |t| ensures t[i].1 < v {
          if i > 0 { assert t[0].1 >= t[i].1; }
        }
        WithScoreNone(t, v);
      }
    } else {
      TailNonIncreasing(t);
      InsertStable(t[1..], x, v);
      assert ([t[0]] + Insert(t[1..], x))[1..] == Insert(t[1..], x);
    }
  }

  /**
   * The sort returns a non-increasing permutation of its input, and entries with
   * equal scores keep their input order (the sort is stable).
   */
  lemma SortDescFacts<K>(s: seq<(K, real)>)
    ensures |SortDesc(s)| == |s|
    ensures multiset(SortDesc(s)) == multiset(s)
    ensures NonIncreasing(SortDesc(s))
    ensures forall v :: WithScore(SortDesc(s), v) == WithScore(s, v)
  {
    SortDescPermutes(s);
    SortDescSorted(s);
    forall v ensures WithScore(SortDesc(s), v) == WithScore(s, v) {
      SortDescStable(s, v);
    }
  }

  lemma {:induction false} SortDescPermutes<K>(s: seq<(K, real)>)
    ensures |SortDesc(s)| == |s|
    ensures multiset(SortDesc(s)) == multiset(s)
  {
    if s != [] {
      var init, last := s[..|s| - 1], s[|s| - 1];
      SortDescPermutes(init);
      InsertPermutes(SortDesc(init), last);
      assert s == init + [last];
    }
  }

  lemma {:induction false} SortDescSorted<K>(s: seq<(K, real)>)
    ensures NonIncreasing(SortDesc(s))
  {
    if s != [] {
      SortDescSorted(s[..|s| - 1]);
      InsertSorted(SortDesc(s[..|s| - 1]), s[|s| - 1]);
    }
  }

  lemma {:induction false} SortDescStable<K>(s: seq<(K, real)>, v: real)
    ensures WithScore(SortDesc(s), v) == WithScore(s, v)
  {
    if s != [] {
      var init, last := s[..|s| - 1], s[|s| - 1];
      SortDescStable(init, v);
      SortDescSorted(init);
      InsertStable(SortDesc(init), last, v);
      assert s == init + [last];
      WithScoreAppend(init, [last], v);
      assert [last][1..] == [];
    }
  }

  /** The percentile of zero-based position `i` among `n` ranked entries. */
  function Percentile(n: nat, i: nat): real
    requires i < n
  {
    (n - i) as real / n as real * 100.0
  }

  /** The top position scores exactly 100, the bottom 100 / n, and every score lies in (0, 100]. */
  lemma PercentileBounds(n: nat, i: nat)
    requires i < n
    ensures 0.0 < Percentile(n, i) <= 100.0
    ensures i == 0 ==> Percentile(n, i) == 100.0
    ensures i == n - 1 ==> Percentile(n, i) == 100.0 / n as real
  {
    var a, b := (n - i) as real, n as real;
    assert a <= b;
    assert a / b <= 1.0;
  }

  /** Scores strictly decrease with the position, so no two positions share a score. */
  lemma PercentileDecreasing(n: nat, i: nat, j: nat)
    requires i < j < n
    ensures Percentile(n, i) > Percentile(n, j)
  {
    var a, b, c := (n - i) as real, (n - j) as real, n as real;
    assert a > b;
    assert a / c > b / c;
  }

  /** Python's `s[:n]` (and pandas' `head(n)`): a negative `n` drops that many entries from the end. */
  function Take<T>(s: seq<T>, n: int): (r: seq<T>)
    ensures |r| <= |s| && r == s[..|r|]
    ensures n >= 0 ==> |r| == if n < |s| then n else |s|
    ensures n < 0 ==> |r| == if |s| + n > 0 then |s| + n else 0
  {
    if n >= 0 then (if n < |s| then s[..n] else s)
    else if |s| + n > 0 then s[..|s| + n] else []
  }
}
