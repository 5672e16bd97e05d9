/**
 * Python's ordering of `str` values (code point by code point, a proper prefix
 * first) and `sorted(...)` of a set of strings.
 */
module StrOrder {
  predicate Less(a: string, b: string) {
    if |a| == 0 then |b| > 0
    else if |b| == 0 then false
    else if a[0] != b[0] then a[0] < b[0]
    else Less(a[1..], b[1..])
  }

  lemma {:induction false} LessIrreflexive(a: string)
    ensures !Less(a, a)
  {
    if |a| > 0 { LessIrreflexive(a[1..]); }
  }

  lemma {:induction false} LessTransitive(a: string, b: string, c: string)
    requires Less(a, b) && Less(b, c)
    ensures Less(a, c)
  {
    if |a| > 0 && |b| > 0 && |c| > 0 && a[0] == b[0] && b[0] == c[0] {
      LessTransitive(a[1..], b[1..], c[1..]);
    }
  }

  lemma {:induction false} LessTotal(a: string, b: string)
    ensures a == b || Less(a, b) || Less(b, a)
  {
    if |a| > 0 && |b| > 0 && a[0] == b[0] {
      LessTotal(a[1..], b[1..]);
      if a[1..] == b[1..] {
        assert a == [a[0]] + a[1..] && b == [b[0]] + b[1..];
      }
    }
  }

  /** Strictly increasing under `Less`: sorted and without repetitions. */
  ghost predicate Increasing(s: seq<string>) {
    forall i, j :: 0 <= i < j < |s| ==> Less(s[i], s[j])
  }

  /** Inserts `x` into an increasing sequence, keeping it increasing and without duplicates. */
  function Insert(t: seq<string>, x: string): seq<string> {
    if t == [] then [x]
    else if x == t[0] then t
    else if Less(x, t[0]) then [x] + t
    else [t[0]] + Insert(t[1..], x)
  }

  lemma {:induction false} InsertFacts(t: seq<string>, x: string)
    requires Increasing(t)
    ensures Increasing(Insert(t, x))
    ensures forall y :: y in Insert(t, x) <==> y in t || y == x
  {
    if t != [] && x != t[0] {
      if Less(x, t[0]) {
        forall j | 0 < j < |t| + 1 ensures Less(x, ([x] + t)[j]) {
          if j > 1 { LessTransitive(x, t[0], t[j - 1]); }
        }
      } else {
        LessTotal(x, t[0]);
        var tail := t[1..];
        assert Increasing(tail) by {
          forall i, j | 0 <= i < j < |tail| ensures Less(tail[i], tail[j]) {
            assert tail[i] == t[i + 1] && tail[j] == t[j + 1];
          }
        }
        InsertFacts(tail, x);
        var r := [t[0]] + Insert(tail, x);
        forall j | 0 < j < |r| ensures Less(t[0], r[j]) {
          var y := r[j];
          assert y in Insert(tail, x);
          if y != x {
            var k :| 0 <= k < |tail| && tail[k] == y;
            assert t[k + 1] == y;
          }
        }
        forall i, j | 0 <= i < j < |r| ensures Less(r[i], r[j]) {
          if i > 0 {
            assert r[i] == Insert(tail, x)[i - 1] && r[j] == Insert(tail, x)[j - 1];
          }
        }
        assert t == [t[0]] + tail;
      }
    }
  }

  /** `sorted(list(s))`: the members of `s` in increasing order. */
  method SortedList(s: set<string>) returns (r: seq<string>)
    ensures Increasing(r)
    ensures forall x :: x in r <==> x in s
  {
    r := [];
    var rest := s;
    while rest != {}
      invariant rest <= s
      invariant Increasing(r)
      invariant forall x :: x in r <==> x in s && x !in rest
      decreases rest
    {
      var x :| x in rest;
      InsertFacts(r, x);
      r := Insert(r, x);
      rest := rest - {x};
    }
  }

  /** An increasing sequence is determined by its members: `sorted` has one answer. */
  lemma {:induction false} IncreasingUnique(a: seq<string>, b: seq<string>)
    requires Increasing(a) && Increasing(b)
    requires forall x :: x in a <==> x in b
    ensures a == b
  {
    if a != [] && b != [] {
      if a[0] != b[0] {
        assert a[0] in b && b[0] in a;
        var k :| 0 <= k < |b| && b[k] == a[0];
        var m :| 0 <= m < |a| && a[m] == b[0];
        assert Less(b[0], a[0]) && Less(a[0], b[0]);
        LessTransitive(a[0], b[0], a[0]);
        LessIrreflexive(a[0]);
      }
      var ta, tb := a[1..], b[1..];
      assert Increasing(ta) by {
        forall i, j | 0 <= i < j < |ta| ensures Less(ta[i], ta[j]) {
          assert ta[i] == a[i + 1] && ta[j] == a[j + 1];
        }
      }
      assert Increasing(tb) by {
        forall i, j | 0 <= i < j < |tb| ensures Less(tb[i], tb[j]) {
          assert tb[i] == b[i + 1] && tb[j] == b[j + 1];
        }
      }
      forall x ensures x in ta <==> x in tb {
        if x in ta {
          var i :| 0 <= i < |ta| && ta[i] == x;
          assert a[i + 1] == x && Less(a[0], x);
          LessIrreflexive(x);
          assert x in b;
          var j :| 0 <= j < |b| && b[j] == x;
          assert j != 0;
          assert tb[j - 1] == x;
        }
        if x in tb {
          var i :| 0 <= i < |tb| && tb[i] == x;
          assert b[i + 1] == x && Less(b[0], x);
          LessIrreflexive(x);
          assert x in a;
          var j :| 0 <= j < |a| && a[j] == x;
          assert j != 0;
          assert ta[j - 1] == x;
        }
      }
      IncreasingUnique(ta, tb);
      assert a == [a[0]] + ta && b == [b[0]] + tb;
    } else {
      SameMembersEmpty(a, b);
    }
  }

  lemma SameMembersEmpty(a: seq<string>, b: seq<string>)
    requires forall x :: x in a <==> x in b
    ensures a == [] <==> b == []
  {
    if a != [] {
      assert a[0] in a;
    }
    if b != [] {
      assert b[0] in b;
    }
  }
}
