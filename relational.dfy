/**
 * The two relational steps that follow aggregation in the ranking queries:
 * `WHERE` (a filter that keeps row order) and `ORDER BY <key> DESC`.  SQL
 * leaves the order of rows with equal keys open; the model fixes it by
 * sorting stably (insertion sort), so ties keep their input order.
 */
module Relational {

  /** Rows of `s` satisfying `keep`, in their original order. */
  function Filter<T(!new)>(s: seq<T>, keep: T -> bool): (r: seq<T>)
    ensures |r| <= |s|
    ensures forall x :: x in r <==> x in s && keep(x)
  {
    if s == [] then [] else (if keep(s[0]) then [s[0]] else []) + Filter(s[1..], keep)
  }

  lemma {:induction false} FilterMultiset<T(!new)>(s: seq<T>, keep: T -> bool)
    ensures multiset(Filter(s, keep)) <= multiset(s)
    ensures forall x :: keep(x) ==> multiset(Filter(s, keep))[x] == multiset(s)[x]
  {
    if s != [] {
      FilterMultiset(s[1..], keep);
      assert s == [s[0]] + s[1..];
    }
  }

  ghost predicate NonIncreasing<T>(s: seq<T>, key: T -> int) {
    forall i, j :: 0 <= i < j < |s| ==> key(s[i]) >= key(s[j])
  }

  /**
   * Places `x` after every leading element whose key exceeds `key(x)`, so
   * `x` goes before the elements whose key equals its own.
   */
  function Insert<T>(x: T, s: seq<T>, key: T -> int): (r: seq<T>)
    ensures |r| == |s| + 1
    ensures multiset(r) == multiset(s) + multiset{x}
  {
    if s == [] then [x]
    else if key(s[0]) > key(x) then
      assert s == [s[0]] + s[1..];
      [s[0]] + Insert(x, s[1..], key)
    else [x] + s
  }

  lemma {:induction false} InsertKeepsOrder<T>(x: T, s: seq<T>, key: T -> int)
    requires NonIncreasing(s, key)
    ensures NonIncreasing(Insert(x, s, key), key)
  {
    if s == [] {
    } else if key(s[0]) > key(x) {
      InsertKeepsOrder(x, s[1..], key);
      InsertKeepsBound(x, s[1..], key, key(s[0]));
      ConsKeepsOrder(s[0], Insert(x, s[1..], key), key);
    } else {
      ConsKeepsOrder(x, s, key);
    }
  }

  /** Inserting an element no larger than `bound` keeps every key at most `bound`. */
  lemma InsertKeepsBound<T>(x: T, s: seq<T>, key: T -> int, bound: int)
    requires key(x) <= bound
    requires forall k :: 0 <= k < |s| ==> key(s[k]) <= bound
    ensures forall k :: 0 <= k < |s| + 1 ==> key(Insert(x, s, key)[k]) <= bound
  {
    var r := Insert(x, s, key);
    forall k | 0 <= k < |r| ensures key(r[k]) <= bound {
      assert r[k] in multiset(r);
      if r[k] != x {
        assert r[k] in multiset(s);
        var m :| 0 <= m < |s| && s[m] == r[k];
      }
    }
  }

  lemma ConsKeepsOrder<T>(h: T, s: seq<T>, key: T -> int)
    requires NonIncreasing(s, key)
    requires forall k :: 0 <= k < |s| ==> key(s[k]) <= key(h)
    ensures NonIncreasing([h] + s, key)
  {
    var r := [h] + s;
    forall i, j | 0 <= i < j < |r| ensures key(r[i]) >= key(r[j]) {
      assert r[j] == s[j - 1];
      if i > 0 {
        assert r[i] == s[i - 1];
      }
    }
  }

  /**
   * `ORDER BY key DESC`, stable: each element is inserted, from the last to
   * the first, before the equal keys already placed.
   */
  function SortDesc<T>(s: seq<T>, key: T -> int): (r: seq<T>)
    ensures |r| == |s|
    ensures multiset(r) == multiset(s)
    ensures NonIncreasing(r, key)
  {
    if s == [] then []
    else
      assert s == [s[0]] + s[1..];
      InsertKeepsOrder(s[0], SortDesc(s[1..], key), key);
      Insert(s[0], SortDesc(s[1..], key), key)
  }

  /**
   * Input already in order comes out unchanged; in particular rows with
   * equal keys keep their input order.
   */
  lemma {:induction false} SortDescKeepsSorted<T>(s: seq<T>, key: T -> int)
    requires NonIncreasing(s, key)
    ensures SortDesc(s, key) == s
  {
    if s != [] {
      assert NonIncreasing(s[1..], key) by {
        forall i, j | 0 <= i < j < |s[1..]| ensures key(s[1..][i]) >= key(s[1..][j]) {
          assert s[1..][i] == s[i + 1] && s[1..][j] == s[j + 1];
        }
      }
      SortDescKeepsSorted(s[1..], key);
      assert 0 < |s| - 1 ==> key(s[1..][0]) <= key(s[0]) by {
        if 0 < |s| - 1 { assert s[1..][0] == s[1]; }
      }
      InsertAtFront(s[0], s[1..], key);
      assert s == [s[0]] + s[1..];
    }
  }

  /** An element whose key is at least every key of `s` is inserted first. */
  lemma InsertAtFront<T>(x: T, s: seq<T>, key: T -> int)
    requires s == [] || key(s[0]) <= key(x)
    ensures Insert(x, s, key) == [x] + s
  {
  }

  /** `WHERE keep ORDER BY key DESC` keeps exactly the rows satisfying `keep`. */
  lemma SortedFilterMembers<T(!new)>(s: seq<T>, keep: T -> bool, key: T -> int)
    ensures forall x :: x in SortDesc(Filter(s, keep), key) <==> x in s && keep(x)
  {
    var f := Filter(s, keep);
    var r := SortDesc(f, key);
    forall x ensures x in r <==> x in f {
      assert x in r <==> x in multiset(r);
      assert x in f <==> x in multiset(f);
    }
  }

  ghost predicate DistinctBy<T, K>(s: seq<T>, f: T -> K) {
    forall i, j :: 0 <= i < j < |s| ==> f(s[i]) != f(s[j])
  }

  lemma {:induction false} FilterDistinct<T(!new), K>(s: seq<T>, keep: T -> bool, f: T -> K)
    requires DistinctBy(s, f)
    ensures DistinctBy(Filter(s, keep), f)
  {
    if s != [] {
      assert DistinctBy(s[1..], f) by {
        forall i, j | 0 <= i < j < |s[1..]| ensures f(s[1..][i]) != f(s[1..][j]) {
          assert s[1..][i] == s[i + 1] && s[1..][j] == s[j + 1];
        }
      }
      FilterDistinct(s[1..], keep, f);
      var rest := Filter(s[1..], keep);
      forall y | y in rest ensures f(y) != f(s[0]) {
        var k :| 0 <= k < |s[1..]| && s[1..][k] == y;
        assert s[k + 1] == y;
      }
    }
  }

  lemma {:induction false} InsertDistinct<T, K>(x: T, s: seq<T>, key: T -> int, f: T -> K)
    requires DistinctBy(s, f)
    requires forall k :: 0 <= k < |s| ==> f(s[k]) != f(x)
    ensures DistinctBy(Insert(x, s, key), f)
  {
    if s != [] && key(s[0]) > key(x) {
      assert DistinctBy(s[1..], f) by {
        forall i, j | 0 <= i < j < |s[1..]| ensures f(s[1..][i]) != f(s[1..][j]) {
          assert s[1..][i] == s[i + 1] && s[1..][j] == s[j + 1];
        }
      }
      InsertDistinct(x, s[1..], key, f);
      var rest := Insert(x, s[1..], key);
      assert s == [s[0]] + s[1..];
      forall y | y in rest ensures f(y) != f(s[0]) {
        assert y in multiset(rest);
        if y != x {
          assert y in multiset(s[1..]);
          var k :| 0 <= k < |s[1..]| && s[1..][k] == y;
          assert s[k + 1] == y;
        }
      }
    }
  }

  /** Sorting keeps keys distinct: it neither duplicates nor merges rows. */
  lemma {:induction false} SortDescDistinct<T, K>(s: seq<T>, key: T -> int, f: T -> K)
    requires DistinctBy(s, f)
    ensures DistinctBy(SortDesc(s, key), f)
  {
    if s != [] {
      assert DistinctBy(s[1..], f) by {
        forall i, j | 0 <= i < j < |s[1..]| ensures f(s[1..][i]) != f(s[1..][j]) {
          assert s[1..][i] == s[i + 1] && s[1..][j] == s[j + 1];
        }
      }
      SortDescDistinct(s[1..], key, f);
      var sorted := SortDesc(s[1..], key);
      forall k | 0 <= k < |sorted| ensures f(sorted[k]) != f(s[0]) {
        assert sorted[k] in multiset(s[1..]);
        var m :| 0 <= m < |s[1..]| && s[1..][m] == sorted[k];
        assert s[m + 1] == sorted[k];
      }
      InsertDistinct(s[0], sorted, key, f);
    }
  }
}
