/** The ordering of query results. Every `.sort({...})` of the backend compares records field by
    field; here a record is mapped to a key, a sequence of integers compared lexicographically
    (a descending field contributes its negation, a string field its character codes), and the
    records are put in key order by a stable insertion sort. */
module Sorting {
  import opened Common

  /** Lexicographic "at most" on integer sequences; a proper prefix comes first. */
  predicate LexLe(a: seq<int>, b: seq<int>)
    decreases |a|
  {
    if a == [] then true
    else if b == [] then false
    else if a[0] != b[0] then a[0] < b[0]
    else LexLe(a[1..], b[1..])
  }

  lemma {:induction false} LexLeTotal(a: seq<int>, b: seq<int>)
    ensures LexLe(a, b) || LexLe(b, a)
    decreases |a|
  {
    if a != [] && b != [] && a[0] == b[0] {
      LexLeTotal(a[1..], b[1..]);
    }
  }

  lemma {:induction false} LexLeTransitive(a: seq<int>, b: seq<int>, c: seq<int>)
    requires LexLe(a, b) && LexLe(b, c)
    ensures LexLe(a, c)
    decreases |a|
  {
    if a != [] && b != [] && c != [] && a[0] == b[0] && b[0] == c[0] {
      LexLeTransitive(a[1..], b[1..], c[1..]);
    }
  }

  /** Two-field keys compare on the first field, then on the second. */
  lemma LexLePair(a1: int, a2: int, b1: int, b2: int)
    requires LexLe([a1, a2], [b1, b2])
    ensures a1 < b1 || (a1 == b1 && a2 <= b2)
  {
    if a1 == b1 {
      assert [a1, a2][1..] == [a2] && [b1, b2][1..] == [b2];
      assert LexLe([a2], [b2]);
      assert [a2][1..] == [];
    }
  }

  /** A key that starts with a field compares on that field, then on the rest. */
  lemma LexLeCons(a: int, x: seq<int>, b: int, y: seq<int>)
    requires LexLe([a] + x, [b] + y)
    ensures a < b || (a == b && LexLe(x, y))
  {
    if a == b {
      assert ([a] + x)[1..] == x && ([b] + y)[1..] == y;
    }
  }

  /** The character codes of a string: a string field's part of a sort key (binary order). */
  function StringKey(s: string): (k: seq<int>)
    ensures |k| == |s|
    ensures forall i :: 0 <= i < |s| ==> k[i] == s[i] as int
  {
    if s == [] then [] else [s[0] as int] + StringKey(s[1..])
  }

  /** `s` is in ascending key order. */
  ghost predicate SortedBy<T>(s: seq<T>, key: T -> seq<int>) {
    forall i, j :: 0 <= i < j < |s| ==> LexLe(key(s[i]), key(s[j]))
  }

  /** Puts `x` into the sorted `s` before the first element whose key is strictly greater, so
      that elements with equal keys keep their order. */
  function Insert<T>(x: T, s: seq<T>, key: T -> seq<int>): (r: seq<T>)
    ensures multiset(r) == multiset(s) + multiset{x}
    ensures |r| == |s| + 1
  {
    if s == [] then [x]
    else if !LexLe(key(s[0]), key(x)) then [x] + s
    else
      assert s == [s[0]] + s[1..];
      [s[0]] + Insert(x, s[1..], key)
  }

  /** The records of `s` in ascending key order; ties keep their order in `s`. */
  function SortBy<T>(s: seq<T>, key: T -> seq<int>): (r: seq<T>)
    ensures multiset(r) == multiset(s)
    ensures |r| == |s|
  {
    if s == [] then []
    else
      assert s == s[..|s| - 1] + [s[|s| - 1]];
      Insert(s[|s| - 1], SortBy(s[..|s| - 1], key), key)
  }

  lemma {:induction false} InsertSorted<T>(x: T, s: seq<T>, key: T -> seq<int>)
    requires SortedBy(s, key)
    ensures SortedBy(Insert(x, s, key), key)
    decreases |s|
  {
    if s == [] {
    } else if !LexLe(key(s[0]), key(x)) {
      LexLeTotal(key(s[0]), key(x));
      forall j | 1 <= j < |s| + 1
        ensures LexLe(key(x), key(([x] + s)[j]))
      {
        if j > 1 {
          LexLeTransitive(key(x), key(s[0]), key(s[j - 1]));
        }
      }
    } else {
      var t := Insert(x, s[1..], key);
      InsertSorted(x, s[1..], key);
      forall j | 0 <= j < |t|
        ensures LexLe(key(s[0]), key(t[j]))
      {
        assert t[j] in multiset(t);
        assert t[j] == x || t[j] in multiset(s[1..]);
        if t[j] != x {
          var k :| 1 <= k < |s| && s[k] == t[j];
        }
      }
    }
  }

  /** The result of SortBy is in ascending key order. */
  lemma {:induction false} SortBySorted<T>(s: seq<T>, key: T -> seq<int>)
    ensures SortedBy(SortBy(s, key), key)
    decreases |s|
  {
    if s != [] {
      SortBySorted(s[..|s| - 1], key);
      InsertSorted(s[|s| - 1], SortBy(s[..|s| - 1], key), key);
    }
  }

  /** Keeping a prefix of a sorted sequence (`.limit(n)`) keeps it sorted. */
  lemma TakeSorted<T>(s: seq<T>, n: nat, key: T -> seq<int>)
    requires SortedBy(s, key)
    ensures SortedBy(Take(s, n), key)
  {
  }

  /** Dropping elements (`.filter(...)`) keeps a sorted sequence sorted. */
  lemma {:induction false} FilterSorted<T>(s: seq<T>, p: T -> bool, key: T -> seq<int>)
    requires SortedBy(s, key)
    ensures SortedBy(Filter(s, p), key)
    decreases |s|
  {
    if s != [] {
      FilterSorted(s[1..], p, key);
      var t := Filter(s[1..], p);
      forall j | 0 <= j < |t|
        ensures LexLe(key(s[0]), key(t[j]))
      {
        assert t[j] in multiset(s[1..]);
        var k :| 0 <= k < |s[1..]| && s[1..][k] == t[j];
        assert s[k + 1] == t[j];
      }
    }
  }
}
