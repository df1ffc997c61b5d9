/**
 * Selection and ordering of rows, the two things the repository queries do:
 * a WHERE clause is a `Filter`, an ORDER BY clause a `Sort` on an integer key.
 */
module Sequences {

  /** The rows of `s` that `keep` accepts, in their original order. */
  function Filter<T(==)>(s: seq<T>, keep: T -> bool): (r: seq<T>)
    ensures forall i :: 0 <= i < |r| ==> r[i] in s && keep(r[i])
    ensures forall i :: 0 <= i < |s| && keep(s[i]) ==> s[i] in r
    ensures multiset(r) <= multiset(s)
  {
    if s == [] then []
    else
      assert s == [s[0]] + s[1..];
      (if keep(s[0]) then [s[0]] else []) + Filter(s[1..], keep)
  }

  lemma {:induction false} FilterCongruent<T>(s: seq<T>, p: T -> bool, q: T -> bool)
    requires forall i :: 0 <= i < |s| ==> p(s[i]) == q(s[i])
    ensures Filter(s, p) == Filter(s, q)
  {
    if s != [] {
      FilterCongruent(s[1..], p, q);
    }
  }

  /** Two sequences with the same multiset of rows have the same members. */
  lemma SameMembers<T>(a: seq<T>, b: seq<T>)
    requires multiset(a) == multiset(b)
    ensures forall i :: 0 <= i < |a| ==> a[i] in b
    ensures forall j :: 0 <= j < |b| ==> b[j] in a
  {
    forall i | 0 <= i < |a| ensures a[i] in b {
      assert a[i] in multiset(a);
    }
    forall j | 0 <= j < |b| ensures b[j] in a {
      assert b[j] in multiset(b);
    }
  }

  predicate SortedBy<T>(s: seq<T>, key: T -> int) {
    forall i, j :: 0 <= i < j < |s| ==> key(s[i]) <= key(s[j])
  }

  predicate StrictlySortedBy<T>(s: seq<T>, key: T -> int) {
    forall i, j :: 0 <= i < j < |s| ==> key(s[i]) < key(s[j])
  }

  /** Inserts `x` before the first row whose key is not smaller. */
  function Insert<T>(x: T, s: seq<T>, key: T -> int): (r: seq<T>)
    requires SortedBy(s, key)
    ensures SortedBy(r, key)
    ensures multiset(r) == multiset(s) + multiset{x}
  {
    if s == [] || key(x) <= key(s[0]) then [x] + s
    else
      TailSorted(s, key);
      var rest := Insert(x, s[1..], key);
      LowerBoundKept(rest, s[1..], x, key(s[0]), key);
      ConsSorted(s[0], rest, key);
      assert multiset(s) == multiset([s[0]]) + multiset(s[1..]) by {
        assert s == [s[0]] + s[1..];
      }
      [s[0]] + rest
  }

  /** A lower bound on the keys of `m` and of `x` bounds every row of a permutation of `m + [x]`. */
  lemma LowerBoundKept<T>(rest: seq<T>, m: seq<T>, x: T, lo: int, key: T -> int)
    requires multiset(rest) == multiset(m) + multiset{x}
    requires lo <= key(x)
    requires forall i :: 0 <= i < |m| ==> lo <= key(m[i])
    ensures forall i :: 0 <= i < |rest| ==> lo <= key(rest[i])
  {
    forall i | 0 <= i < |rest| ensures lo <= key(rest[i]) {
      assert rest[i] in multiset(rest);
      if rest[i] != x {
        assert rest[i] in multiset(m);
        var k :| 0 <= k < |m| && m[k] == rest[i];
      }
    }
  }

  lemma TailSorted<T>(s: seq<T>, key: T -> int)
    requires s != [] && SortedBy(s, key)
    ensures SortedBy(s[1..], key)
    ensures forall i :: 0 <= i < |s[1..]| ==> key(s[0]) <= key(s[1..][i])
  {
    var tail := s[1..];
    forall i, j | 0 <= i < j < |tail| ensures key(tail[i]) <= key(tail[j]) {
      assert tail[i] == s[i + 1] && tail[j] == s[j + 1];
    }
    forall i | 0 <= i < |tail| ensures key(s[0]) <= key(tail[i]) {
      assert tail[i] == s[i + 1];
    }
  }

  lemma ConsSorted<T>(y: T, rest: seq<T>, key: T -> int)
    requires SortedBy(rest, key)
    requires forall i :: 0 <= i < |rest| ==> key(y) <= key(rest[i])
    ensures SortedBy([y] + rest, key)
  {
    var r := [y] + rest;
    forall i, j | 0 <= i < j < |r| ensures key(r[i]) <= key(r[j]) {
      assert r[j] == rest[j - 1];
      if i > 0 {
        assert r[i] == rest[i - 1];
      }
    }
  }

  /** Insertion sort: a permutation of `s` in ascending key order. */
  function Sort<T>(s: seq<T>, key: T -> int): (r: seq<T>)
    ensures SortedBy(r, key)
    ensures multiset(r) == multiset(s)
  {
    if s == [] then []
    else
      assert s == [s[0]] + s[1..];
      Insert(s[0], Sort(s[1..], key), key)
  }

  /** Sorting rows that are already in key order leaves them where they are. */
  lemma {:induction false} SortOfSorted<T>(s: seq<T>, key: T -> int)
    requires SortedBy(s, key)
    ensures Sort(s, key) == s
  {
    if s != [] {
      SortOfSorted(s[1..], key);
    }
  }

  /** A strict lower bound on the keys of `s` bounds the keys of any selection from it. */
  lemma {:induction false} FilterLowerBound<T>(s: seq<T>, keep: T -> bool, key: T -> int, lo: int)
    requires forall i :: 0 <= i < |s| ==> lo < key(s[i])
    ensures forall i :: 0 <= i < |Filter(s, keep)| ==> lo < key(Filter(s, keep)[i])
  {
    if s != [] {
      FilterLowerBound(s[1..], keep, key, lo);
    }
  }

  lemma ConsStrictlySorted<T>(y: T, rest: seq<T>, key: T -> int)
    requires StrictlySortedBy(rest, key)
    requires forall i :: 0 <= i < |rest| ==> key(y) < key(rest[i])
    ensures StrictlySortedBy([y] + rest, key)
  {
    var r := [y] + rest;
    forall i, j | 0 <= i < j < |r| ensures key(r[i]) < key(r[j]) {
      assert r[j] == rest[j - 1];
      if i > 0 {
        assert r[i] == rest[i - 1];
      }
    }
  }

  lemma TailStrictlySorted<T>(s: seq<T>, key: T -> int)
    requires s != [] && StrictlySortedBy(s, key)
    ensures StrictlySortedBy(s[1..], key)
    ensures forall i :: 0 <= i < |s[1..]| ==> key(s[0]) < key(s[1..][i])
  {
    var tail := s[1..];
    forall i, j | 0 <= i < j < |tail| ensures key(tail[i]) < key(tail[j]) {
      assert tail[i] == s[i + 1] && tail[j] == s[j + 1];
    }
    forall i | 0 <= i < |tail| ensures key(s[0]) < key(tail[i]) {
      assert tail[i] == s[i + 1];
    }
  }

  /** A selection keeps the strict key order of the rows it selects from. */
  lemma {:induction false} FilterKeepsStrictOrder<T>(s: seq<T>, keep: T -> bool, key: T -> int)
    requires StrictlySortedBy(s, key)
    ensures StrictlySortedBy(Filter(s, keep), key)
  {
    if s != [] {
      TailStrictlySorted(s, key);
      FilterKeepsStrictOrder(s[1..], keep, key);
      if keep(s[0]) {
        FilterLowerBound(s[1..], keep, key, key(s[0]));
        ConsStrictlySorted(s[0], Filter(s[1..], keep), key);
      }
    }
  }
}
