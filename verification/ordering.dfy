/** Orderings used by `ORDER BY`: a stable insertion sort over any total
    preorder, and the code-point lexicographic order on strings. */
module Ordering {

  ghost predicate Total<T(!new)>(le: (T, T) -> bool) {
    forall a, b :: le(a, b) || le(b, a)
  }

  ghost predicate Transitive<T(!new)>(le: (T, T) -> bool) {
    forall a, b, c :: le(a, b) && le(b, c) ==> le(a, c)
  }

  ghost predicate TotalPreorder<T(!new)>(le: (T, T) -> bool) {
    Total(le) && Transitive(le)
  }

  predicate SortedBy<T>(s: seq<T>, le: (T, T) -> bool) {
    forall i, j | 0 <= i < j < |s| :: le(s[i], s[j])
  }

  /** Inserts `x` before the first element it is `le` to. */
  function InsertSorted<T(==, !new)>(x: T, s: seq<T>, le: (T, T) -> bool): (r: seq<T>)
    requires TotalPreorder(le) && SortedBy(s, le)
    ensures SortedBy(r, le)
    ensures multiset(r) == multiset(s) + multiset{x}
  {
    if |s| == 0 then [x]
    else if le(x, s[0]) then
      assert forall j | 0 <= j < |s| :: le(x, s[j]);
      [x] + s
    else
      var rest := InsertSorted(x, s[1..], le);
      assert s == [s[0]] + s[1..];
      assert forall j | 0 <= j < |rest| :: le(s[0], rest[j]) by {
        forall j | 0 <= j < |rest| ensures le(s[0], rest[j]) {
          assert rest[j] in multiset(rest);
          if rest[j] != x {
            assert rest[j] in multiset(s[1..]);
            var k :| 0 <= k < |s[1..]| && s[1..][k] == rest[j];
            assert s[k + 1] == rest[j];
          }
        }
      }
      [s[0]] + rest
  }

  /** Stable insertion sort: the result is sorted and a permutation of `s`. */
  function SortBy<T(==, !new)>(s: seq<T>, le: (T, T) -> bool): (r: seq<T>)
    requires TotalPreorder(le)
    ensures SortedBy(r, le)
    ensures multiset(r) == multiset(s) && |r| == |s|
  {
    if |s| == 0 then []
    else
      assert s == [s[0]] + s[1..];
      InsertSorted(s[0], SortBy(s[1..], le), le)
  }

  /** In a sorted sequence every element of the first `k` is `le` to every
      element left out: `ORDER BY ... LIMIT k` keeps the first `k` in order. */
  lemma SortedPrefixDominates<T>(s: seq<T>, le: (T, T) -> bool, k: nat)
    requires SortedBy(s, le) && k <= |s|
    ensures forall i, j | 0 <= i < k <= j < |s| :: le(s[i], s[j])
    ensures SortedBy(s[..k], le)
  {
  }

  /** Code-point lexicographic order on strings (Python's `<=` on `str`). */
  predicate StrLe(a: string, b: string) {
    if |a| == 0 then true
    else if |b| == 0 then false
    else if a[0] != b[0] then a[0] < b[0]
    else StrLe(a[1..], b[1..])
  }

  lemma {:induction false} StrLeTotal(a: string, b: string)
    ensures StrLe(a, b) || StrLe(b, a)
    decreases |a|
  {
    if |a| > 0 && |b| > 0 && a[0] == b[0] {
      StrLeTotal(a[1..], b[1..]);
    }
  }

  lemma {:induction false} StrLeTransitive(a: string, b: string, c: string)
    requires StrLe(a, b) && StrLe(b, c)
    ensures StrLe(a, c)
    decreases |a|
  {
    if |a| > 0 && |b| > 0 && |c| > 0 && a[0] == b[0] && b[0] == c[0] {
      StrLeTransitive(a[1..], b[1..], c[1..]);
    }
  }

  lemma {:induction false} StrLeAntisymmetric(a: string, b: string)
    requires StrLe(a, b) && StrLe(b, a)
    ensures a == b
    decreases |a|
  {
    if |a| > 0 && |b| > 0 {
      StrLeAntisymmetric(a[1..], b[1..]);
      assert a == [a[0]] + a[1..] && b == [b[0]] + b[1..];
    }
  }

  /** Ordering records by a string key is a total preorder. */
  lemma StrKeyPreorder<T(!new)>(key: T -> string, le: (T, T) -> bool)
    requires forall x, y :: le(x, y) == StrLe(key(x), key(y))
    ensures TotalPreorder(le)
  {
    forall x: T, y: T ensures le(x, y) || le(y, x) {
      StrLeTotal(key(x), key(y));
    }
    forall x: T, y: T, z: T | le(x, y) && le(y, z)
      ensures le(x, z)
    {
      StrLeTransitive(key(x), key(y), key(z));
    }
  }

  /** Ordering records by an integer key, largest first (`ORDER BY key
      DESC`), is a total preorder. */
  lemma IntKeyDescPreorder<T(!new)>(key: T -> int, le: (T, T) -> bool)
    requires forall x, y :: le(x, y) == (key(x) >= key(y))
    ensures TotalPreorder(le)
  {
  }

  /** Ordering records by an integer key, smallest first (`ORDER BY key`),
      is a total preorder. */
  lemma IntKeyAscPreorder<T(!new)>(key: T -> int, le: (T, T) -> bool)
    requires forall x, y :: le(x, y) == (key(x) <= key(y))
    ensures TotalPreorder(le)
  {
  }

  /** A permutation has the same elements. */
  lemma SameElements<T>(a: seq<T>, b: seq<T>)
    requires multiset(a) == multiset(b)
    ensures forall x :: x in a <==> x in b
  {
    forall x ensures x in a <==> x in b {
      assert x in a <==> x in multiset(a);
      assert x in b <==> x in multiset(b);
    }
  }

  /** A relation holds between every two elements at distinct positions. */
  predicate Pairwise<T>(s: seq<T>, rel: (T, T) -> bool) {
    forall i, j | 0 <= i < j < |s| :: rel(s[i], s[j])
  }

  lemma {:induction false} PairwiseInsert<T(!new)>(x: T, s: seq<T>, le: (T, T) -> bool, rel: (T, T) -> bool)
    requires TotalPreorder(le) && SortedBy(s, le)
    requires forall a, b :: rel(a, b) == rel(b, a)
    requires Pairwise(s, rel) && forall j | 0 <= j < |s| :: rel(x, s[j])
    ensures Pairwise(InsertSorted(x, s, le), rel)
  {
    if |s| > 0 && !le(x, s[0]) {
      var tail := s[1..];
      PairwiseTail(s, rel);
      PairwiseTail(s, le);
      assert forall j | 0 <= j < |tail| :: rel(x, tail[j]) by {
        forall j | 0 <= j < |tail| ensures rel(x, tail[j]) {
          assert tail[j] == s[j + 1];
        }
      }
      PairwiseInsert(x, tail, le, rel);
      var rest := InsertSorted(x, tail, le);
      assert InsertSorted(x, s, le) == [s[0]] + rest;
      forall j | 0 <= j < |rest| ensures rel(s[0], rest[j]) {
        assert rest[j] in multiset(rest);
        if rest[j] == x {
          assert rel(x, s[0]);
        } else {
          assert rest[j] in multiset(tail);
          var k :| 0 <= k < |tail| && tail[k] == rest[j];
          assert s[k + 1] == rest[j];
        }
      }
      PairwiseCons(s[0], rest, rel);
    }
  }

  /** A relation that holds pairwise on a sequence holds on its tail. */
  lemma PairwiseTail<T>(s: seq<T>, rel: (T, T) -> bool)
    requires |s| > 0 && Pairwise(s, rel)
    ensures Pairwise(s[1..], rel)
  {
    var tail := s[1..];
    forall i, j | 0 <= i < j < |tail| ensures rel(tail[i], tail[j]) {
      assert tail[i] == s[i + 1] && tail[j] == s[j + 1];
    }
  }

  /** Prefixing an element related to every element keeps a pairwise
      relation. */
  lemma PairwiseCons<T>(a: T, rest: seq<T>, rel: (T, T) -> bool)
    requires Pairwise(rest, rel) && forall j | 0 <= j < |rest| :: rel(a, rest[j])
    ensures Pairwise([a] + rest, rel)
  {
    var r := [a] + rest;
    forall i, j | 0 <= i < j < |r| ensures rel(r[i], r[j]) {
      if i == 0 {
        assert r[j] == rest[j - 1];
      } else {
        assert r[i] == rest[i - 1] && r[j] == rest[j - 1];
      }
    }
  }

  /** Sorting keeps any symmetric pairwise relation, such as distinct ids. */
  lemma {:induction false} PairwiseSortBy<T(!new)>(s: seq<T>, le: (T, T) -> bool, rel: (T, T) -> bool)
    requires TotalPreorder(le)
    requires forall a, b :: rel(a, b) == rel(b, a)
    requires Pairwise(s, rel)
    ensures Pairwise(SortBy(s, le), rel)
  {
    if |s| > 0 {
      var tail := s[1..];
      assert Pairwise(tail, rel) by {
        forall i, j | 0 <= i < j < |tail| ensures rel(tail[i], tail[j]) {
          assert tail[i] == s[i + 1] && tail[j] == s[j + 1];
        }
      }
      PairwiseSortBy(tail, le, rel);
      var sorted := SortBy(tail, le);
      forall j | 0 <= j < |sorted| ensures rel(s[0], sorted[j]) {
        assert sorted[j] in multiset(tail);
        var k :| 0 <= k < |tail| && tail[k] == sorted[j];
        assert s[k + 1] == sorted[j];
      }
      PairwiseInsert(s[0], sorted, le, rel);
    }
  }
}
