/**
 * Filtering and ordering of query results. SQL's `WHERE` is `Filter`, and
 * `ORDER BY` is `SortBy`, a stable insertion sort on an integer key (rows
 * whose keys tie keep their ledger order, one of the orders SQL allows).
 */
module Sorting {

  /** The elements of `s` that satisfy `p`, in their order in `s`. */
  function Filter<T(!new)>(s: seq<T>, p: T -> bool): (r: seq<T>)
    ensures |r| <= |s|
  {
    if s == [] then []
    else (if p(s[0]) then [s[0]] else []) + Filter(s[1..], p)
  }

  /** `Filter` keeps exactly the elements satisfying `p`, each as often as it occurs. */
  lemma {:induction false} FilterMultiset<T(!new)>(s: seq<T>, p: T -> bool)
    ensures forall x :: multiset(Filter(s, p))[x] == if p(x) then multiset(s)[x] else 0
  {
    if s != [] {
      FilterMultiset(s[1..], p);
      assert s == [s[0]] + s[1..];
    }
  }

  lemma FilterSubMultiset<T(!new)>(s: seq<T>, p: T -> bool)
    ensures multiset(Filter(s, p)) <= multiset(s)
  {
    FilterMultiset(s, p);
  }

  lemma FilterMembers<T(!new)>(s: seq<T>, p: T -> bool)
    ensures forall x :: x in Filter(s, p) <==> x in s && p(x)
  {
    FilterMultiset(s, p);
    forall x ensures x in Filter(s, p) <==> x in s && p(x) {
      assert x in Filter(s, p) <==> x in multiset(Filter(s, p));
      assert x in s <==> x in multiset(s);
    }
  }

  /** Keys never decrease along `s`. */
  ghost predicate SortedBy<T(!new)>(s: seq<T>, key: T -> int) {
    forall i, j :: 0 <= i < j < |s| ==> key(s[i]) <= key(s[j])
  }

  /** `a` is a (not necessarily proper) suffix of `b`. */
  ghost predicate IsSuffix<T(!new)>(a: seq<T>, b: seq<T>) {
    |a| <= |b| && a == b[|b| - |a|..]
  }

  /** Inserts `x` after every element whose key is at most `key(x)`. */
  function Insert<T(!new)>(x: T, s: seq<T>, key: T -> int): (r: seq<T>)
    ensures |r| == |s| + 1
  {
    if s == [] then [x]
    else if key(x) < key(s[0]) then [x] + s
    else [s[0]] + Insert(x, s[1..], key)
  }

  lemma {:induction false} InsertMultiset<T(!new)>(x: T, s: seq<T>, key: T -> int)
    ensures multiset(Insert(x, s, key)) == multiset(s) + multiset{x}
  {
    if s != [] {
      assert s == [s[0]] + s[1..];
      InsertMultiset(x, s[1..], key);
    }
  }

  lemma InsertMembers<T(!new)>(x: T, s: seq<T>, key: T -> int)
    ensures forall y :: y in Insert(x, s, key) <==> y == x || y in s
  {
    InsertMultiset(x, s, key);
    forall y ensures y in Insert(x, s, key) <==> y == x || y in s {
      assert y in Insert(x, s, key) <==> y in multiset(Insert(x, s, key));
      assert y in s <==> y in multiset(s);
    }
  }

  lemma SortedTail<T(!new)>(s: seq<T>, key: T -> int)
    requires s != [] && SortedBy(s, key)
    ensures SortedBy(s[1..], key)
  {
    forall i, j | 0 <= i < j < |s[1..]| ensures key(s[1..][i]) <= key(s[1..][j]) {
      assert s[1..][i] == s[i + 1] && s[1..][j] == s[j + 1];
    }
  }

  /** Inserting keeps a sorted sequence sorted. */
  lemma {:induction false} InsertSorted<T(!new)>(x: T, s: seq<T>, key: T -> int)
    requires SortedBy(s, key)
    ensures SortedBy(Insert(x, s, key), key)
  {
    if s != [] && key(x) >= key(s[0]) {
      SortedTail(s, key);
      InsertSorted(x, s[1..], key);
      var tail := Insert(x, s[1..], key);
      InsertMembers(x, s[1..], key);
      forall i | 0 <= i < |tail| ensures key(s[0]) <= key(tail[i]) {
        assert tail[i] in tail;
        if tail[i] != x {
          var j :| 0 <= j < |s[1..]| && s[1..][j] == tail[i];
          assert s[1..][j] == s[j + 1];
        }
      }
      assert Insert(x, s, key) == [s[0]] + tail;
    }
  }

  /** `s` ordered by ascending `key`; the last element is inserted last, so ties keep their order. */
  function SortBy<T(!new)>(s: seq<T>, key: T -> int): (r: seq<T>)
    ensures multiset(r) == multiset(s)
    ensures SortedBy(r, key)
  {
    if s == [] then []
    else
      var n := |s| - 1;
      assert s == s[..n] + [s[n]];
      InsertSorted(s[n], SortBy(s[..n], key), key);
      InsertMultiset(s[n], SortBy(s[..n], key), key);
      Insert(s[n], SortBy(s[..n], key), key)
  }

  lemma {:induction false} FilterAppend<T(!new)>(a: seq<T>, b: seq<T>, p: T -> bool)
    ensures Filter(a + b, p) == Filter(a, p) + Filter(b, p)
  {
    if a == [] {
      assert a + b == b;
    } else {
      assert (a + b)[0] == a[0] && (a + b)[1..] == a[1..] + b;
      FilterAppend(a[1..], b, p);
      var h := if p(a[0]) then [a[0]] else [];
      assert Filter(a + b, p) == h + Filter(a[1..] + b, p);
      assert h + (Filter(a[1..], p) + Filter(b, p)) == (h + Filter(a[1..], p)) + Filter(b, p);
    }
  }

  /** Filtering by `p` and then by a stronger `q` is filtering by `q`. */
  lemma {:induction false} FilterImplied<T(!new)>(s: seq<T>, p: T -> bool, q: T -> bool)
    requires forall x :: q(x) ==> p(x)
    ensures Filter(Filter(s, p), q) == Filter(s, q)
  {
    if s != [] {
      FilterImplied(s[1..], p, q);
      FilterAppend(if p(s[0]) then [s[0]] else [], Filter(s[1..], p), q);
    }
  }

  lemma {:induction false} FilterAll<T(!new)>(s: seq<T>, p: T -> bool)
    requires forall i :: 0 <= i < |s| ==> p(s[i])
    ensures Filter(s, p) == s
  {
    if s != [] {
      FilterAll(s[1..], p);
    }
  }

  /** An element whose key is below every key of `s` goes to the front. */
  lemma InsertFront<T(!new)>(x: T, s: seq<T>, key: T -> int)
    requires forall y :: y in s ==> key(x) < key(y)
    ensures Insert(x, s, key) == [x] + s
  {
    if s != [] {
      assert s[0] in s;
    }
  }

  /** Sorting a sequence extended at the end inserts the new element into the sorted prefix. */
  lemma SortAppend<T(!new)>(s: seq<T>, x: T, key: T -> int)
    ensures SortBy(s + [x], key) == Insert(x, SortBy(s, key), key)
  {
    assert (s + [x])[..|s|] == s;
  }

  lemma FilterCons<T(!new)>(a: T, s: seq<T>, p: T -> bool)
    ensures Filter([a] + s, p) == (if p(a) then [a] else []) + Filter(s, p)
  {
    assert ([a] + s)[1..] == s;
  }

  /** Filtering commutes with inserting into a sorted sequence. */
  lemma {:induction false} FilterInsert<T(!new)>(x: T, s: seq<T>, p: T -> bool, key: T -> int)
    requires SortedBy(s, key)
    ensures Filter(Insert(x, s, key), p)
         == if p(x) then Insert(x, Filter(s, p), key) else Filter(s, p)
  {
    if s == [] {
    } else if key(x) < key(s[0]) {
      FilterInsertAtFront(x, s, p, key);
    } else {
      SortedTail(s, key);
      FilterInsert(x, s[1..], p, key);
      FilterInsertBehind(x, s, p, key);
    }
  }

  lemma FilterInsertAtFront<T(!new)>(x: T, s: seq<T>, p: T -> bool, key: T -> int)
    requires SortedBy(s, key) && s != [] && key(x) < key(s[0])
    ensures Filter(Insert(x, s, key), p)
         == if p(x) then Insert(x, Filter(s, p), key) else Filter(s, p)
  {
    FilterCons(x, s, p);
    if p(x) {
      FilterMembers(s, p);
      forall y | y in Filter(s, p) ensures key(x) < key(y) {
        var j :| 0 <= j < |s| && s[j] == y;
        assert key(s[0]) <= key(s[j]);
      }
      InsertFront(x, Filter(s, p), key);
    }
  }

  lemma FilterInsertBehind<T(!new)>(x: T, s: seq<T>, p: T -> bool, key: T -> int)
    requires s != [] && key(x) >= key(s[0])
    requires Filter(Insert(x, s[1..], key), p)
          == if p(x) then Insert(x, Filter(s[1..], p), key) else Filter(s[1..], p)
    ensures Filter(Insert(x, s, key), p)
         == if p(x) then Insert(x, Filter(s, p), key) else Filter(s, p)
  {
    var tail := Insert(x, s[1..], key);
    var f := Filter(s[1..], p);
    assert Insert(x, s, key) == [s[0]] + tail;
    FilterCons(s[0], tail, p);
    assert s == [s[0]] + s[1..];
    FilterCons(s[0], s[1..], p);
    if p(x) && p(s[0]) {
      InsertBehindHead(x, s[0], f, key);
    } else if p(x) {
      assert Filter(s, p) == f;
    }
  }

  /** An element whose key is at least that of the head is inserted behind it. */
  lemma InsertBehindHead<T(!new)>(x: T, y: T, f: seq<T>, key: T -> int)
    requires key(x) >= key(y)
    ensures Insert(x, [y] + f, key) == [y] + Insert(x, f, key)
  {
    assert ([y] + f)[1..] == f;
  }

  /** Sequences with the same elements, counted with multiplicity, have the same members. */
  lemma SameMembers<T(!new)>(a: seq<T>, b: seq<T>)
    requires multiset(a) == multiset(b)
    ensures forall x :: x in a <==> x in b
  {
    forall x ensures x in a <==> x in b {
      assert x in a <==> x in multiset(a);
      assert x in b <==> x in multiset(b);
    }
  }

  /** Sorting and filtering commute: `ORDER BY` over a `WHERE` is the `WHERE` of the ordered rows. */
  lemma {:induction false} SortFilter<T(!new)>(s: seq<T>, p: T -> bool, key: T -> int)
    ensures SortBy(Filter(s, p), key) == Filter(SortBy(s, key), p)
  {
    if s != [] {
      var n := |s| - 1;
      assert s == s[..n] + [s[n]];
      FilterAppend(s[..n], [s[n]], p);
      SortFilter(s[..n], p, key);
      FilterInsert(s[n], SortBy(s[..n], key), p, key);
      if p(s[n]) {
        assert Filter([s[n]], p) == [s[n]];
        SortAppend(Filter(s[..n], p), s[n], key);
      } else {
        assert Filter([s[n]], p) == [];
        assert Filter(s[..n], p) + [] == Filter(s[..n], p);
      }
    }
  }

  /** In a sorted sequence, the elements above a threshold form a suffix. */
  lemma {:induction false} FilterAboveIsSuffix<T(!new)>(s: seq<T>, p: T -> bool, key: T -> int, c: int)
    requires SortedBy(s, key)
    requires forall x :: p(x) == (key(x) > c)
    ensures IsSuffix(Filter(s, p), s)
  {
    if s != [] {
      if key(s[0]) > c {
        forall i | 0 <= i < |s| ensures p(s[i]) {
          assert key(s[0]) <= key(s[i]);
        }
        FilterAll(s, p);
      } else {
        SortedTail(s, key);
        FilterAboveIsSuffix(s[1..], p, key, c);
        assert Filter(s, p) == Filter(s[1..], p);
        assert s[1..][|s[1..]| - |Filter(s, p)|..] == s[|s| - |Filter(s, p)|..];
      }
    }
  }

  /** No two elements of `s` share a key. */
  ghost predicate DistinctKeys<T(!new)>(s: seq<T>, key: T -> int) {
    forall i, j :: 0 <= i < j < |s| ==> key(s[i]) != key(s[j])
  }

  lemma TwoOccurrences<T(!new)>(s: seq<T>, i: nat, j: nat)
    requires i < j < |s| && s[i] == s[j]
    ensures multiset(s)[s[i]] >= 2
  {
    assert s == s[..i] + [s[i]] + s[i + 1..j] + [s[j]] + s[j + 1..];
  }

  lemma {:induction false} OccurrencesApart<T(!new)>(s: seq<T>, x: T)
    requires multiset(s)[x] >= 2
    ensures exists i, j :: 0 <= i < j < |s| && s[i] == x && s[j] == x
  {
    assert s == [s[0]] + s[1..];
    if s[0] == x {
      assert x in multiset(s[1..]);
      var j :| 0 <= j < |s[1..]| && s[1..][j] == x;
      assert s[j + 1] == x;
    } else {
      OccurrencesApart(s[1..], x);
      var i, j :| 0 <= i < j < |s[1..]| && s[1..][i] == x && s[1..][j] == x;
      assert s[i + 1] == x && s[j + 1] == x;
    }
  }

  /** Distinct keys survive taking a sub-multiset (a filter, a reordering). */
  lemma DistinctKeysSub<T(!new)>(a: seq<T>, b: seq<T>, key: T -> int)
    requires multiset(a) <= multiset(b) && DistinctKeys(b, key)
    ensures DistinctKeys(a, key)
  {
    forall i, j | 0 <= i < j < |a| ensures key(a[i]) != key(a[j]) {
      if a[i] == a[j] {
        TwoOccurrences(a, i, j);
        OccurrencesApart(b, a[i]);
      } else {
        assert a[i] in multiset(b) && a[j] in multiset(b);
        var p :| 0 <= p < |b| && b[p] == a[i];
        var q :| 0 <= q < |b| && b[q] == a[j];
        assert p != q;
      }
    }
  }

  /** Sorted with distinct keys means strictly increasing keys. */
  lemma StrictlySorted<T(!new)>(s: seq<T>, key: T -> int)
    requires SortedBy(s, key) && DistinctKeys(s, key)
    ensures forall i, j :: 0 <= i < j < |s| ==> key(s[i]) < key(s[j])
  {
  }
}
