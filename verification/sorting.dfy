/** A stable sort, newest first, standing in for `order_by('-date')` and for Python's
    `list.sort(key=..., reverse=True)`.

 Python's sort is stable also with `reverse=True`: elements with equal keys keep their
 original order. The sort here is an insertion sort on sequences; stability is stated as
 "the elements with any one key appear in the same order before and after".
 */
module Sorting {
  import opened Seqs

  /** Ordered by non-increasing key. */
  predicate SortedDesc<T>(s: seq<T>, key: T -> int) {
    forall i, j :: 0 <= i < j < |s| ==> key(s[i]) >= key(s[j])
  }

  /** The elements whose key is `k`. */
  function KeyIs<T>(key: T -> int, k: int): T -> bool {
    (x: T) => key(x) == k
  }

  /** Put `x` in front of the first element whose key does not exceed its own. */
  function Insert<T>(x: T, s: seq<T>, key: T -> int): (r: seq<T>)
    ensures |r| == |s| + 1
    ensures multiset(r) == multiset(s) + multiset{x}
  {
    if |s| == 0 then [x]
    else if key(x) >= key(s[0]) then [x] + s
    else
      assert s == [s[0]] + s[1..];
      [s[0]] + Insert(x, s[1..], key)
  }

  /** Every key of `Insert(x, s)` is bounded by any bound of `x` and of `s`. */
  lemma {:induction false} InsertBounded<T>(x: T, s: seq<T>, key: T -> int, m: int)
    requires key(x) <= m
    requires forall i :: 0 <= i < |s| ==> key(s[i]) <= m
    ensures forall i :: 0 <= i < |Insert(x, s, key)| ==> key(Insert(x, s, key)[i]) <= m
  {
    if |s| > 0 && key(x) < key(s[0]) {
      InsertBounded(x, s[1..], key, m);
    }
  }

  /** Inserting into a sorted sequence keeps it sorted. */
  lemma {:induction false} InsertSorted<T>(x: T, s: seq<T>, key: T -> int)
    requires SortedDesc(s, key)
    ensures SortedDesc(Insert(x, s, key), key)
  {
    if |s| > 0 && key(x) < key(s[0]) {
      InsertSorted(x, s[1..], key);
      InsertBounded(x, s[1..], key, key(s[0]));
    }
  }

  /** Inserting keeps, for every key, the order of the elements that have it, with `x` first. */
  lemma {:induction false} InsertStable<T>(x: T, s: seq<T>, key: T -> int, k: int)
    ensures Filter(Insert(x, s, key), KeyIs(key, k)) ==
            (if key(x) == k then [x] else []) + Filter(s, KeyIs(key, k))
  {
    var p := KeyIs(key, k);
    if |s| == 0 {
      FilterCons(x, [], p);
      assert [x] + [] == [x];
    } else if key(x) >= key(s[0]) {
      FilterCons(x, s, p);
    } else {
      InsertStable(x, s[1..], key, k);
      InsertStableStep(x, s, key, k);
    }
  }

  lemma InsertStableStep<T>(x: T, s: seq<T>, key: T -> int, k: int)
    requires |s| > 0 && key(x) < key(s[0])
    requires Filter(Insert(x, s[1..], key), KeyIs(key, k)) ==
             (if key(x) == k then [x] else []) + Filter(s[1..], KeyIs(key, k))
    ensures Filter(Insert(x, s, key), KeyIs(key, k)) ==
            (if key(x) == k then [x] else []) + Filter(s, KeyIs(key, k))
  {
    var p := KeyIs(key, k);
    FilterInsertPast(x, s, key, p);
    FilterUnfold(s, p);
    Interleave(Filter(Insert(x, s, key), p), Filter(Insert(x, s[1..], key), p), Filter(s, p),
               if p(s[0]) then [s[0]] else [], if key(x) == k then [x] else [], Filter(s[1..], p));
  }

  /** Filtering an insertion that passes the head. */
  lemma FilterInsertPast<T>(x: T, s: seq<T>, key: T -> int, p: T -> bool)
    requires |s| > 0 && key(x) < key(s[0])
    ensures Filter(Insert(x, s, key), p) == (if p(s[0]) then [s[0]] else []) + Filter(Insert(x, s[1..], key), p)
  {
    assert Insert(x, s, key) == [s[0]] + Insert(x, s[1..], key);
    FilterCons(s[0], Insert(x, s[1..], key), p);
  }

  /** `l` is `head` before `mine` before `tail`, and one of `head` and `mine` is empty, so
      `mine` may as well come first. */
  lemma Interleave<T>(l: seq<T>, fr: seq<T>, fs: seq<T>, head: seq<T>, mine: seq<T>, tail: seq<T>)
    requires l == head + fr && fr == mine + tail && fs == head + tail
    requires head == [] || mine == []
    ensures l == mine + fs
  {
    if head == [] {
      assert l == fr && fs == tail;
    } else {
      assert fr == tail && mine + fs == fs;
    }
  }

  /** Filtering keeps an order: a filtered sorted sequence is sorted. */
  lemma {:induction false} FilterSorted<T>(s: seq<T>, p: T -> bool, key: T -> int)
    requires SortedDesc(s, key)
    ensures SortedDesc(Filter(s, p), key)
    decreases |s|
  {
    if |s| > 0 {
      var tail := s[1..];
      SortedTail(s, key);
      FilterSorted(tail, p, key);
      var rest := Filter(tail, p);
      forall j | 0 <= j < |rest| ensures key(s[0]) >= key(rest[j]) {
        var k :| 0 <= k < |tail| && tail[k] == rest[j];
        assert tail[k] == s[k + 1];
      }
      assert s == [s[0]] + tail;
      FilterCons(s[0], tail, p);
      if p(s[0]) {
        SortedCons(s[0], rest, key);
      } else {
        assert Filter(s, p) == rest;
      }
    }
  }

  lemma SortedTail<T>(s: seq<T>, key: T -> int)
    requires |s| > 0 && SortedDesc(s, key)
    ensures SortedDesc(s[1..], key)
  {
    var tail := s[1..];
    forall i, j | 0 <= i < j < |tail| ensures key(tail[i]) >= key(tail[j]) {
      assert tail[i] == s[i + 1] && tail[j] == s[j + 1];
    }
  }

  lemma SortedCons<T>(x: T, s: seq<T>, key: T -> int)
    requires SortedDesc(s, key)
    requires forall j :: 0 <= j < |s| ==> key(x) >= key(s[j])
    ensures SortedDesc([x] + s, key)
  {
    var r := [x] + s;
    forall i, j | 0 <= i < j < |r| ensures key(r[i]) >= key(r[j]) {
      assert r[j] == s[j - 1];
      if i > 0 { assert r[i] == s[i - 1]; }
    }
  }

  /** `sorted(s, key=key, reverse=True)`. */
  function SortDesc<T>(s: seq<T>, key: T -> int): (r: seq<T>)
    ensures |r| == |s|
    ensures multiset(r) == multiset(s)
    ensures SortedDesc(r, key)
  {
    if |s| == 0 then []
    else
      assert s == [s[0]] + s[1..];
      InsertSorted(s[0], SortDesc(s[1..], key), key);
      Insert(s[0], SortDesc(s[1..], key), key)
  }

  /** The sort is stable: the elements with any one key keep their input order. */
  lemma {:induction false} SortDescStable<T>(s: seq<T>, key: T -> int, k: int)
    ensures Filter(SortDesc(s, key), KeyIs(key, k)) == Filter(s, KeyIs(key, k))
  {
    if |s| > 0 {
      SortDescStable(s[1..], key, k);
      InsertStable(s[0], SortDesc(s[1..], key), key, k);
    }
  }

  /** A sort is a permutation, so it keeps membership in both directions. */
  lemma SortDescSameElements<T>(s: seq<T>, key: T -> int, x: T)
    ensures x in SortDesc(s, key) <==> x in s
  {
    assert x in SortDesc(s, key) <==> x in multiset(SortDesc(s, key));
    assert x in s <==> x in multiset(s);
  }

  lemma {:induction false} InsertSum<T>(x: T, s: seq<T>, key: T -> int, f: T -> int)
    ensures SumBy(Insert(x, s, key), f) == f(x) + SumBy(s, f)
  {
    if |s| == 0 {
      SumByCons(x, [], f);
      assert [x] + [] == [x];
    } else if key(x) >= key(s[0]) {
      SumByCons(x, s, f);
    } else {
      InsertSum(x, s[1..], key, f);
      SumByCons(s[0], Insert(x, s[1..], key), f);
    }
  }

  /** Sorting does not change a sum. */
  lemma {:induction false} SortDescSum<T>(s: seq<T>, key: T -> int, f: T -> int)
    ensures SumBy(SortDesc(s, key), f) == SumBy(s, f)
  {
    if |s| > 0 {
      SortDescSum(s[1..], key, f);
      InsertSum(s[0], SortDesc(s[1..], key), key, f);
    }
  }

  lemma {:induction false} InsertCount<T>(x: T, s: seq<T>, key: T -> int, p: T -> bool)
    ensures Count(Insert(x, s, key), p) == (if p(x) then 1 else 0) + Count(s, p)
  {
    if |s| == 0 {
      assert Insert(x, s, key) == [x];
    } else if key(x) >= key(s[0]) {
      assert Insert(x, s, key)[1..] == s;
    } else {
      InsertCount(x, s[1..], key, p);
      assert Insert(x, s, key)[1..] == Insert(x, s[1..], key);
    }
  }

  /** Sorting does not change a count. */
  lemma {:induction false} SortDescCount<T>(s: seq<T>, key: T -> int, p: T -> bool)
    ensures Count(SortDesc(s, key), p) == Count(s, p)
  {
    if |s| > 0 {
      SortDescCount(s[1..], key, p);
      InsertCount(s[0], SortDesc(s[1..], key), key, p);
    }
  }
}
