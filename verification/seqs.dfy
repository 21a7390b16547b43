/** Sequence helpers standing in for the ORM's `filter`, `count` and aggregate sums. */
module Seqs {

  /** The elements of `s` satisfying `p`, in their original order (`queryset.filter`). */
  function Filter<T>(s: seq<T>, p: T -> bool): (r: seq<T>)
    ensures |r| <= |s|
    ensures forall i :: 0 <= i < |r| ==> r[i] in s && p(r[i])
    ensures forall i :: 0 <= i < |s| && p(s[i]) ==> s[i] in r
    ensures multiset(r) <= multiset(s)
  {
    if |s| == 0 then []
    else
      var rest := Filter(s[1..], p);
      FilterStep(s, p, rest);
      (if p(s[0]) then [s[0]] else []) + rest
  }

  /** One step of `Filter`: the head, when it qualifies, in front of the filtered tail. */
  lemma FilterStep<T>(s: seq<T>, p: T -> bool, rest: seq<T>)
    requires |s| > 0 && |rest| <= |s| - 1
    requires forall i :: 0 <= i < |rest| ==> rest[i] in s[1..] && p(rest[i])
    requires forall i :: 1 <= i < |s| && p(s[i]) ==> s[i] in rest
    requires multiset(rest) <= multiset(s[1..])
    ensures var r := (if p(s[0]) then [s[0]] else []) + rest;
            |r| <= |s| &&
            (forall i :: 0 <= i < |r| ==> r[i] in s && p(r[i])) &&
            (forall i :: 0 <= i < |s| && p(s[i]) ==> s[i] in r) &&
            multiset(r) <= multiset(s)
  {
    var head := if p(s[0]) then [s[0]] else [];
    var r := head + rest;
    assert s == [s[0]] + s[1..];
    assert multiset(s) == multiset([s[0]]) + multiset(s[1..]);
    forall i | 0 <= i < |r|
      ensures r[i] in s && p(r[i])
    {
      if i >= |head| {
        assert r[i] == rest[i - |head|];
      }
    }
  }

  lemma {:induction false} FilterConcat<T>(a: seq<T>, b: seq<T>, p: T -> bool)
    ensures Filter(a + b, p) == Filter(a, p) + Filter(b, p)
  {
    if |a| > 0 {
      FilterConcat(a[1..], b, p);
      assert [a[0]] + a[1..] == a;
      assert [a[0]] + (a[1..] + b) == a + b;
      FilterCons(a[0], a[1..] + b, p);
      FilterCons(a[0], a[1..], p);
      ConcatAssoc(if p(a[0]) then [a[0]] else [], Filter(a[1..], p), Filter(b, p));
    } else {
      assert a + b == b;
    }
  }

  /** The six parts of a concatenation sit at their offsets. */
  lemma Concat6<T>(a: seq<T>, b: seq<T>, c: seq<T>, d: seq<T>, e: seq<T>, f: seq<T>)
    ensures var r, i, j, k, l, m := a + b + c + d + e + f, |a|, |a| + |b|, |a| + |b| + |c|,
                                   |a| + |b| + |c| + |d|, |a| + |b| + |c| + |d| + |e|;
            && |r| == m + |f|
            && r[..i] == a && r[i..j] == b && r[j..k] == c && r[k..l] == d && r[l..m] == e && r[m..] == f
  {
  }

  lemma ConcatAssoc<T>(x: seq<T>, y: seq<T>, z: seq<T>)
    ensures x + (y + z) == (x + y) + z
  {
  }

  /** One step of the filter, from the head of a non-empty sequence. */
  lemma FilterUnfold<T>(s: seq<T>, p: T -> bool)
    requires |s| > 0
    ensures Filter(s, p) == (if p(s[0]) then [s[0]] else []) + Filter(s[1..], p)
  {
  }

  lemma FilterCons<T>(x: T, s: seq<T>, p: T -> bool)
    ensures Filter([x] + s, p) == (if p(x) then [x] else []) + Filter(s, p)
  {
    assert ([x] + s)[1..] == s;
  }

  /** Filtering with a predicate every element satisfies changes nothing. */
  lemma {:induction false} FilterAll<T>(s: seq<T>, p: T -> bool)
    requires forall i :: 0 <= i < |s| ==> p(s[i])
    ensures Filter(s, p) == s
  {
    if |s| > 0 {
      FilterAll(s[1..], p);
    }
  }

  /** Filtering with a predicate no element satisfies leaves nothing. */
  lemma {:induction false} FilterNone<T>(s: seq<T>, p: T -> bool)
    requires forall i :: 0 <= i < |s| ==> !p(s[i])
    ensures Filter(s, p) == []
  {
    if |s| > 0 {
      FilterNone(s[1..], p);
    }
  }

  /** The number of elements satisfying `p` (`queryset.filter(...).count()`). */
  function Count<T>(s: seq<T>, p: T -> bool): (n: nat)
    ensures n <= |s|
    ensures n == |Filter(s, p)|
  {
    if |s| == 0 then 0
    else (if p(s[0]) then 1 else 0) + Count(s[1..], p)
  }

  /** Every element is counted under `p` or under its negation, never both. */
  lemma {:induction false} CountSplit<T>(s: seq<T>, p: T -> bool)
    ensures Count(s, p) + Count(s, Not(p)) == |s|
  {
    if |s| > 0 {
      CountSplit(s[1..], p);
    }
  }

  /** `f` applied to every element, in order (a list comprehension). */
  function Map<T, U>(s: seq<T>, f: T -> U): (r: seq<U>)
    ensures |r| == |s|
    ensures forall i :: 0 <= i < |s| ==> r[i] == f(s[i])
  {
    seq(|s|, i requires 0 <= i < |s| => f(s[i]))
  }

  /** The middle part of a three-part concatenation, recovered by slicing. */
  lemma SliceMiddle<T>(a: seq<T>, b: seq<T>, c: seq<T>)
    ensures (a + b + c)[|a|..|a + b + c| - |c|] == b
    ensures (a + b + c)[..|a|] == a
  {
  }

  /** The images of `a` under `f` followed by the images of `b` under `g`. */
  function MapBoth<T, U, V>(a: seq<T>, f: T -> V, b: seq<U>, g: U -> V): (r: seq<V>)
    ensures |r| == |a| + |b|
    ensures forall i :: 0 <= i < |a| ==> r[i] == f(a[i])
    ensures forall i :: 0 <= i < |b| ==> r[|a| + i] == g(b[i])
  {
    seq(|a| + |b|, i requires 0 <= i < |a| + |b| => if i < |a| then f(a[i]) else g(b[i - |a|]))
  }

  /** Mapping two sequences in turn is mapping each and concatenating. */
  lemma MapBothConcat<T, U, V>(a: seq<T>, f: T -> V, b: seq<U>, g: U -> V)
    ensures MapBoth(a, f, b, g) == Map(a, f) + Map(b, g)
  {
    var r, x, y := MapBoth(a, f, b, g), Map(a, f), Map(b, g);
    forall i | 0 <= i < |r| ensures r[i] == (x + y)[i] {
      if i >= |a| {
        assert r[i] == y[i - |a|];
      }
    }
  }

  /** `sum(f(x) for x in s)`. */
  function SumBy<T>(s: seq<T>, f: T -> int): int {
    if |s| == 0 then 0 else f(s[0]) + SumBy(s[1..], f)
  }

  lemma SumByCons<T>(x: T, s: seq<T>, f: T -> int)
    ensures SumBy([x] + s, f) == f(x) + SumBy(s, f)
  {
    assert ([x] + s)[1..] == s;
  }

  lemma {:induction false} SumByConcat<T>(a: seq<T>, b: seq<T>, f: T -> int)
    ensures SumBy(a + b, f) == SumBy(a, f) + SumBy(b, f)
  {
    if |a| == 0 {
      assert a + b == b;
    } else {
      assert (a + b)[1..] == a[1..] + b;
      SumByConcat(a[1..], b, f);
    }
  }

  /** `f` where `p` holds, 0 elsewhere. */
  function Masked<T>(p: T -> bool, f: T -> int): T -> int {
    (x: T) => if p(x) then f(x) else 0
  }

  /** Summing a masked value over everything is summing over the filtered elements. */
  lemma {:induction false} SumByMasked<T>(s: seq<T>, p: T -> bool, f: T -> int)
    ensures SumBy(s, Masked(p, f)) == SumBy(Filter(s, p), f)
  {
    if |s| > 0 {
      SumByMasked(s[1..], p, f);
      var rest := Filter(s[1..], p);
      if p(s[0]) {
        assert Filter(s, p) == [s[0]] + rest;
        SumByCons(s[0], rest, f);
      } else {
        assert Filter(s, p) == rest;
      }
    }
  }

  function Not<T>(p: T -> bool): T -> bool {
    (x: T) => !p(x)
  }

  /** A sum splits into the part where `p` holds and the part where it does not. */
  lemma {:induction false} SumBySplit<T>(s: seq<T>, p: T -> bool, f: T -> int)
    ensures SumBy(s, f) == SumBy(Filter(s, p), f) + SumBy(Filter(s, Not(p)), f)
  {
    if |s| > 0 {
      SumBySplit(s[1..], p, f);
      var yes := Filter(s[1..], p);
      var no := Filter(s[1..], Not(p));
      if p(s[0]) {
        assert Filter(s, p) == [s[0]] + yes;
        assert Filter(s, Not(p)) == no;
        SumByCons(s[0], yes, f);
      } else {
        assert Filter(s, p) == yes;
        assert Filter(s, Not(p)) == [s[0]] + no;
        SumByCons(s[0], no, f);
      }
    }
  }

  /** Summing over a mapped sequence is summing the composed value over the original. */
  lemma {:induction false} SumByMap<T, U>(s: seq<T>, g: T -> U, f: U -> int, h: T -> int)
    requires forall x :: h(x) == f(g(x))
    ensures SumBy(Map(s, g), f) == SumBy(s, h)
  {
    if |s| > 0 {
      assert Map(s, g)[1..] == Map(s[1..], g);
      SumByMap(s[1..], g, f, h);
    }
  }

  /** An element failing `p` makes the filtered sequence strictly shorter. */
  lemma {:induction false} FilterShorter<T>(s: seq<T>, p: T -> bool, i: nat)
    requires i < |s| && !p(s[i])
    ensures |Filter(s, p)| < |s|
  {
    if i > 0 {
      FilterShorter(s[1..], p, i - 1);
    }
  }

  function And<T>(p: T -> bool, q: T -> bool): T -> bool {
    (x: T) => p(x) && q(x)
  }

  /** Filtering twice is filtering once by both conditions. */
  lemma {:induction false} FilterFilter<T>(s: seq<T>, p: T -> bool, q: T -> bool)
    ensures Filter(Filter(s, p), q) == Filter(s, And(p, q))
  {
    if |s| > 0 {
      FilterFilter(s[1..], p, q);
      var rest := Filter(s[1..], p);
      if p(s[0]) {
        assert Filter(s, p) == [s[0]] + rest;
        FilterCons(s[0], rest, q);
      } else {
        assert Filter(s, p) == rest;
      }
    }
  }
}
