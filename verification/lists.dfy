/** Sequence helpers behind the list endpoints: `reduce` sums, `filter`,
    `slice` windows and a stable descending `sort` by an integer key. */
module Lists {
  import opened Base

  /** `xs.reduce((sum, x) => sum + f(x), 0)`. */
  function SumBy<T>(xs: seq<T>, f: T -> int): int {
    if xs == [] then 0 else f(xs[0]) + SumBy(xs[1..], f)
  }

  lemma {:induction false} SumByAppend<T>(a: seq<T>, b: seq<T>, f: T -> int)
    ensures SumBy(a + b, f) == SumBy(a, f) + SumBy(b, f)
  {
    if a != [] {
      assert (a + b)[1..] == a[1..] + b;
      SumByAppend(a[1..], b, f);
    } else {
      assert a + b == b;
    }
  }

  lemma {:induction false} SumByNonNegative<T>(xs: seq<T>, f: T -> int)
    requires forall i :: 0 <= i < |xs| ==> f(xs[i]) >= 0
    ensures SumBy(xs, f) >= 0
    ensures SumBy(xs, f) == 0 <==> forall i :: 0 <= i < |xs| ==> f(xs[i]) == 0
  {
    if xs != [] {
      SumByNonNegative(xs[1..], f);
      if SumBy(xs, f) == 0 {
        forall i | 0 <= i < |xs| ensures f(xs[i]) == 0 {
          if i > 0 {
            assert xs[i] == xs[1..][i - 1];
          }
        }
      }
    }
  }

  /** `a` is `b` with some elements removed, order kept. */
  ghost predicate IsSubsequence<T>(a: seq<T>, b: seq<T>) {
    if a == [] then true
    else if b == [] then false
    else (a[0] == b[0] && IsSubsequence(a[1..], b[1..])) || IsSubsequence(a, b[1..])
  }

  /** `xs.filter(p)`. */
  function Filter<T>(xs: seq<T>, p: T -> bool): (r: seq<T>)
    ensures |r| <= |xs|
    ensures forall i :: 0 <= i < |r| ==> p(r[i])
  {
    if xs == [] then []
    else
      var rest := Filter(xs[1..], p);
      if p(xs[0]) then [xs[0]] + rest else rest
  }

  /** Filtering keeps the order of the elements it keeps. */
  lemma {:induction false} FilterKeepsOrder<T>(xs: seq<T>, p: T -> bool)
    ensures IsSubsequence(Filter(xs, p), xs)
  {
    if xs != [] {
      var rest := Filter(xs[1..], p);
      FilterKeepsOrder(xs[1..], p);
      if p(xs[0]) {
        assert ([xs[0]] + rest)[1..] == rest;
      } else {
        assert rest == [] || IsSubsequence(rest, xs[1..]);
      }
    }
  }

  /** Number of elements satisfying `p`. */
  function Count<T>(xs: seq<T>, p: T -> bool): nat {
    |Filter(xs, p)|
  }

  /** A weaker condition counts at least as many elements. */
  lemma {:induction false} CountImplies<T>(xs: seq<T>, p: T -> bool, q: T -> bool)
    requires forall x :: p(x) ==> q(x)
    ensures Count(xs, p) <= Count(xs, q)
  {
    if xs != [] {
      CountImplies(xs[1..], p, q);
    }
  }

  /** A row added at the end is counted exactly when it satisfies `p`. */
  lemma {:induction false} CountAppend<T>(xs: seq<T>, x: T, p: T -> bool)
    ensures Count(xs + [x], p) == Count(xs, p) + (if p(x) then 1 else 0)
  {
    if xs == [] {
      assert [x][1..] == [];
    } else {
      assert (xs + [x])[1..] == xs[1..] + [x];
      CountAppend(xs[1..], x, p);
    }
  }

  function Min(a: int, b: int): int {
    if a <= b then a else b
  }

  /** `xs.slice(offset, offset + limit)`: at most `limit` consecutive
      elements starting at `offset`, clamped to the sequence. */
  function Window<T>(xs: seq<T>, offset: nat, limit: nat): (r: seq<T>)
    ensures |r| <= limit
    ensures |r| == if offset >= |xs| then 0 else Min(limit, |xs| - offset)
    ensures forall i :: 0 <= i < |r| ==> r[i] == xs[offset + i]
  {
    xs[Min(offset, |xs|)..Min(offset + limit, |xs|)]
  }

  /** `xs.map(f)`. */
  function Map<T, U>(xs: seq<T>, f: T -> U): (r: seq<U>)
    ensures |r| == |xs|
    ensures forall i :: 0 <= i < |xs| ==> r[i] == f(xs[i])
  {
    seq(|xs|, i requires 0 <= i < |xs| => f(xs[i]))
  }

  ghost predicate SortedDesc<T>(xs: seq<T>, key: T -> int) {
    forall i, j :: 0 <= i < j < |xs| ==> key(xs[i]) >= key(xs[j])
  }

  /** The elements of `xs` whose key is `k`, in order. */
  function WithKey<T>(xs: seq<T>, key: T -> int, k: int): seq<T> {
    if xs == [] then []
    else (if key(xs[0]) == k then [xs[0]] else []) + WithKey(xs[1..], key, k)
  }

  /** Puts `x` in front of the first element whose key is not larger. */
  function InsertDesc<T>(x: T, xs: seq<T>, key: T -> int): (r: seq<T>)
    requires SortedDesc(xs, key)
    ensures SortedDesc(r, key)
    ensures multiset(r) == multiset(xs) + multiset{x}
  {
    if xs == [] || key(x) >= key(xs[0]) then [x] + xs
    else
      var rest := InsertDesc(x, xs[1..], key);
      SortedDescHeadIsMax(xs, key);
      BoundedByMultiset(rest, xs[1..], x, key, key(xs[0]));
      ConsSortedDesc(xs[0], rest, key);
      assert xs == [xs[0]] + xs[1..];
      [xs[0]] + rest
  }

  /** The head of a sorted sequence has the largest key. */
  lemma SortedDescHeadIsMax<T>(xs: seq<T>, key: T -> int)
    requires SortedDesc(xs, key) && xs != []
    ensures forall i :: 0 <= i < |xs[1..]| ==> key(xs[1..][i]) <= key(xs[0])
  {
    forall i | 0 <= i < |xs[1..]| ensures key(xs[1..][i]) <= key(xs[0]) {
      assert xs[1..][i] == xs[i + 1];
    }
  }

  /** A bound on the keys of `xs` and on `key(x)` bounds every element of a
      rearrangement of `xs` with `x` added. */
  lemma BoundedByMultiset<T>(r: seq<T>, xs: seq<T>, x: T, key: T -> int, b: int)
    requires multiset(r) == multiset(xs) + multiset{x}
    requires key(x) <= b && forall i :: 0 <= i < |xs| ==> key(xs[i]) <= b
    ensures forall i :: 0 <= i < |r| ==> key(r[i]) <= b
  {
    forall i | 0 <= i < |r| ensures key(r[i]) <= b {
      assert r[i] in multiset(r);
      if r[i] != x {
        assert r[i] in multiset(xs);
        var j :| 0 <= j < |xs| && xs[j] == r[i];
      }
    }
  }

  /** An element no smaller than every key of a sorted sequence can go in
      front of it. */
  lemma ConsSortedDesc<T>(y: T, rest: seq<T>, key: T -> int)
    requires SortedDesc(rest, key)
    requires forall i :: 0 <= i < |rest| ==> key(rest[i]) <= key(y)
    ensures SortedDesc([y] + rest, key)
  {
    var r := [y] + rest;
    forall i, j | 0 <= i < j < |r| ensures key(r[i]) >= key(r[j]) {
      assert r[j] == rest[j - 1];
      if i > 0 {
        assert r[i] == rest[i - 1];
      }
    }
  }

  /** `xs.sort((a, b) => key(b) - key(a))`; JavaScript's sort is stable. */
  function SortDesc<T>(xs: seq<T>, key: T -> int): (r: seq<T>)
    ensures SortedDesc(r, key)
    ensures multiset(r) == multiset(xs)
  {
    if xs == [] then []
    else
      assert xs == [xs[0]] + xs[1..];
      InsertDesc(xs[0], SortDesc(xs[1..], key), key)
  }

  lemma {:induction false} SumByInsertDesc<T>(x: T, xs: seq<T>, key: T -> int, f: T -> int)
    requires SortedDesc(xs, key)
    ensures SumBy(InsertDesc(x, xs, key), f) == f(x) + SumBy(xs, f)
  {
    if xs == [] || key(x) >= key(xs[0]) {
      assert ([x] + xs)[1..] == xs;
    } else {
      var rest := InsertDesc(x, xs[1..], key);
      assert ([xs[0]] + rest)[1..] == rest;
      SumByInsertDesc(x, xs[1..], key, f);
    }
  }

  /** Sorting does not change a sum. */
  lemma {:induction false} SumBySortDesc<T>(xs: seq<T>, key: T -> int, f: T -> int)
    ensures SumBy(SortDesc(xs, key), f) == SumBy(xs, f)
  {
    if xs != [] {
      SumBySortDesc(xs[1..], key, f);
      SumByInsertDesc(xs[0], SortDesc(xs[1..], key), key, f);
    }
  }

  lemma SortedDescTail<T>(xs: seq<T>, key: T -> int)
    requires xs != [] && SortedDesc(xs, key)
    ensures SortedDesc(xs[1..], key)
  {
    forall i, j | 0 <= i < j < |xs| - 1 ensures key(xs[1..][i]) >= key(xs[1..][j]) {
      assert xs[1..][i] == xs[i + 1] && xs[1..][j] == xs[j + 1];
    }
  }

  lemma {:induction false} WithKeyInsertDesc<T>(x: T, xs: seq<T>, key: T -> int, k: int)
    requires SortedDesc(xs, key)
    ensures WithKey(InsertDesc(x, xs, key), key, k)
         == (if key(x) == k then [x] else []) + WithKey(xs, key, k)
  {
    if xs == [] || key(x) >= key(xs[0]) {
      assert ([x] + xs)[1..] == xs;
    } else {
      SortedDescTail(xs, key);
      var rest := InsertDesc(x, xs[1..], key);
      var tail := WithKey(xs[1..], key, k);
      assert ([xs[0]] + rest)[1..] == rest;
      WithKeyInsertDesc(x, xs[1..], key, k);
      var head := if key(xs[0]) == k then [xs[0]] else [];
      var mid := if key(x) == k then [x] else [];
      assert WithKey([xs[0]] + rest, key, k) == head + WithKey(rest, key, k);
      assert WithKey(xs, key, k) == head + tail;
      assert head == [] || mid == [];
      assert head + (mid + tail) == mid + (head + tail);
    }
  }

  /** The sort is stable: elements with equal keys keep their relative
      order. */
  lemma {:induction false} SortDescIsStable<T>(xs: seq<T>, key: T -> int, k: int)
    ensures WithKey(SortDesc(xs, key), key, k) == WithKey(xs, key, k)
  {
    if xs != [] {
      SortDescIsStable(xs[1..], key, k);
      WithKeyInsertDesc(xs[0], SortDesc(xs[1..], key), key, k);
    }
  }

  /** Replacing one element changes a sum by the difference of the two
      terms. */
  lemma {:induction false} SumByUpdate<T>(xs: seq<T>, i: nat, x: T, f: T -> int)
    requires i < |xs|
    ensures SumBy(xs[i := x], f) == SumBy(xs, f) - f(xs[i]) + f(x)
  {
    if i > 0 {
      assert xs[i := x][1..] == xs[1..][i - 1 := x];
      SumByUpdate(xs[1..], i - 1, x, f);
    }
  }

  /** `xs.findIndex(p)`, with `None` for `-1`. */
  function FirstIndex<T>(xs: seq<T>, p: T -> bool): (r: Option<nat>)
    ensures r.Some? ==> r.value < |xs| && p(xs[r.value])
    ensures r.Some? ==> forall i :: 0 <= i < r.value ==> !p(xs[i])
    ensures r.None? ==> forall i :: 0 <= i < |xs| ==> !p(xs[i])
  {
    if xs == [] then None
    else if p(xs[0]) then Some(0)
    else match FirstIndex(xs[1..], p)
      case None => None
      case Some(k) => Some(k + 1)
  }

  /** `findIndex` sees only the test's verdict on each element. */
  lemma {:induction false} FirstIndexSame<T>(xs: seq<T>, ys: seq<T>, p: T -> bool)
    requires |xs| == |ys|
    requires forall i :: 0 <= i < |xs| ==> p(xs[i]) == p(ys[i])
    ensures FirstIndex(xs, p) == FirstIndex(ys, p)
  {
    if xs != [] && !p(xs[0]) {
      FirstIndexSame(xs[1..], ys[1..], p);
    }
  }

  /** An element is kept by a filter exactly when it is in the input and
      passes. */
  lemma {:induction false} FilterMembers<T>(xs: seq<T>, p: T -> bool)
    ensures forall x :: x in Filter(xs, p) ==> x in xs && p(x)
    ensures forall x :: x in xs && p(x) ==> x in Filter(xs, p)
  {
    if xs != [] {
      FilterMembers(xs[1..], p);
      assert forall x :: x in xs <==> x == xs[0] || x in xs[1..];
    }
  }

  /** A filter every element passes removes nothing. */
  lemma {:induction false} FilterAll<T>(xs: seq<T>, p: T -> bool)
    requires forall i :: 0 <= i < |xs| ==> p(xs[i])
    ensures Filter(xs, p) == xs
  {
    if xs != [] {
      FilterAll(xs[1..], p);
      assert [xs[0]] + xs[1..] == xs;
    }
  }

  /** Two filters in a row are one filter by the conjunction. */
  lemma {:induction false} FilterFilter<T>(xs: seq<T>, p: T -> bool, q: T -> bool, pq: T -> bool)
    requires forall x :: pq(x) == (p(x) && q(x))
    ensures Filter(Filter(xs, p), q) == Filter(xs, pq)
  {
    if xs != [] {
      FilterFilter(xs[1..], p, q, pq);
      var rest := Filter(xs[1..], p);
      if p(xs[0]) {
        assert Filter(xs, p) == [xs[0]] + rest;
        assert ([xs[0]] + rest)[1..] == rest;
      }
    }
  }

  /** Filtering keeps a descending order. */
  lemma {:induction false} FilterKeepsSortedDesc<T>(xs: seq<T>, p: T -> bool, key: T -> int)
    requires SortedDesc(xs, key)
    ensures SortedDesc(Filter(xs, p), key)
  {
    if xs != [] {
      SortedDescTail(xs, key);
      FilterKeepsSortedDesc(xs[1..], p, key);
      var tail := xs[1..];
      var rest := Filter(tail, p);
      if p(xs[0]) {
        SortedDescHeadIsMax(xs, key);
        FilterMembers(tail, p);
        forall y | y in rest ensures key(y) <= key(xs[0]) {
          var j :| 0 <= j < |tail| && tail[j] == y;
        }
        ConsSortedDesc(xs[0], rest, key);
      }
    }
  }

  /** A sum of differences is the difference of the sums. */
  lemma {:induction false} SumByDifference<T>(xs: seq<T>, f: T -> int, g: T -> int, h: T -> int)
    requires forall x :: h(x) == f(x) - g(x)
    ensures SumBy(xs, h) == SumBy(xs, f) - SumBy(xs, g)
  {
    if xs != [] {
      SumByDifference(xs[1..], f, g, h);
    }
  }

  /** Summing a mapped sequence is summing the composed term. */
  lemma {:induction false} SumByMap<T, U>(xs: seq<T>, m: T -> U, f: U -> int, fm: T -> int)
    requires forall x :: fm(x) == f(m(x))
    ensures SumBy(Map(xs, m), f) == SumBy(xs, fm)
  {
    if xs != [] {
      SumByMap(xs[1..], m, f, fm);
      assert Map(xs, m)[1..] == Map(xs[1..], m);
    }
  }
}
