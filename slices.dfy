/** Slice operations the order book performs on Go slices of orders and levels:
    the swap-with-last deletion loop (Limit.DeleteOrder, OrderBook.clearLimit)
    and sort.Sort under an integer key (Orders.Less, ByBestAsk, ByBestBid).
    sort.Sort itself is not modelled; SortBy is a verified insertion sort that
    produces the sorted permutation the source asks sort.Sort for. */
module Slices {

  /** s is in non-decreasing key order. */
  predicate SortedBy<T>(s: seq<T>, key: T -> int) {
    forall i, j :: 0 <= i < j < |s| ==> key(s[i]) <= key(s[j])
  }

  /** s is in strictly increasing key order (so no element occurs twice). */
  predicate StrictlySortedBy<T>(s: seq<T>, key: T -> int) {
    forall i, j :: 0 <= i < j < |s| ==> key(s[i]) < key(s[j])
  }

  /** No element occurs twice in s. */
  predicate Distinct<T(==)>(s: seq<T>) {
    forall i, j :: 0 <= i < j < |s| ==> s[i] != s[j]
  }

  /** Inserts x before the first element whose key is not smaller. */
  function Insert<T>(x: T, s: seq<T>, key: T -> int): seq<T> {
    if s == [] || key(x) <= key(s[0]) then [x] + s
    else [s[0]] + Insert(x, s[1..], key)
  }

  /** Inserting adds exactly x. */
  lemma {:induction false} InsertCount<T>(x: T, s: seq<T>, key: T -> int)
    ensures multiset(Insert(x, s, key)) == multiset(s) + multiset{x}
    ensures |Insert(x, s, key)| == |s| + 1
  {
    if s != [] && key(x) > key(s[0]) {
      InsertCount(x, s[1..], key);
      assert s == [s[0]] + s[1..];
    }
  }

  /** Every key after inserting x into a sorted s is at least key(x) or s's first key. */
  lemma {:induction false} InsertBound<T>(x: T, s: seq<T>, key: T -> int, low: int)
    requires SortedBy(s, key) && low <= key(x) && (s != [] ==> low <= key(s[0]))
    ensures forall j :: 0 <= j < |Insert(x, s, key)| ==> low <= key(Insert(x, s, key)[j])
  {
    if s != [] && key(x) > key(s[0]) {
      InsertBound(x, s[1..], key, low);
    }
  }

  /** Inserting into a sorted sequence keeps it sorted. */
  lemma {:induction false} InsertSorted<T>(x: T, s: seq<T>, key: T -> int)
    requires SortedBy(s, key)
    ensures SortedBy(Insert(x, s, key), key)
  {
    if s != [] && key(x) > key(s[0]) {
      var t := Insert(x, s[1..], key);
      InsertSorted(x, s[1..], key);
      InsertBound(x, s[1..], key, key(s[0]));
      assert Insert(x, s, key) == [s[0]] + t;
    }
  }

  /** The source sorts with sort.Sort; this stable insertion sort stands for it. */
  function SortBy<T>(s: seq<T>, key: T -> int): seq<T> {
    if s == [] then [] else Insert(s[0], SortBy(s[1..], key), key)
  }

  /** SortBy yields a sorted permutation of its input. */
  lemma {:induction false} SortBySorts<T>(s: seq<T>, key: T -> int)
    ensures SortedBy(SortBy(s, key), key)
    ensures multiset(SortBy(s, key)) == multiset(s)
    ensures |SortBy(s, key)| == |s|
  {
    if s != [] {
      var t := SortBy(s[1..], key);
      SortBySorts(s[1..], key);
      InsertSorted(s[0], t, key);
      InsertCount(s[0], t, key);
      assert SortBy(s, key) == Insert(s[0], t, key);
      assert multiset(s) == multiset(s[1..]) + multiset{s[0]} by {
        assert s == [s[0]] + s[1..];
      }
    }
  }

  /** Sorting keeps the same elements. */
  lemma SortByMembers<T>(s: seq<T>, key: T -> int)
    ensures forall x :: x in SortBy(s, key) ==> x in s
    ensures forall x :: x in s ==> x in SortBy(s, key)
  {
    SortBySorts(s, key);
    forall x | x in SortBy(s, key) ensures x in s {
      assert x in multiset(SortBy(s, key));
    }
    forall x | x in s ensures x in SortBy(s, key) {
      assert x in multiset(s);
    }
  }

  /** Sorting an already sorted sequence changes nothing. */
  lemma {:induction false} SortedIsFixpoint<T>(s: seq<T>, key: T -> int)
    requires SortedBy(s, key)
    ensures SortBy(s, key) == s
  {
    if s != [] {
      SortedIsFixpoint(s[1..], key);
      assert s == [s[0]] + s[1..];
    }
  }

  /** Sorting is idempotent: sorting the sorted slice again leaves it as it is. */
  lemma SortIdempotent<T>(s: seq<T>, key: T -> int)
    ensures SortBy(SortBy(s, key), key) == SortBy(s, key)
  {
    SortBySorts(s, key);
    SortedIsFixpoint(SortBy(s, key), key);
  }

  /** A sorted permutation of a strictly sorted sequence is that sequence: with
      distinct keys there is only one way to sort. */
  lemma {:induction false} SortedPermutationUnique<T>(a: seq<T>, b: seq<T>, key: T -> int)
    requires SortedBy(a, key) && StrictlySortedBy(b, key)
    requires multiset(a) == multiset(b)
    ensures a == b
  {
    if a == [] {
      assert |b| == |multiset(b)| == 0;
    } else {
      assert b != [] by { assert a[0] in multiset(b); }
      SameHead(a, b, key);
      assert a == [a[0]] + a[1..];
      assert b == [b[0]] + b[1..];
      assert multiset(a[1..]) == multiset(b[1..]) by {
        assert multiset(a[1..]) == multiset(a) - multiset{a[0]};
        assert multiset(b[1..]) == multiset(b) - multiset{b[0]};
      }
      SortedPermutationUnique(a[1..], b[1..], key);
    }
  }

  /** Two such sequences start with the same element. */
  lemma SameHead<T>(a: seq<T>, b: seq<T>, key: T -> int)
    requires a != [] && b != []
    requires SortedBy(a, key) && StrictlySortedBy(b, key)
    requires multiset(a) == multiset(b)
    ensures a[0] == b[0]
  {
    assert a[0] in multiset(b);
    assert b[0] in multiset(a);
    var k :| 0 <= k < |b| && b[k] == a[0];
    var l :| 0 <= l < |a| && a[l] == b[0];
    assert key(a[0]) <= key(a[l]) == key(b[0]);
    assert key(b[k]) == key(b[0]);
    assert k == 0;
  }

  /** s with every occurrence of x removed, the others kept in order. */
  function Without<T(==)>(s: seq<T>, x: T): (r: seq<T>)
    ensures forall y :: y in r ==> y in s && y != x
    ensures forall y :: y in s && y != x ==> y in r
    ensures multiset(r) == multiset(s)[x := 0]
  {
    if s == [] then []
    else
      assert s == [s[0]] + s[1..];
      if s[0] == x then Without(s[1..], x) else [s[0]] + Without(s[1..], x)
  }

  /** Removing an element keeps a sequence strictly sorted. */
  lemma {:induction false} WithoutStrictlySorted<T>(s: seq<T>, x: T, key: T -> int)
    requires StrictlySortedBy(s, key)
    ensures StrictlySortedBy(Without(s, x), key)
  {
    if s != [] {
      WithoutStrictlySorted(s[1..], x, key);
      var w := Without(s[1..], x);
      forall y | y in w ensures key(s[0]) < key(y) {
        var k :| 0 <= k < |s[1..]| && s[1..][k] == y;
        assert s[k + 1] == y;
      }
    }
  }

  /** The swap-with-last deletion loop from index i on: each slot holding x is
      overwritten with the last element and the slice shortened by one; the index
      moves on in either case, so the element swapped in is not looked at again. */
  function SwapRemoveFrom<T(==)>(r: seq<T>, x: T, i: nat): seq<T>
    decreases |r| - i
  {
    if i >= |r| then r
    else if r[i] == x then SwapRemoveFrom(r[i := r[|r| - 1]][..|r| - 1], x, i + 1)
    else SwapRemoveFrom(r, x, i + 1)
  }

  /** The whole deletion loop, started at index 0. */
  function SwapRemoval<T(==)>(s: seq<T>, x: T): seq<T> {
    SwapRemoveFrom(s, x, 0)
  }

  /** The deletion loop as the source writes it. */
  method SwapRemove<T(==)>(s: seq<T>, x: T) returns (r: seq<T>)
    ensures r == SwapRemoval(s, x)
  {
    r := s;
    var i := 0;
    while i < |r|
      invariant SwapRemoveFrom(r, x, i) == SwapRemoval(s, x)
    {
      if r[i] == x {
        r := r[i := r[|r| - 1]][..|r| - 1];
      }
      i := i + 1;
    }
  }

  /** From index i on, the loop only ever takes elements out. */
  lemma {:induction false} SwapRemoveFromShrinks<T>(r: seq<T>, x: T, i: nat)
    ensures multiset(SwapRemoveFrom(r, x, i)) <= multiset(r)
    decreases |r| - i
  {
    if i < |r| {
      if r[i] == x {
        DropBySwap(r, i);
        SwapRemoveFromShrinks(r[i := r[|r| - 1]][..|r| - 1], x, i + 1);
      } else {
        SwapRemoveFromShrinks(r, x, i + 1);
      }
    }
  }

  /** From index i on, the loop takes out copies of x only. */
  lemma {:induction false} SwapRemoveFromKeeps<T>(r: seq<T>, x: T, i: nat)
    ensures forall y :: y != x ==> multiset(SwapRemoveFrom(r, x, i))[y] == multiset(r)[y]
    decreases |r| - i
  {
    if i < |r| {
      if r[i] == x {
        DropBySwap(r, i);
        SwapRemoveFromKeeps(r[i := r[|r| - 1]][..|r| - 1], x, i + 1);
      } else {
        SwapRemoveFromKeeps(r, x, i + 1);
      }
    }
  }

  /** From index i on, the loop takes out at least one copy of x when x occurs at
      or after i, and changes nothing otherwise. */
  lemma {:induction false} SwapRemoveFromTakes<T>(r: seq<T>, x: T, i: nat)
    requires i <= |r|
    ensures x in r[i..] ==> multiset(SwapRemoveFrom(r, x, i))[x] < multiset(r)[x]
    ensures x !in r[i..] ==> SwapRemoveFrom(r, x, i) == r
    decreases |r| - i
  {
    if i < |r| {
      assert r[i..] == [r[i]] + r[i + 1..];
      if r[i] == x {
        var r' := r[i := r[|r| - 1]][..|r| - 1];
        DropBySwap(r, i);
        SwapRemoveFromShrinks(r', x, i + 1);
      } else {
        SwapRemoveFromTakes(r, x, i + 1);
      }
    }
  }

  /** What the deletion loop removes: copies of x only, at least one when x is
      present, and exactly one when x occurs at most once. */
  lemma SwapRemovalCounts<T>(s: seq<T>, x: T)
    ensures forall y :: y != x ==> multiset(SwapRemoval(s, x))[y] == multiset(s)[y]
    ensures x in s ==> multiset(SwapRemoval(s, x))[x] < multiset(s)[x]
    ensures x !in s ==> SwapRemoval(s, x) == s
    ensures multiset(s)[x] <= 1 ==> multiset(SwapRemoval(s, x)) == multiset(s) - multiset{x}
    ensures multiset(SwapRemoval(s, x)) <= multiset(s)
  {
    SwapRemoveFromKeeps(s, x, 0);
    SwapRemoveFromTakes(s, x, 0);
    SwapRemoveFromShrinks(s, x, 0);
    assert s[0..] == s;
    var m, n := multiset(SwapRemoval(s, x)), multiset(s);
    if n[x] == 1 {
      assert m[x] == 0;
      assert m == n - multiset{x} by {
        assert m <= n - multiset{x};
        assert n - multiset{x} <= m;
      }
    }
  }

  /** One step of the deletion loop removes exactly the element at i. */
  lemma DropBySwap<T>(r: seq<T>, i: nat)
    requires i < |r|
    ensures multiset(r[i := r[|r| - 1]][..|r| - 1]) == multiset(r) - multiset{r[i]}
  {
    var last := r[|r| - 1];
    var r' := r[i := last][..|r| - 1];
    if i == |r| - 1 {
      assert r == r' + [r[i]];
    } else {
      assert r == r[..i] + [r[i]] + r[i+1..|r|-1] + [last];
      assert r' == r[..i] + [last] + r[i+1..|r|-1];
    }
  }

  /** In a sequence without repeats every element occurs once. */
  lemma {:induction false} DistinctOnce<T>(s: seq<T>)
    requires Distinct(s)
    ensures forall y :: multiset(s)[y] <= 1
  {
    if s != [] {
      assert Distinct(s[1..]);
      DistinctOnce(s[1..]);
      assert s == [s[0]] + s[1..];
      assert s[0] !in s[1..];
    }
  }

  /** A sequence in which every element occurs at most once has no repeats. */
  lemma OnceDistinct<T>(s: seq<T>)
    requires forall y :: multiset(s)[y] <= 1
    ensures Distinct(s)
  {
    forall i, j | 0 <= i < j < |s| ensures s[i] != s[j] {
      assert s == s[..j] + s[j..];
      assert s[i] in s[..j] && s[j] in s[j..];
      assert multiset(s) == multiset(s[..j]) + multiset(s[j..]);
      assert multiset(s)[s[i]] >= multiset(s[..j])[s[i]] >= 1;
      assert multiset(s)[s[j]] >= multiset(s[j..])[s[j]] >= 1;
    }
  }

  /** Reordering keeps a sequence free of repeats. */
  lemma DistinctPermutation<T>(a: seq<T>, b: seq<T>)
    requires Distinct(a) && multiset(a) == multiset(b)
    ensures Distinct(b)
  {
    DistinctOnce(a);
    OnceDistinct(b);
  }

  /** On a sequence without repeats, the deletion loop takes out x and keeps
      every other element, leaving a sequence without repeats. */
  lemma SwapRemovalDistinct<T>(s: seq<T>, x: T)
    requires Distinct(s)
    ensures Distinct(SwapRemoval(s, x))
    ensures forall y :: y in SwapRemoval(s, x) ==> y in s && y != x
    ensures forall y :: y in s && y != x ==> y in SwapRemoval(s, x)
  {
    DistinctOnce(s);
    SwapRemovalCounts(s, x);
    OnceDistinct(SwapRemoval(s, x));
    forall y | y in SwapRemoval(s, x) ensures y in s && y != x {
      assert multiset(SwapRemoval(s, x))[y] > 0;
    }
    forall y | y in s && y != x ensures y in SwapRemoval(s, x) {
      assert multiset(s)[y] > 0;
    }
  }

  /** Taking an element out of the middle of a sequence takes one copy of it out of its multiset. */
  lemma MultisetApart<T>(u: seq<T>, x: T, v: seq<T>)
    ensures multiset(u + v) == multiset(u + ([x] + v)) - multiset{x}
  {
    assert multiset(u + ([x] + v)) == multiset(u) + multiset{x} + multiset(v);
  }

  /** The first i + 1 elements are the first i and then the next. */
  lemma TakeSnoc<T>(s: seq<T>, i: nat)
    requires i < |s|
    ensures s[..i + 1] == s[..i] + [s[i]]
  {
  }

  lemma SplitLast<T>(s: seq<T>)
    requires s != []
    ensures s[..|s| - 1] + [s[|s| - 1]] == s
  {
  }

  lemma SnocTake<T>(s: seq<T>, x: T)
    ensures (s + [x])[..|s|] == s && (s + [x])[|s|] == x
  {
  }

  lemma SplitAt<T>(s: seq<T>, j: nat)
    requires j < |s|
    ensures s == s[..j] + ([s[j]] + s[j + 1..])
  {
  }

  function Min(a: int, b: int): int {
    if a <= b then a else b
  }
}
