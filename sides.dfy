/** One side of an order book (its asks or its bids): the slice of price levels,
    the map from price to level that indexes it, its total volume, and the
    amounts a market order takes from it when it sweeps the levels in turn. */
module Sides {
  import opened Slices
  import opened Level

  /** ByBestAsk.Less: asks are sorted cheapest first. */
  function AskKey(l: Limit): int {
    l.price
  }

  /** ByBestBid.Less: bids are sorted dearest first. */
  function BidKey(l: Limit): int {
    -l.price
  }

  /** Sorting by AskKey (sort.Sort with ByBestAsk) lists the same levels,
      cheapest first. */
  lemma AsksCheapestFirst(side: seq<Limit>)
    ensures var sorted := SortBy(side, AskKey);
      && multiset(sorted) == multiset(side)
      && forall i, j :: 0 <= i < j < |sorted| ==> sorted[i].price <= sorted[j].price
  {
    SortBySorts(side, AskKey);
  }

  /** Sorting by BidKey (sort.Sort with ByBestBid) lists the same levels,
      dearest first. */
  lemma BidsDearestFirst(side: seq<Limit>)
    ensures var sorted := SortBy(side, BidKey);
      && multiset(sorted) == multiset(side)
      && forall i, j :: 0 <= i < j < |sorted| ==> sorted[i].price >= sorted[j].price
  {
    SortBySorts(side, BidKey);
  }

  /** Every order resting in a level of the side. */
  ghost function Resting(side: seq<Limit>): set<Order>
    reads side
  {
    set l, x | l in side && x in l.orders :: x
  }

  /** The levels a slice lists. */
  function LevelSet(side: seq<Limit>): set<Limit> {
    set l | l in side
  }

  /** Two slices listing the same levels hold the same resting orders. */
  lemma RestingSameLevels(a: seq<Limit>, b: seq<Limit>)
    requires forall l :: l in a ==> l in b
    requires forall l :: l in b ==> l in a
    ensures Resting(a) == Resting(b)
  {
  }

  /** The slice and the price map agree: no level is listed twice, every price
      maps to a listed level at that price, and every listed level is the one
      its price maps to (so no two levels share a price). */
  predicate Indexed(side: seq<Limit>, index: map<int, Limit>) {
    && Distinct(side)
    && (forall p :: p in index ==> index[p] in side && index[p].price == p)
    && (forall l :: l in side ==> l.price in index && index[l.price] == l)
  }

  /** Sorting a side (Asks, Bids) keeps it in agreement with its map. */
  lemma IndexedPermutation(side: seq<Limit>, s: seq<Limit>, index: map<int, Limit>)
    requires Indexed(side, index) && multiset(s) == multiset(side)
    ensures Indexed(s, index)
  {
    DistinctPermutation(side, s);
    assert forall l :: l in s <==> l in side by {
      forall l ensures l in s <==> l in side {
        assert l in s <==> l in multiset(s);
        assert l in side <==> l in multiset(side);
      }
    }
  }

  /** Sorting a side keeps it well formed: the same levels, so the same
      resting orders. */
  lemma SideValidPermutation(side: seq<Limit>, s: seq<Limit>, index: map<int, Limit>)
    requires SideValid(side, index) && multiset(s) == multiset(side)
    ensures SideValid(s, index) && Resting(s) == Resting(side)
    ensures forall l :: l in s <==> l in side
  {
    IndexedPermutation(side, s, index);
    forall l | l in s ensures LevelValid(s, l) {
      assert LevelValid(side, l);
    }
  }

  /** PlaceLimitOrder at a new price: the new level, appended to the side and
      entered in the map, keeps the two in agreement. */
  lemma IndexedAppend(side: seq<Limit>, index: map<int, Limit>, l: Limit)
    requires Indexed(side, index) && l.price !in index
    ensures Indexed(side + [l], index[l.price := l])
  {
    assert l !in side;
  }

  /** A new empty level at a price the map lacks, appended to a well-formed
      side and entered in its map, keeps the side well formed. */
  lemma SideValidAppend(side: seq<Limit>, index: map<int, Limit>, l: Limit)
    requires SideValid(side, index) && l.price !in index && l.orders == [] && l.totalVolume == 0
    ensures SideValid(side + [l], index[l.price := l]) && Resting(side + [l]) == Resting(side)
  {
    IndexedAppend(side, index, l);
    assert Resting(side + [l]) == Resting(side);
    forall m | m in side + [l] ensures LevelValid(side + [l], m) {
      if m != l {
        assert LevelValid(side, m);
      }
    }
  }

  /** clearLimit on a listed level: the map loses its price, the side loses it
      and keeps every other level, and the two still agree. */
  lemma ClearIndexed(side: seq<Limit>, index: map<int, Limit>, l: Limit)
    requires Indexed(side, index) && l in side
    ensures Indexed(SwapRemoval(side, l), index - {l.price})
    ensures forall y :: y in SwapRemoval(side, l) ==> y in side && y != l
    ensures forall y :: y in side && y != l ==> y in SwapRemoval(side, l)
  {
    SwapRemovalDistinct(side, l);
    forall p | p in index - {l.price} ensures index[p] in SwapRemoval(side, l) {
      assert index[p] != l;
    }
    forall y | y in SwapRemoval(side, l) ensures y.price != l.price {
      assert y in side && y != l;
    }
  }

  /** A well-formed side: indexed by price, and every level valid. */
  ghost predicate SideValid(side: seq<Limit>, index: map<int, Limit>)
    reads side, Resting(side)
  {
    Indexed(side, index) && forall l :: l in side ==> LevelValid(side, l)
  }

  /** A level of the side is valid (its orders are among the side's resting orders). */
  ghost predicate LevelValid(side: seq<Limit>, l: Limit)
    requires l in side
    reads side, Resting(side)
  {
    assert forall x :: x in l.orders ==> x in Resting(side);
    l.Valid()
  }

  /** The sum of the TotalVolume of the levels of a side. */
  function SideVolume(side: seq<Limit>): int
    reads side
  {
    if side == [] then 0 else SideVolume(side[..|side| - 1]) + side[|side| - 1].totalVolume
  }

  twostate lemma {:induction false} SideVolumeKept(new side: seq<Limit>)
    requires old(allocated(side))
    requires forall l :: l in side ==> l.totalVolume == old(l.totalVolume)
    ensures SideVolume(side) == old(SideVolume(side))
  {
    if side != [] {
      SideVolumeKept(side[..|side| - 1]);
    }
  }

  /** AskTotalVolume and BidTotalVolume: add up the TotalVolume of each level. */
  method TotalVolume(side: seq<Limit>) returns (total: int)
    ensures total == SideVolume(side)
  {
    total := 0;
    var i := 0;
    while i < |side|
      invariant i <= |side| && total == SideVolume(side[..i])
    {
      assert side[..i + 1][..i] == side[..i];
      total := total + side[i].totalVolume;
      i := i + 1;
    }
    assert side[..|side|] == side;
  }

  lemma {:induction false} SideVolumeAppend(a: seq<Limit>, b: seq<Limit>)
    ensures SideVolume(a + b) == SideVolume(a) + SideVolume(b)
  {
    if b != [] {
      var n := |b| - 1;
      assert (a + b)[..|a| + n] == a + b[..n];
      SideVolumeAppend(a, b[..n]);
    } else {
      assert a + b == a;
    }
  }

  /** The total volume of a side does not depend on the order of its levels,
      so sorting the side (Asks, Bids) keeps it. */
  lemma {:induction false} SideVolumePermutation(a: seq<Limit>, b: seq<Limit>)
    requires multiset(a) == multiset(b)
    ensures SideVolume(a) == SideVolume(b)
  {
    if a != [] {
      var n := |a| - 1;
      assert a == a[..n] + [a[n]];
      assert a[n] in multiset(b);
      var j :| 0 <= j < |b| && b[j] == a[n];
      RemoveAt(b, j);
      SideVolumePermutation(a[..n], b[..j] + b[j + 1..]);
    } else {
      assert |b| == |multiset(b)| == 0;
    }
  }

  /** Taking out the level at index j takes out one copy of it and its volume. */
  lemma RemoveAt(b: seq<Limit>, j: nat)
    requires j < |b|
    ensures multiset(b[..j] + b[j + 1..]) == multiset(b) - multiset{b[j]}
    ensures SideVolume(b) == SideVolume(b[..j] + b[j + 1..]) + b[j].totalVolume
  {
    var x, u, v := b[j], b[..j], b[j + 1..];
    SplitAt(b, j);
    MultisetApart(u, x, v);
    VolumeApart(u, x, v);
  }

  lemma VolumeApart(u: seq<Limit>, x: Limit, v: seq<Limit>)
    ensures SideVolume(u + ([x] + v)) == SideVolume(u + v) + x.totalVolume
  {
    SideVolumeAppend(u, [x] + v);
    SideVolumeAppend([x], v);
    SideVolumeAppend(u, v);
    assert SideVolume([x]) == x.totalVolume by {
      assert [x][..0] == [];
    }
  }

  /** On a side whose levels are valid, the total volume is the sum of the
      sizes of all resting orders. */
  lemma {:induction false} SideVolumeIsDepth(side: seq<Limit>)
    requires forall l :: l in side ==> l.Valid()
    ensures SideVolume(side) == SumAll(Depths(side))
  {
    if side != [] {
      var n := |side| - 1;
      SideVolumeIsDepth(side[..n]);
      assert Depths(side)[..n] == Depths(side[..n]);
      assert side[n] in side;
      SumOfSizes(side[n].orders);
    }
  }

  /** The orders of each level, level by level. */
  ghost function Queues(side: seq<Limit>): (r: seq<seq<Order>>)
    reads side
    ensures |r| == |side| && forall k :: 0 <= k < |side| ==> r[k] == side[k].orders
  {
    seq(|side|, k reads side requires 0 <= k < |side| => side[k].orders)
  }

  /** The sizes of the orders of each level, level by level. */
  ghost function Depths(side: seq<Limit>): (r: seq<seq<int>>)
    reads side, Resting(side)
    ensures |r| == |side| && forall k :: 0 <= k < |side| ==> r[k] == Sizes(side[k].orders)
  {
    seq(|side|, k reads side, Resting(side) requires 0 <= k < |side| => LevelSizes(side, side[k]))
  }

  ghost function LevelSizes(side: seq<Limit>, l: Limit): seq<int>
    requires l in side
    reads side, Resting(side)
  {
    assert forall x :: x in l.orders ==> x in Resting(side);
    Sizes(l.orders)
  }

  /** The TotalVolume of each level, level by level. */
  ghost function Volumes(side: seq<Limit>): (r: seq<int>)
    reads side
    ensures |r| == |side| && forall k :: 0 <= k < |side| ==> r[k] == side[k].totalVolume
  {
    seq(|side|, k reads side requires 0 <= k < |side| => side[k].totalVolume)
  }

  /** Levels whose orders, volumes and sizes are as they were show the same
      queues, depths and volumes. */
  twostate lemma LevelsKept(new side: seq<Limit>)
    requires old(allocated(side))
    requires forall l :: l in side ==> l.orders == old(l.orders) && l.totalVolume == old(l.totalVolume)
    requires forall l, x :: l in side && x in l.orders ==> x.size == old(x.size)
    ensures Resting(side) == old(Resting(side))
    ensures Queues(side) == old(Queues(side)) && Volumes(side) == old(Volumes(side))
    ensures Depths(side) == old(Depths(side))
  {
    forall k | 0 <= k < |side| ensures Sizes(side[k].orders) == old(Sizes(side[k].orders)) {
      SizesUnchanged(side[k].orders);
    }
  }

  /** The sum of all the sizes of all the levels. */
  function SumAll(rss: seq<seq<int>>): int {
    if rss == [] then 0 else SumAll(rss[..|rss| - 1]) + Sum(rss[|rss| - 1])
  }

  /** The amounts a market order of size want takes from each level of a side,
      visited in the given order: each level is swept (Limit.Fill) with whatever
      the levels before it left unfilled. Every level is visited, so a level
      after the order is filled still yields its one zero-size fill. */
  function SideSweep(rss: seq<seq<int>>, want: int): (fills: seq<seq<int>>)
    ensures |fills| == |rss|
  {
    if rss == [] then []
    else
      var n := |rss| - 1;
      var before := SideSweep(rss[..n], want);
      before + [Sweep(rss[n], want - SumAll(before))]
  }

  /** A sweep of a side takes from no resting order more than it holds. */
  lemma {:induction false} SideSweepWithin(rss: seq<seq<int>>, want: int)
    ensures var F := SideSweep(rss, want);
      forall k :: 0 <= k < |F| ==> |F[k]| <= |rss[k]| && forall i :: 0 <= i < |F[k]| ==> F[k][i] <= rss[k][i]
  {
    if rss != [] {
      var n := |rss| - 1;
      var before := SideSweep(rss[..n], want);
      SideSweepWithin(rss[..n], want);
      SweepWithin(rss[n], want - SumAll(before));
      var F := SideSweep(rss, want);
      assert F == before + [Sweep(rss[n], want - SumAll(before))];
      forall k | 0 <= k < n ensures F[k] == before[k] && rss[k] == rss[..n][k] {
      }
    }
  }

  /** Limit.Fill empties a level exactly when the sweep cuts all of its orders. */
  predicate Drained(rs: seq<int>, fills: seq<int>) {
    |fills| <= |rs| && Cut(rs, fills) == |rs|
  }

  /** The matches recorded by a fill of one level: the k-th pairs resting order k with o. */
  function Pairs(s: seq<Order>, o: Order, fills: seq<int>, price: int): seq<Match> {
    if s == [] || fills == [] then [] else [Pair(s[0], o, fills[0], price)] + Pairs(s[1..], o, fills[1..], price)
  }

  /** The matches of a sweep of the levels, one level after the other. */
  function SideMatches(levels: seq<Limit>, queues: seq<seq<Order>>, o: Order, fills: seq<seq<int>>): seq<Match>
    requires |levels| == |queues| == |fills|
  {
    if levels == [] then []
    else
      var n := |levels| - 1;
      SideMatches(levels[..n], queues[..n], o, fills[..n]) + Pairs(queues[n], o, fills[n], levels[n].price)
  }

  /** The side after clearLimit was called, in turn, on each of the levels that
      the fills drained. */
  function Clear(side: seq<Limit>, levels: seq<Limit>, rss: seq<seq<int>>, fills: seq<seq<int>>): seq<Limit>
    requires |levels| == |rss| == |fills|
  {
    if levels == [] then side
    else
      var n := |levels| - 1;
      var before := Clear(side, levels[..n], rss[..n], fills[..n]);
      if Drained(rss[n], fills[n]) then SwapRemoval(before, levels[n]) else before
  }

  /** The prices of the levels that the fills drained. */
  function DrainedPrices(levels: seq<Limit>, rss: seq<seq<int>>, fills: seq<seq<int>>): set<int>
    requires |levels| == |rss| == |fills|
  {
    if levels == [] then {}
    else
      var n := |levels| - 1;
      DrainedPrices(levels[..n], rss[..n], fills[..n]) + if Drained(rss[n], fills[n]) then {levels[n].price} else {}
  }

  /** Matches recorded one by one are the Pairs of the fills. */
  lemma {:induction false} RecordedPairs(matches: seq<Match>, s: seq<Order>, o: Order, fills: seq<int>, price: int)
    requires Recorded(matches, s, o, fills, price)
    ensures matches == Pairs(s, o, fills, price)
  {
    if fills != [] {
      assert Recorded(matches[1..], s[1..], o, fills[1..], price);
      RecordedPairs(matches[1..], s[1..], o, fills[1..], price);
    }
  }

  /** The sizes in the matches of one level add up to the fills. */
  lemma {:induction false} PairsFilled(s: seq<Order>, o: Order, fills: seq<int>, price: int)
    requires |fills| <= |s|
    ensures SumFilled(Pairs(s, o, fills, price)) == Sum(fills)
  {
    if fills != [] {
      PairsFilled(s[1..], o, fills[1..], price);
    }
  }

  lemma {:induction false} SumFilledAppend(a: seq<Match>, b: seq<Match>)
    ensures SumFilled(a + b) == SumFilled(a) + SumFilled(b)
  {
    if a != [] {
      assert (a + b)[0] == a[0];
      assert (a + b)[1..] == a[1..] + b;
      SumFilledAppend(a[1..], b);
    } else {
      assert a + b == b;
    }
  }

  /** The sizes in all the matches of a sweep add up to everything it took. */
  lemma {:induction false} SideMatchesFilled(levels: seq<Limit>, queues: seq<seq<Order>>, o: Order, fills: seq<seq<int>>)
    requires |levels| == |queues| == |fills|
    requires forall k :: 0 <= k < |fills| ==> |fills[k]| <= |queues[k]|
    ensures SumFilled(SideMatches(levels, queues, o, fills)) == SumAll(fills)
  {
    if levels != [] {
      var n := |levels| - 1;
      SideMatchesFilled(levels[..n], queues[..n], o, fills[..n]);
      PairsFilled(queues[n], o, fills[n], levels[n].price);
      SumFilledAppend(SideMatches(levels[..n], queues[..n], o, fills[..n]), Pairs(queues[n], o, fills[n], levels[n].price));
    }
  }

  lemma {:induction false} SumNonNegative(s: seq<int>)
    requires forall i :: 0 <= i < |s| ==> s[i] >= 0
    ensures Sum(s) >= 0
  {
    if s != [] {
      SumNonNegative(s[1..]);
    }
  }

  /** With sizes of at least zero, a sweep of one level takes the wanted size
      or everything the level holds, whichever is less. */
  lemma {:induction false} SweepTotal(rs: seq<int>, want: int)
    requires want >= 0 && forall i :: 0 <= i < |rs| ==> rs[i] >= 0
    ensures Sum(Sweep(rs, want)) == Min(want, Sum(rs))
  {
    if rs != [] {
      SumNonNegative(rs[1..]);
      var f := Min(rs[0], want);
      if want - f != 0 {
        SweepTotal(rs[1..], want - f);
        assert Sweep(rs, want) == [f] + Sweep(rs[1..], want - f);
      }
    }
  }

  /** Every order of every level has a size of at least zero. */
  predicate AllNonNegative(rss: seq<seq<int>>) {
    forall k, i :: 0 <= k < |rss| && 0 <= i < |rss[k]| ==> rss[k][i] >= 0
  }

  /** With sizes of at least zero, a sweep of a side takes the wanted size or
      everything the side holds, whichever is less. */
  lemma {:induction false} SideSweepTotal(rss: seq<seq<int>>, want: int)
    requires want >= 0 && AllNonNegative(rss)
    ensures SumAll(SideSweep(rss, want)) == Min(want, SumAll(rss))
  {
    if rss != [] {
      var n := |rss| - 1;
      SideSweepLast(rss, want);
      NonNegativeLast(rss, n);
      SideSweepTotal(rss[..n], want);
      var before := SideSweep(rss[..n], want);
      SumAllSnoc(before, Sweep(rss[n], want - SumAll(before)));
      SweepTotal(rss[n], want - SumAll(before));
      SumNonNegative(rss[n]);
      MinAdd(want, SumAll(rss[..n]), Sum(rss[n]));
    }
  }

  /** The last level of a sweep, taken apart from the levels before it. */
  lemma {:induction false} SideSweepLast(rss: seq<seq<int>>, want: int)
    requires rss != []
    ensures var n := |rss| - 1;
      SideSweep(rss, want) == SideSweep(rss[..n], want) + [Sweep(rss[n], want - SumAll(SideSweep(rss[..n], want)))]
    ensures SumAll(rss) == SumAll(rss[..|rss| - 1]) + Sum(rss[|rss| - 1])
  {
  }

  /** One more level after rss is swept with what rss left unfilled. */
  lemma SideSweepSnoc(rss: seq<seq<int>>, rs: seq<int>, want: int)
    ensures SideSweep(rss + [rs], want) == SideSweep(rss, want) + [Sweep(rs, want - SumAll(SideSweep(rss, want)))]
  {
    SnocTake(rss, rs);
  }

  lemma SumAllSnoc(a: seq<seq<int>>, x: seq<int>)
    ensures SumAll(a + [x]) == SumAll(a) + Sum(x)
  {
    SnocTake(a, x);
  }

  /** The levels of a side without negative sizes, taken apart the same way. */
  lemma NonNegativeLast(rss: seq<seq<int>>, n: nat)
    requires n == |rss| - 1 && AllNonNegative(rss)
    ensures AllNonNegative(rss[..n])
    ensures forall i :: 0 <= i < |rss[n]| ==> rss[n][i] >= 0
  {
  }

  lemma MinAdd(want: int, a: int, b: int)
    requires b >= 0
    ensures Min(want, a) + Min(want - Min(want, a), b) == Min(want, a + b)
  {
  }

  /** Levels whose orders all have sizes of at least zero have depths of at
      least zero. */
  lemma DepthsNonNegative(side: seq<Limit>)
    requires forall l :: l in side ==> l.NonNegative()
    ensures AllNonNegative(Depths(side))
  {
    forall k, i | 0 <= k < |side| && 0 <= i < |Depths(side)[k]| ensures Depths(side)[k][i] >= 0 {
      assert side[k] in side;
    }
  }

  /** Levels whose depths are at least zero hold orders of sizes at least zero. */
  lemma NonNegativeFromDepths(side: seq<Limit>)
    requires AllNonNegative(Depths(side))
    ensures forall l :: l in side ==> l.NonNegative()
  {
    forall l | l in side ensures l.NonNegative() {
      var k :| 0 <= k < |side| && side[k] == l;
      assert Depths(side)[k] == Sizes(l.orders);
    }
  }

  /** A market order no bigger than the side it trades against is filled
      completely: the sweep takes exactly its size. */
  lemma MarketOrderFilled(rss: seq<seq<int>>, want: int)
    requires 0 <= want <= SumAll(rss) && AllNonNegative(rss)
    ensures SumAll(SideSweep(rss, want)) == want
  {
    SideSweepTotal(rss, want);
  }

  /** A market order of a size of at least zero and at most the volume of a
      well-formed side without negative sizes is filled completely by a sweep
      of that side in any order of its levels. */
  lemma SideFillable(side: seq<Limit>, index: map<int, Limit>, key: Limit -> int, want: int)
    requires SideValid(side, index) && 0 <= want <= SideVolume(side) && forall l :: l in side ==> l.NonNegative()
    ensures SumAll(SideSweep(Depths(SortBy(side, key)), want)) == want
  {
    var sorted := SortBy(side, key);
    SortBySorts(side, key);
    SideValidPermutation(side, sorted, index);
    SideVolumePermutation(side, sorted);
    forall l | l in sorted ensures l.Valid() && l.NonNegative() {
      assert LevelValid(sorted, l);
    }
    SideVolumeIsDepth(sorted);
    DepthsNonNegative(sorted);
    MarketOrderFilled(Depths(sorted), want);
  }

  /** Price priority: once a level is not swept completely, the order is
      filled, and every level visited after it gives nothing. */
  lemma SideSweepPriority(rss: seq<seq<int>>, want: int)
    requires want >= 0 && AllNonNegative(rss)
    ensures var fills := SideSweep(rss, want);
      forall k, j :: 0 <= k < j < |rss| && fills[k] != rss[k] ==> Sum(fills[j]) == 0
  {
    var fills := SideSweep(rss, want);
    forall k, j | 0 <= k < j < |rss| && fills[k] != rss[k] ensures Sum(fills[j]) == 0 {
      AfterFilled(rss, want, k, j);
    }
  }

  /** A level j after a level k that the sweep did not empty yields nothing. */
  lemma {:induction false} AfterFilled(rss: seq<seq<int>>, want: int, k: nat, j: nat)
    requires want >= 0 && AllNonNegative(rss) && k < j < |rss|
    requires SideSweep(rss, want)[k] != rss[k]
    ensures Sum(SideSweep(rss, want)[j]) == 0
  {
    var n := |rss| - 1;
    SideSweepLast(rss, want);
    NonNegativeLast(rss, n);
    var before := SideSweep(rss[..n], want);
    assert SideSweep(rss, want)[k] == before[k] && rss[..n][k] == rss[k];
    if j < n {
      assert SideSweep(rss, want)[j] == before[j];
      AfterFilled(rss[..n], want, k, j);
    } else {
      SideSweepUntilFilled(rss[..n], want, k);
      SweepTotal(rss[n], 0);
      SumNonNegative(rss[n]);
    }
  }

  /** With sizes of at least zero, a level the sweep did not empty filled the
      order: nothing is wanted after it. */
  lemma {:induction false} SideSweepUntilFilled(rss: seq<seq<int>>, want: int, k: nat)
    requires want >= 0 && AllNonNegative(rss) && k < |rss|
    requires SideSweep(rss, want)[k] != rss[k]
    ensures SumAll(SideSweep(rss, want)) == want
  {
    var n := |rss| - 1;
    SideSweepLast(rss, want);
    NonNegativeLast(rss, n);
    var before := SideSweep(rss[..n], want);
    SumAllSnoc(before, Sweep(rss[n], want - SumAll(before)));
    SideSweepTotal(rss[..n], want);
    if k == n {
      SweepFillsOrDrains(rss[n], want - SumAll(before));
    } else {
      SideSweepUntilFilled(rss[..n], want, k);
      SweepTotal(rss[n], 0);
    }
  }
}
