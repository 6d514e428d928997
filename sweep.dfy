/** A market order sweeping the levels of one side in turn, level by level:
    what Limit.Fill and clearLimit have done after the first levels, stated on
    snapshots of the levels (their orders, sizes and volumes) and on F, the
    fills those levels gave, so that one more level is one more step. */
module Sweeps {
  import opened Slices
  import opened Level
  import opened Sides

  /** F holds the fills of the first |F| levels, whose order sizes before the
      sweep were RS, and W what the market order still wanted before each of
      them and after the last: each level was swept (Limit.Fill) with what the
      levels before it left unfilled, starting from W[0]. */
  predicate SweptFills(F: seq<seq<int>>, W: seq<int>, RS: seq<seq<int>>) {
    && |F| <= |RS| && |W| == |F| + 1
    && forall k {:trigger F[k]} :: 0 <= k < |F| ==> F[k] == Sweep(RS[k], W[k]) && W[k + 1] == W[k] - Sum(F[k])
  }

  /** Those are SideSweep's fills for an order of size W[0], and what is left
      unfilled is W[0] less all of them. */
  lemma {:induction false} FillsAreSideSweep(F: seq<seq<int>>, W: seq<int>, RS: seq<seq<int>>)
    requires SweptFills(F, W, RS)
    ensures F == SideSweep(RS[..|F|], W[0]) && W[|F|] == W[0] - SumAll(F)
  {
    if F != [] {
      var n := |F| - 1;
      SweptLast(F, W, RS);
      FillsAreSideSweep(F[..n], W[..n + 1], RS);
      SweptStep(F, W, RS);
    }
  }

  /** The last level's fill extends the fills of the levels before it. */
  lemma SweptStep(F: seq<seq<int>>, W: seq<int>, RS: seq<seq<int>>)
    requires 0 < |F| <= |RS| && |W| == |F| + 1
    requires var n := |F| - 1;
      && F[..n] == SideSweep(RS[..n], W[0]) && W[n] == W[0] - SumAll(F[..n])
      && F[n] == Sweep(RS[n], W[n]) && W[n + 1] == W[n] - Sum(F[n])
    ensures F == SideSweep(RS[..|F|], W[0]) && W[|F|] == W[0] - SumAll(F)
  {
    var n := |F| - 1;
    SideSweepStep(RS, n, W[0], F[..n], W[n], F[n]);
    SumAllSnoc(F[..n], F[n]);
    SplitLast(F);
  }

  /** The fills before the last level are swept fills too. */
  lemma SweptLast(F: seq<seq<int>>, W: seq<int>, RS: seq<seq<int>>)
    requires SweptFills(F, W, RS) && F != []
    ensures var n := |F| - 1;
      && SweptFills(F[..n], W[..n + 1], RS) && W[..n + 1][0] == W[0] && W[..n + 1][n] == W[n]
      && F[n] == Sweep(RS[n], W[n]) && W[n + 1] == W[n] - Sum(F[n])
  {
  }

  /** One more level of SideSweep. */
  lemma SideSweepStep(RS: seq<seq<int>>, n: nat, want: int, F0: seq<seq<int>>, left: int, f: seq<int>)
    requires n < |RS| && F0 == SideSweep(RS[..n], want) && left == want - SumAll(F0) && f == Sweep(RS[n], left)
    ensures SideSweep(RS[..n + 1], want) == F0 + [f]
  {
    TakeSnoc(RS, n);
    SideSweepSnoc(RS[..n], RS[n], want);
  }

  /** Fills for every level are SideSweep's over the whole side. */
  lemma FillsCoverSide(F: seq<seq<int>>, W: seq<int>, RS: seq<seq<int>>)
    requires SweptFills(F, W, RS) && |F| == |RS|
    ensures F == SideSweep(RS, W[0])
  {
    FillsAreSideSweep(F, W, RS);
    assert RS[..|F|] == RS;
  }

  /** A market order o, after the levels L[..|F|], whose orders were O, gave
      it the fills F: its size is what it still wants, and the matches are
      those of those levels. */
  predicate SweptOrder(o: Order, L: seq<Limit>, O: seq<seq<Order>>, F: seq<seq<int>>, W: seq<int>,
                       size: int, matches: seq<Match>)
  {
    && |O| == |L| && |F| <= |L| && |W| == |F| + 1
    && size == W[|F|]
    && matches == SideMatches(L[..|F|], O[..|F|], o, F)
  }

  /** ... the levels swept hold the orders after their cut, the others the
      orders they had (Qs are the orders of the levels now)... */
  predicate SweptQueues(Qs: seq<seq<Order>>, O: seq<seq<Order>>, RS: seq<seq<int>>, F: seq<seq<int>>) {
    && |Qs| == |O| && |RS| == |O| && |F| <= |O|
    && (forall k :: 0 <= k < |O| ==> |O[k]| == |RS[k]|)
    && (forall k :: 0 <= k < |F| ==> |F[k]| <= |RS[k]| && Qs[k] == O[k][Cut(RS[k], F[k])..])
    && (forall k :: |F| <= k < |O| ==> Qs[k] == O[k])
  }

  /** ... the orders left in the levels swept have their Remaining sizes, and
      the levels not yet reached keep the sizes they had (Ds are the sizes of
      the orders of the levels now)... */
  predicate SweptDepths(Ds: seq<seq<int>>, RS: seq<seq<int>>, F: seq<seq<int>>) {
    && |Ds| == |RS| && |F| <= |RS|
    && (forall k :: 0 <= k < |F| ==> |F[k]| <= |RS[k]| && Ds[k] == Remaining(RS[k], F[k])[Cut(RS[k], F[k])..])
    && (forall k :: |F| <= k < |RS| ==> Ds[k] == RS[k])
  }

  /** ... and the levels swept have lost their fills from their volume, the
      others keep the volume V they had (Vs are the volumes now). */
  predicate SweptVolumes(Vs: seq<int>, V: seq<int>, F: seq<seq<int>>) {
    && |Vs| == |V| && |F| <= |V|
    && (forall k :: 0 <= k < |F| ==> Vs[k] == V[k] - Sum(F[k]))
    && (forall k :: |F| <= k < |V| ==> Vs[k] == V[k])
  }

  /** All of the above: the levels L of a side, seen through their orders Qs,
      sizes Ds and volumes Vs, and o, after the first |F| levels were swept. */
  predicate SweptValues(o: Order, L: seq<Limit>, Qs: seq<seq<Order>>, Ds: seq<seq<int>>, Vs: seq<int>, size: int,
                        O: seq<seq<Order>>, RS: seq<seq<int>>, V: seq<int>, F: seq<seq<int>>, W: seq<int>,
                        matches: seq<Match>)
  {
    && |RS| == |L| && |V| == |L|
    && SweptFills(F, W, RS)
    && SweptOrder(o, L, O, F, W, size, matches)
    && SweptQueues(Qs, O, RS, F)
    && SweptDepths(Ds, RS, F)
    && SweptVolumes(Vs, V, F)
  }

  /** The side and price map while the levels L, the side before the sweep,
      are swept in turn: after the first |F|, the side has lost, by
      clearLimit, the levels the fills F drained, in that order, and the price
      map I0 their prices... */
  predicate SweptCleared(side: seq<Limit>, index: map<int, Limit>, L: seq<Limit>, RS: seq<seq<int>>,
                         I0: map<int, Limit>, F: seq<seq<int>>)
  {
    && |RS| == |L| && |F| <= |L|
    && side == Clear(L, L[..|F|], RS[..|F|], F)
    && index == I0 - DrainedPrices(L[..|F|], RS[..|F|], F)
  }

  /** ... so a level swept is still listed exactly when it was not drained,
      every level not yet swept is still listed, and nothing else is. */
  predicate SweptListed(side: seq<Limit>, L: seq<Limit>, RS: seq<seq<int>>, F: seq<seq<int>>) {
    && |RS| == |L| && |F| <= |L|
    && (forall k :: 0 <= k < |F| ==> (L[k] in side <==> !Drained(RS[k], F[k])))
    && (forall k :: |F| <= k < |L| ==> L[k] in side)
    && (forall l :: l in side ==> l in L)
  }

  /** All of the above, and the side still agrees with its price map. */
  predicate SweptSide(side: seq<Limit>, index: map<int, Limit>, L: seq<Limit>, RS: seq<seq<int>>,
                      I0: map<int, Limit>, F: seq<seq<int>>)
  {
    SweptCleared(side, index, L, RS, I0, F) && SweptListed(side, L, RS, F) && Indexed(side, index)
  }

  /** The matches of one more level come after those of the levels before. */
  lemma SideMatchesSnoc(levels: seq<Limit>, queues: seq<seq<Order>>, o: Order, fills: seq<seq<int>>,
                        l: Limit, q: seq<Order>, f: seq<int>)
    requires |levels| == |queues| == |fills|
    ensures SideMatches(levels + [l], queues + [q], o, fills + [f]) == SideMatches(levels, queues, o, fills) + Pairs(q, o, f, l.price)
  {
    assert (levels + [l])[..|levels|] == levels;
    assert (queues + [q])[..|levels|] == queues;
    assert (fills + [f])[..|levels|] == fills;
  }

  /** clearLimit on one more level happens exactly when its fills drain it. */
  lemma ClearSnoc(side: seq<Limit>, levels: seq<Limit>, rss: seq<seq<int>>, fills: seq<seq<int>>,
                  l: Limit, rs: seq<int>, f: seq<int>)
    requires |levels| == |rss| == |fills|
    ensures Clear(side, levels + [l], rss + [rs], fills + [f])
      == if Drained(rs, f) then SwapRemoval(Clear(side, levels, rss, fills), l) else Clear(side, levels, rss, fills)
    ensures DrainedPrices(levels + [l], rss + [rs], fills + [f])
      == DrainedPrices(levels, rss, fills) + (if Drained(rs, f) then {l.price} else {})
  {
    assert (levels + [l])[..|levels|] == levels;
    assert (rss + [rs])[..|levels|] == rss;
    assert (fills + [f])[..|levels|] == fills;
  }

  /** The next level, RS[i], is swept with what the levels before it left
      unfilled. */
  lemma FillsStep(F: seq<seq<int>>, W: seq<int>, RS: seq<seq<int>>, i: nat)
    requires SweptFills(F, W, RS) && i == |F| < |RS|
    ensures SweptFills(F + [Sweep(RS[i], W[i])], W + [W[i] - Sum(Sweep(RS[i], W[i]))], RS)
  {
  }

  /** Filling the next level with what is left of o: o loses the fills f and
      the matches grow by the level's pairs... */
  lemma OrderStep(o: Order, L: seq<Limit>, O: seq<seq<Order>>, F: seq<seq<int>>, W: seq<int>, i: nat,
                  size: int, matches: seq<Match>, f: seq<int>)
    requires SweptOrder(o, L, O, F, W, size, matches) && i == |F| < |L|
    ensures SweptOrder(o, L, O, F + [f], W + [size - Sum(f)], size - Sum(f), matches + Pairs(O[i], o, f, L[i].price))
  {
    TakeSnoc(L, i);
    TakeSnoc(O, i);
    SideMatchesSnoc(L[..i], O[..i], o, F, L[i], O[i], f);
  }

  /** ... the level holds the orders after its cut... */
  lemma QueuesStep(Qs: seq<seq<Order>>, O: seq<seq<Order>>, RS: seq<seq<int>>, F: seq<seq<int>>, i: nat, f: seq<int>)
    requires SweptQueues(Qs, O, RS, F) && i == |F| < |O| && |f| <= |RS[i]|
    ensures SweptQueues(Qs[i := O[i][Cut(RS[i], f)..]], O, RS, F + [f])
  {
  }

  /** ... its orders left have their Remaining sizes... */
  lemma DepthsStep(Ds: seq<seq<int>>, RS: seq<seq<int>>, F: seq<seq<int>>, i: nat, f: seq<int>)
    requires SweptDepths(Ds, RS, F) && i == |F| < |RS| && |f| <= |RS[i]|
    ensures SweptDepths(Ds[i := Remaining(RS[i], f)[Cut(RS[i], f)..]], RS, F + [f])
  {
  }

  /** ... and has lost the fills from its volume. */
  lemma VolumesStep(Vs: seq<int>, V: seq<int>, F: seq<seq<int>>, i: nat, f: seq<int>)
    requires SweptVolumes(Vs, V, F) && i == |F| < |V|
    ensures SweptVolumes(Vs[i := Vs[i] - Sum(f)], V, F + [f])
  {
  }

  /** Filling the next level keeps SweptValues: the fills grow by the sweep of
      that level with what o still wants, the level then holds the orders Qs'
      after its cut, at their Remaining sizes Ds', and has lost those fills
      from its volume Vs', o has lost them from its size, and the matches grow
      by the level's pairs. */
  lemma ValuesStep(o: Order, L: seq<Limit>, Qs: seq<seq<Order>>, Ds: seq<seq<int>>, Vs: seq<int>, size: int,
                   O: seq<seq<Order>>, RS: seq<seq<int>>, V: seq<int>, F: seq<seq<int>>, W: seq<int>, i: nat,
                   matches: seq<Match>, Qs': seq<seq<Order>>, Ds': seq<seq<int>>, Vs': seq<int>, size': int,
                   matches': seq<Match>, q: seq<Order>, d: seq<int>, v: int)
    requires SweptValues(o, L, Qs, Ds, Vs, size, O, RS, V, F, W, matches) && i == |F| < |L|
    requires Qs' == Qs[i := q] && q == O[i][Cut(RS[i], Sweep(RS[i], size))..]
    requires Ds' == Ds[i := d] && d == Remaining(RS[i], Sweep(RS[i], size))[Cut(RS[i], Sweep(RS[i], size))..]
    requires Vs' == Vs[i := v] && v == Vs[i] - Sum(Sweep(RS[i], size))
    requires size' == size - Sum(Sweep(RS[i], size))
    requires matches' == matches + Pairs(O[i], o, Sweep(RS[i], size), L[i].price)
    ensures SweptValues(o, L, Qs', Ds', Vs', size', O, RS, V, F + [Sweep(RS[i], size)], W + [size'], matches')
  {
    FillsStep(F, W, RS, i);
    OrderStep(o, L, O, F, W, i, size, matches, Sweep(RS[i], size));
    QueuesStep(Qs, O, RS, F, i, Sweep(RS[i], size));
    DepthsStep(Ds, RS, F, i, Sweep(RS[i], size));
    VolumesStep(Vs, V, F, i, Sweep(RS[i], size));
  }

  /** Filling the next level: when its fills f drained it, clearLimit takes
      it off the side and its price off the map... */
  lemma ClearedDrained(side: seq<Limit>, index: map<int, Limit>, L: seq<Limit>, RS: seq<seq<int>>,
                       I0: map<int, Limit>, F: seq<seq<int>>, i: nat, f: seq<int>)
    requires SweptCleared(side, index, L, RS, I0, F) && i == |F| < |L| && Drained(RS[i], f)
    ensures SweptCleared(SwapRemoval(side, L[i]), index - {L[i].price}, L, RS, I0, F + [f])
  {
    TakeSnoc(L, i);
    TakeSnoc(RS, i);
    ClearSnoc(L, L[..i], RS[..i], F, L[i], RS[i], f);
  }

  /** ... and otherwise both stay as they are... */
  lemma ClearedKept(side: seq<Limit>, index: map<int, Limit>, L: seq<Limit>, RS: seq<seq<int>>,
                    I0: map<int, Limit>, F: seq<seq<int>>, i: nat, f: seq<int>)
    requires SweptCleared(side, index, L, RS, I0, F) && i == |F| < |L| && !Drained(RS[i], f)
    ensures SweptCleared(side, index, L, RS, I0, F + [f])
  {
    TakeSnoc(L, i);
    TakeSnoc(RS, i);
    ClearSnoc(L, L[..i], RS[..i], F, L[i], RS[i], f);
  }

  /** ... so the level leaves the list (side becomes side') when the fills
      drained it... */
  lemma ListedDrained(side: seq<Limit>, side': seq<Limit>, L: seq<Limit>, RS: seq<seq<int>>, F: seq<seq<int>>,
                      i: nat, f: seq<int>)
    requires SweptListed(side, L, RS, F) && i == |F| < |L| && Drained(RS[i], f)
    requires forall k :: 0 <= k < |L| && k != i ==> L[k] != L[i]
    requires forall y :: y in side' <==> y in side && y != L[i]
    ensures SweptListed(side', L, RS, F + [f])
  {
  }

  /** ... and stays on it otherwise. */
  lemma ListedKept(side: seq<Limit>, L: seq<Limit>, RS: seq<seq<int>>, F: seq<seq<int>>, i: nat, f: seq<int>)
    requires SweptListed(side, L, RS, F) && i == |F| < |L| && !Drained(RS[i], f)
    ensures SweptListed(side, L, RS, F + [f])
  {
  }

  /** Filling the next level keeps SweptSide. */
  lemma SideStep(side: seq<Limit>, index: map<int, Limit>, L: seq<Limit>, RS: seq<seq<int>>,
                 I0: map<int, Limit>, F: seq<seq<int>>, i: nat, f: seq<int>)
    requires SweptSide(side, index, L, RS, I0, F) && i == |F| < |L| && Distinct(L)
    ensures Drained(RS[i], f) ==> SweptSide(SwapRemoval(side, L[i]), index - {L[i].price}, L, RS, I0, F + [f])
    ensures !Drained(RS[i], f) ==> SweptSide(side, index, L, RS, I0, F + [f])
  {
    if Drained(RS[i], f) {
      ClearedDrained(side, index, L, RS, I0, F, i, f);
      ClearIndexed(side, index, L[i]);
      ListedDrained(side, SwapRemoval(side, L[i]), L, RS, F, i, f);
    } else {
      ClearedKept(side, index, L, RS, I0, F, i, f);
      ListedKept(side, L, RS, F, i, f);
    }
  }

  /** A market order o, which wanted want, after it swept all the levels L,
      whose orders were O with sizes RS and volumes V, with the fills F: o has
      lost them from its size, the matches are those of all the levels, and
      each level (Qs its orders now, Ds their sizes, Vs its volume) holds the
      orders after its cut, each of which has lost its fill from its size,
      and has lost its fills from its volume. */
  predicate Swept(o: Order, L: seq<Limit>, Qs: seq<seq<Order>>, Ds: seq<seq<int>>, Vs: seq<int>, size: int,
                  O: seq<seq<Order>>, RS: seq<seq<int>>, V: seq<int>, F: seq<seq<int>>, want: int, matches: seq<Match>)
  {
    && |O| == |L| && |RS| == |L| && |V| == |L| && |F| == |L| && |Qs| == |L| && |Ds| == |L| && |Vs| == |L|
    && size == want - SumAll(F)
    && matches == SideMatches(L, O, o, F)
    && (forall k :: 0 <= k < |L| ==> |F[k]| <= |RS[k]| == |O[k]| && Qs[k] == O[k][Cut(RS[k], F[k])..])
    && (forall k :: 0 <= k < |L| ==> Ds[k] == Remaining(RS[k], F[k])[Cut(RS[k], F[k])..])
    && (forall k :: 0 <= k < |L| ==> Vs[k] == V[k] - Sum(F[k]))
  }

  /** The orders the fills F emptied: the first Cut of each swept level, as
      the snapshot O saw it. */
  ghost function Deleted(O: seq<seq<Order>>, RS: seq<seq<int>>, F: seq<seq<int>>): set<Order> {
    set k, j | 0 <= k < |F| && k < |O| && k < |RS| && |F[k]| <= |RS[k]| && 0 <= j < Cut(RS[k], F[k]) && j < |O[k]| :: O[k][j]
  }

  /** ... and Limit.Fill deleted them: they rest on no level and their size
      is zero (they stay in the id map). */
  ghost predicate Emptied(O: seq<seq<Order>>, RS: seq<seq<int>>, F: seq<seq<int>>)
    reads Deleted(O, RS, F)
  {
    forall x :: x in Deleted(O, RS, F) ==> x.limit == null && x.size == 0
  }

  /** Filling one more level deletes the first Cut of its orders. */
  lemma DeletedStep(O: seq<seq<Order>>, RS: seq<seq<int>>, F: seq<seq<int>>, f: seq<int>)
    requires |F| < |O| && |F| < |RS| && |f| <= |RS[|F|]| && |O[|F|]| == |RS[|F|]|
    ensures Deleted(O, RS, F + [f]) == Deleted(O, RS, F) + set j | 0 <= j < Cut(RS[|F|], f) :: O[|F|][j]
  {
    var F' := F + [f];
    assert forall k :: 0 <= k < |F| ==> F'[k] == F[k];
  }

  /** The orders deleted so far rest on no level, so not on the valid level
      l, and none of them is the market order o, which was on no level. */
  lemma DeletedApart(O: seq<seq<Order>>, RS: seq<seq<int>>, F: seq<seq<int>>, l: Limit, o: Order)
    requires Emptied(O, RS, F) && l.Valid() && forall k :: 0 <= k < |O| ==> o !in O[k]
    ensures forall x :: x in Deleted(O, RS, F) ==> x !in l.orders && x != o
  {
    forall x | x in Deleted(O, RS, F) ensures x !in l.orders && x != o {
      var k, j :| 0 <= k < |F| && k < |O| && k < |RS| && |F[k]| <= |RS[k]| && 0 <= j < Cut(RS[k], F[k]) && j < |O[k]| && x == O[k][j];
      assert x in O[k];
    }
  }

  /** The orders the fill f of the next level emptied, which rest nowhere,
      join those deleted before. */
  lemma EmptiedGrow(O: seq<seq<Order>>, RS: seq<seq<int>>, F: seq<seq<int>>, f: seq<int>, want: int)
    requires |F| < |O| && |F| < |RS| && |O[|F|]| == |RS[|F|]| && f == Sweep(RS[|F|], want)
    requires Emptied(O, RS, F)
    requires forall j :: 0 <= j < |RS[|F|]| ==> O[|F|][j].size == RS[|F|][j] - Taken(f, j)
    requires forall j :: 0 <= j < Cut(RS[|F|], f) ==> O[|F|][j].limit == null
    ensures Emptied(O, RS, F + [f])
  {
    DeletedStep(O, RS, F, f);
    SweepCut(RS[|F|], want);
  }

  /** Orders a fill neither took from its level q nor is: they keep their
      size and rest where they rested, so the orders deleted before stay so. */
  twostate lemma DeletedKept(D: set<Order>, new q: seq<Order>, new o: Order)
    requires forall x :: x in D ==> old(x.limit) == null && old(x.size) == 0 && x !in q && x != o
    requires forall x: Order :: old(allocated(x)) && x !in q && x != o ==> x.size == old(x.size) && x.limit == old(x.limit)
    ensures forall x :: x in D ==> x.limit == null && x.size == 0
  {
  }

  /** The matches of a sweep add up to what the incoming order lost. */
  lemma SweptMatched(o: Order, L: seq<Limit>, Qs: seq<seq<Order>>, Ds: seq<seq<int>>, Vs: seq<int>, size: int,
                     O: seq<seq<Order>>, RS: seq<seq<int>>, V: seq<int>, F: seq<seq<int>>, want: int, matches: seq<Match>)
    requires Swept(o, L, Qs, Ds, Vs, size, O, RS, V, F, want, matches)
    ensures SumFilled(matches) == want - size
  {
    SideMatchesFilled(L, O, o, F);
  }

  /** A sweep of levels whose resting sizes are at least zero leaves the
      orders still resting at sizes of at least zero, whatever the size of the
      incoming order. */
  lemma SweptNonNegative(o: Order, L: seq<Limit>, Qs: seq<seq<Order>>, Ds: seq<seq<int>>, Vs: seq<int>, size: int,
                         O: seq<seq<Order>>, RS: seq<seq<int>>, V: seq<int>, F: seq<seq<int>>, want: int, matches: seq<Match>)
    requires Swept(o, L, Qs, Ds, Vs, size, O, RS, V, F, want, matches)
    requires F == SideSweep(RS, want) && AllNonNegative(RS)
    ensures AllNonNegative(Ds)
  {
    SideSweepWithin(RS, want);
    forall k | 0 <= k < |L| ensures forall i :: 0 <= i < |Ds[k]| ==> Ds[k][i] >= 0 {
      RemainingNonNegative(RS[k], F[k]);
    }
  }

  /** So after such a sweep, every level of L that a side still lists holds
      orders of sizes at least zero. */
  lemma SweptLevelsNonNegative(o: Order, L: seq<Limit>, Qs: seq<seq<Order>>, Ds: seq<seq<int>>, Vs: seq<int>, size: int,
                               O: seq<seq<Order>>, RS: seq<seq<int>>, V: seq<int>, F: seq<seq<int>>, want: int,
                               matches: seq<Match>, side: seq<Limit>)
    requires Swept(o, L, Qs, Ds, Vs, size, O, RS, V, F, want, matches)
    requires F == SideSweep(RS, want) && AllNonNegative(RS)
    requires Depths(L) == Ds && forall l :: l in side ==> l in L
    ensures forall l :: l in side ==> l.NonNegative()
  {
    SweptNonNegative(o, L, Qs, Ds, Vs, size, O, RS, V, F, want, matches);
    NonNegativeFromDepths(L);
  }

  /** ... and the side has lost, by clearLimit, the levels the fills drained,
      in that order, the price map I0 their prices, and the side still agrees
      with its price map. */
  predicate Cleared(side: seq<Limit>, index: map<int, Limit>, L: seq<Limit>, RS: seq<seq<int>>,
                    I0: map<int, Limit>, F: seq<seq<int>>)
  {
    && |RS| == |L| && |F| == |L|
    && side == Clear(L, L, RS, F) && index == I0 - DrainedPrices(L, RS, F)
    && (forall k :: 0 <= k < |L| ==> (L[k] in side <==> !Drained(RS[k], F[k])))
    && (forall l :: l in side ==> l in L)
    && Indexed(side, index)
  }

  /** After the last level: the fills are SideSweep's for the size o had. */
  lemma SweepEnds(o: Order, L: seq<Limit>, Qs: seq<seq<Order>>, Ds: seq<seq<int>>, Vs: seq<int>, size: int,
                  O: seq<seq<Order>>, RS: seq<seq<int>>, V: seq<int>, F: seq<seq<int>>, W: seq<int>,
                  matches: seq<Match>, side: seq<Limit>, index: map<int, Limit>, I0: map<int, Limit>)
    requires SweptValues(o, L, Qs, Ds, Vs, size, O, RS, V, F, W, matches) && |F| == |L|
    requires SweptSide(side, index, L, RS, I0, F)
    ensures SweptFills(F, W, RS)
    ensures Swept(o, L, Qs, Ds, Vs, size, O, RS, V, F, W[0], matches)
    ensures Cleared(side, index, L, RS, I0, F)
  {
    FillsAreSideSweep(F, W, RS);
    assert L[..|F|] == L && O[..|F|] == O && RS[..|F|] == RS;
  }

  /** The levels L of a side as the snapshots Qs (their orders), Ds (the
      sizes of those) and Vs (their volumes) see them, and a market order o
      of size size: the levels are distinct and valid and o rests nowhere. */
  ghost predicate LevelsAt(o: Order, L: seq<Limit>, Qs: seq<seq<Order>>, Ds: seq<seq<int>>, Vs: seq<int>, size: int)
    reads o, L, Resting(L)
  {
    && Distinct(L) && o.limit == null
    && (forall l :: l in L ==> LevelValid(L, l))
    && Queues(L) == Qs && Depths(L) == Ds && Volumes(L) == Vs && o.size == size
  }

  /** Limit.Fill of the level L[i], whose orders were S, by o, seen on the
      levels of the side: that level now holds the orders after its cut, at their Remaining sizes, each
      order it had has lost its fill, those before the cut rest nowhere, the
      level has lost the fills from its volume, o has lost them from its size,
      and every other level is as it was; all the levels stay valid. */
  method FillLevel(o: Order, L: seq<Limit>, i: nat, ghost S: seq<Order>, ghost rs: seq<int>, ghost size: int)
    returns (matches: seq<Match>)
    requires i < |L| && Distinct(L) && o.limit == null && forall l :: l in L ==> l.Valid()
    requires S == L[i].orders && rs == Sizes(S) && size == o.size
    modifies o`size, L[i], L[i].orders
    ensures matches == Pairs(S, o, Sweep(rs, size), L[i].price)
    ensures o.size == size - Sum(Sweep(rs, size))
    ensures L[i].orders == S[Cut(rs, Sweep(rs, size))..]
    ensures Sizes(L[i].orders) == Remaining(rs, Sweep(rs, size))[Cut(rs, Sweep(rs, size))..]
    ensures forall j :: 0 <= j < |rs| ==> S[j].size == rs[j] - Taken(Sweep(rs, size), j)
    ensures forall j :: 0 <= j < Cut(rs, Sweep(rs, size)) ==> S[j].limit == null
    ensures L[i].totalVolume == old(L[i].totalVolume) - Sum(Sweep(rs, size))
    ensures L[i].Valid() && o.limit == null
    ensures forall k :: 0 <= k < |L| && k != i ==> L[k].orders == old(L[k].orders) && L[k].totalVolume == old(L[k].totalVolume)
    ensures forall m: Limit :: old(allocated(m)) && m != L[i] ==> m.orders == old(m.orders) && m.totalVolume == old(m.totalVolume)
    ensures forall x: Order :: old(allocated(x)) && x !in S && x != o ==> x.size == old(x.size) && x.limit == old(x.limit)
  {
    var limit := L[i];
    assert limit.Valid() && o !in limit.orders;
    matches := limit.Fill(o);
    RecordedPairs(matches, S, o, Sweep(rs, size), limit.price);
  }

  /** A fill of the level L[i] by o, which rests on no level, leaves every
      other level of L valid and as it was. */
  twostate lemma OthersKept(L: seq<Limit>, new i: nat, new o: Order)
    requires i < |L| && Distinct(L)
    requires forall l :: l in L ==> old(l.Valid()) && o !in old(l.orders)
    requires forall k :: 0 <= k < |L| && k != i ==> L[k].orders == old(L[k].orders) && L[k].totalVolume == old(L[k].totalVolume)
    requires forall x: Order :: old(allocated(x)) && x !in old(L[i].orders) && x != o ==> x.size == old(x.size) && x.limit == old(x.limit)
    ensures forall k :: 0 <= k < |L| && k != i ==>
      && L[k].Valid() && L[k].orders == old(L[k].orders) && L[k].totalVolume == old(L[k].totalVolume)
      && Sizes(L[k].orders) == old(Sizes(L[k].orders))
  {
    forall k | 0 <= k < |L| && k != i
      ensures L[k].Valid() && Sizes(L[k].orders) == old(Sizes(L[k].orders))
    {
      assert old(L[k].Valid()) && L[k] != L[i];
      forall x | x in L[k].orders ensures x.size == old(x.size) && x.limit == old(x.limit) {
        assert old(x.limit) == L[k] && old(L[i].Valid());
      }
      SumSizesUnchanged(L[k].orders);
    }
  }

  /** The snapshots of the levels after only the level L[i] changed. */
  twostate lemma Snapshots(L: seq<Limit>, new i: nat)
    requires i < |L|
    requires forall k :: 0 <= k < |L| && k != i ==>
      && L[k].orders == old(L[k].orders) && L[k].totalVolume == old(L[k].totalVolume)
      && Sizes(L[k].orders) == old(Sizes(L[k].orders))
    ensures Queues(L) == old(Queues(L))[i := L[i].orders]
    ensures Depths(L) == old(Depths(L))[i := Sizes(L[i].orders)]
    ensures Volumes(L) == old(Volumes(L))[i := L[i].totalVolume]
  {
  }
}
