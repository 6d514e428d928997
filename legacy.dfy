/** The older order book of the repository's root package, which shares the
    price levels of the orderbook package (Order, Limit.AddOrder,
    Limit.DeleteOrder, Limit.fillOrder) but differs elsewhere:
    - there is no id map;
    - Limit.Fill leaves the orders it fills in the level, at size zero;
    - a limit order at a price that already has a level is dropped;
    - a market sell does nothing;
    - a market buy never takes a level off the book. */
module LegacyBook {
  import opened Slices
  import opened Level
  import opened Sides
  import opened Sweeps

  /** The orders a legacy fill empties, the same first Cut of the level that the
      package's Limit.Fill deletes, stay in the level at size zero, and the
      orders after them keep their size, except the last one visited. */
  lemma FilledStay(rs: seq<int>, want: int)
    ensures var fills := Sweep(rs, want);
      && (forall k :: 0 <= k < Cut(rs, fills) ==> Remaining(rs, fills)[k] == 0)
      && (forall k :: |fills| <= k < |rs| ==> Remaining(rs, fills)[k] == rs[k])
  {
    SweepCut(rs, want);
  }

  /** Limit.Fill in the older book: the same range loop as the package's
      Limit.Fill (Level.Limit.FillEach), one fillOrder per resting order oldest
      first until o is filled, but nothing is deleted after it. The level keeps
      every order, in the same place, with its size lowered by its fill, and
      stays valid. */
  method Fill(l: Limit, o: Order) returns (matches: seq<Match>)
    requires l.Valid() && o !in l.orders
    modifies l`totalVolume, o`size, l.orders`size
    ensures var fills := Sweep(old(Sizes(l.orders)), old(o.size));
      && Recorded(matches, l.orders, o, fills, l.price)
      && o.size == old(o.size) - Sum(fills)
      && l.totalVolume == old(l.totalVolume) - Sum(fills)
      && Sizes(l.orders) == Remaining(old(Sizes(l.orders)), fills)
    ensures l.orders == old(l.orders) && l.Valid()
  {
    ghost var S, rs := l.orders, Sizes(l.orders);
    SumOfSizes(S);
    TimeOrderSorted(S);
    StrictlySortedDistinct(S, Timestamp);
    var emptied;
    ghost var fills;
    matches, emptied, fills := l.FillEach(o);
    SumSizesDrained(S, rs, fills);
    SizesDrained(S, rs, fills);
  }

  /** The legacy Limit.Fill of the level L[i] by o, seen on the levels of the
      side: that level has lost the fills from its sizes and its volume, o has
      lost them from its size, and every other level is as it was. */
  method FillLevel(o: Order, L: seq<Limit>, i: nat, ghost rs: seq<int>, ghost size: int) returns (matches: seq<Match>)
    requires i < |L| && Distinct(L) && o.limit == null && forall l :: l in L ==> l.Valid()
    requires rs == Sizes(L[i].orders) && size == o.size
    modifies o`size, L[i], L[i].orders
    ensures matches == Pairs(L[i].orders, o, Sweep(rs, size), L[i].price)
    ensures o.size == size - Sum(Sweep(rs, size))
    ensures Sizes(L[i].orders) == Remaining(rs, Sweep(rs, size))
    ensures L[i].totalVolume == old(L[i].totalVolume) - Sum(Sweep(rs, size))
    ensures L[i].Valid() && o.limit == null
    ensures forall k :: 0 <= k < |L| && k != i ==> L[k].orders == old(L[k].orders) && L[k].totalVolume == old(L[k].totalVolume)
    ensures forall m: Limit :: old(allocated(m)) ==> m.orders == old(m.orders)
    ensures forall m: Limit :: old(allocated(m)) && m != L[i] ==> m.totalVolume == old(m.totalVolume)
    ensures forall x: Order :: old(allocated(x)) && old(x.limit) != L[i] && x != o ==> x.size == old(x.size) && x.limit == old(x.limit)
    ensures forall x: Order :: old(allocated(x)) && x !in old(L[i].orders) && x != o ==> x.size == old(x.size) && x.limit == old(x.limit)
  {
    var limit := L[i];
    assert limit.Valid() && o !in limit.orders;
    matches := Fill(limit, o);
    RecordedPairs(matches, limit.orders, o, Sweep(rs, size), limit.price);
  }

  /** The loop of the legacy PlaceMarketOrder over the levels L of the asks (the
      sorted side), seen on the snapshots O (their orders), RS (the sizes of
      those) and V (their volumes) taken before it, after the first |F| levels:
      the fills F are those of the levels in turn (SweptFills), o has lost them
      and the matches are those of those levels (SweptOrder); every level keeps
      its orders, the levels swept have lost their fills from their sizes Ds
      and their volumes Vs, and the others keep the sizes and volumes they had. */
  predicate Drawing(o: Order, L: seq<Limit>, Ds: seq<seq<int>>, Vs: seq<int>, size: int,
                    O: seq<seq<Order>>, RS: seq<seq<int>>, V: seq<int>, F: seq<seq<int>>, W: seq<int>,
                    matches: seq<Match>)
  {
    && |O| == |L| && |RS| == |L| && |V| == |L| && |Ds| == |L|
    && (forall k :: 0 <= k < |L| ==> |RS[k]| == |O[k]|)
    && SweptFills(F, W, RS)
    && SweptOrder(o, L, O, F, W, size, matches)
    && (forall k :: 0 <= k < |F| ==> Ds[k] == Remaining(RS[k], F[k]))
    && (forall k :: |F| <= k < |L| ==> Ds[k] == RS[k])
    && SweptVolumes(Vs, V, F)
  }

  /** After all the levels: o has lost all the fills F from the size want it
      had, the matches are those of all the levels, every level L[k] keeps its
      orders O[k], and has lost its fills from its sizes (Ds) and its volume
      (Vs). */
  predicate Drawn(o: Order, L: seq<Limit>, Qs: seq<seq<Order>>, Ds: seq<seq<int>>, Vs: seq<int>, size: int,
                  O: seq<seq<Order>>, RS: seq<seq<int>>, V: seq<int>, F: seq<seq<int>>, want: int,
                  matches: seq<Match>)
  {
    && |O| == |L| && |RS| == |L| && |V| == |L| && |F| == |L| && |Ds| == |L| && |Vs| == |L|
    && size == want - SumAll(F)
    && matches == SideMatches(L, O, o, F)
    && (forall k :: 0 <= k < |L| ==> |F[k]| <= |RS[k]| == |O[k]|)
    && Qs == O
    && (forall k :: 0 <= k < |L| ==> Ds[k] == Remaining(RS[k], F[k]))
    && (forall k :: 0 <= k < |L| ==> Vs[k] == V[k] - Sum(F[k]))
  }

  /** Before the first level nothing is swept. */
  lemma DrawStarts(o: Order, L: seq<Limit>, O: seq<seq<Order>>, RS: seq<seq<int>>, V: seq<int>, want: int)
    requires |O| == |L| && |RS| == |L| && |V| == |L| && forall k :: 0 <= k < |L| ==> |RS[k]| == |O[k]|
    ensures Drawing(o, L, RS, V, want, O, RS, V, [], [want], [])
  {
    assert L[..0] == [] && O[..0] == [];
  }

  /** Filling the next level keeps Drawing: the fills grow by the sweep of that
      level with what o still wants, the level's sizes become Ds'[i] and its
      volume Vs'[i], o loses the fills and the matches grow by the level's pairs. */
  lemma DrawingStep(o: Order, L: seq<Limit>, Ds: seq<seq<int>>, Vs: seq<int>, size: int,
                    O: seq<seq<Order>>, RS: seq<seq<int>>, V: seq<int>, F: seq<seq<int>>, W: seq<int>, i: nat,
                    matches: seq<Match>, Ds': seq<seq<int>>, Vs': seq<int>, size': int, matches': seq<Match>,
                    d: seq<int>, v: int)
    requires Drawing(o, L, Ds, Vs, size, O, RS, V, F, W, matches) && i == |F| < |L|
    requires Ds' == Ds[i := d] && d == Remaining(RS[i], Sweep(RS[i], size))
    requires Vs' == Vs[i := v] && v == Vs[i] - Sum(Sweep(RS[i], size))
    requires size' == size - Sum(Sweep(RS[i], size))
    requires matches' == matches + Pairs(O[i], o, Sweep(RS[i], size), L[i].price)
    ensures Drawing(o, L, Ds', Vs', size', O, RS, V, F + [Sweep(RS[i], size)], W + [size'], matches')
  {
    FillsStep(F, W, RS, i);
    OrderStep(o, L, O, F, W, i, size, matches, Sweep(RS[i], size));
    VolumesStep(Vs, V, F, i, Sweep(RS[i], size));
  }

  /** After the last level, Drawing is Drawn, with the fills of SideSweep. */
  lemma DrawEnds(o: Order, L: seq<Limit>, Ds: seq<seq<int>>, Vs: seq<int>, size: int,
                 O: seq<seq<Order>>, RS: seq<seq<int>>, V: seq<int>, F: seq<seq<int>>, W: seq<int>,
                 matches: seq<Match>)
    requires Drawing(o, L, Ds, Vs, size, O, RS, V, F, W, matches) && |F| == |L|
    ensures F == SideSweep(RS, W[0])
    ensures Drawn(o, L, O, Ds, Vs, size, O, RS, V, F, W[0], matches)
  {
    FillsCoverSide(F, W, RS);
    FillsAreSideSweep(F, W, RS);
    assert L[..|F|] == L && O[..|F|] == O && RS[..|F|] == RS;
  }

  /** The matches of a legacy market buy add up to what the order lost. */
  lemma DrawnMatched(o: Order, L: seq<Limit>, Qs: seq<seq<Order>>, Ds: seq<seq<int>>, Vs: seq<int>, size: int,
                     O: seq<seq<Order>>, RS: seq<seq<int>>, V: seq<int>, F: seq<seq<int>>, want: int,
                     matches: seq<Match>)
    requires Drawn(o, L, Qs, Ds, Vs, size, O, RS, V, F, want, matches)
    ensures SumFilled(matches) == want - size
  {
    SideMatchesFilled(L, O, o, F);
  }

  /** One turn of the loop of the legacy PlaceMarketOrder: the legacy
      Limit.Fill of the level L[i] by o keeps Drawing one level further, on
      the new snapshots of the levels, which keep their orders O. */
  method DrawStep(o: Order, L: seq<Limit>, ghost O: seq<seq<Order>>, ghost RS: seq<seq<int>>, ghost V: seq<int>,
                  ghost F: seq<seq<int>>, ghost W: seq<int>, i: nat, matches: seq<Match>,
                  ghost Ds: seq<seq<int>>, ghost Vs: seq<int>)
    returns (matches': seq<Match>, ghost Ds': seq<seq<int>>, ghost Vs': seq<int>)
    requires i == |F| < |L| && |W| == i + 1
    requires LevelsAt(o, L, O, Ds, Vs, W[i]) && Drawing(o, L, Ds, Vs, W[i], O, RS, V, F, W, matches)
    modifies o`size, L[i], L[i].orders
    ensures forall m: Limit :: old(allocated(m)) ==> m.orders == old(m.orders)
    ensures forall m: Limit :: old(allocated(m)) && m != L[i] ==> m.totalVolume == old(m.totalVolume)
    ensures forall x: Order :: old(allocated(x)) && x !in old(L[i].orders) && x != o ==> x.size == old(x.size) && x.limit == old(x.limit)
    ensures LevelsAt(o, L, O, Ds', Vs', o.size)
    ensures Drawing(o, L, Ds', Vs', o.size, O, RS, V, F + [Sweep(RS[i], W[i])], W + [o.size], matches')
  {
    forall l | l in L ensures l.Valid() {
      assert LevelValid(L, l);
    }
    var levelMatches := FillLevel(o, L, i, RS[i], o.size);
    OthersKept(L, i, o);
    Snapshots(L, i);
    matches' := matches + levelMatches;
    Ds', Vs' := Depths(L), Volumes(L);
    DrawingStep(o, L, Ds, Vs, W[i], O, RS, V, F, W, i, matches, Ds', Vs', o.size, matches',
                Sizes(L[i].orders), L[i].totalVolume);
    forall l | l in L ensures LevelValid(L, l) {
    }
  }

  /** The loop of the legacy PlaceMarketOrder: the legacy Limit.Fill of each
      level of L in turn, none taken off. It touches only o and the levels L
      with their resting orders R. */
  method DrawLevels(o: Order, L: seq<Limit>, ghost R: set<Order>, ghost O: seq<seq<Order>>,
                    ghost RS: seq<seq<int>>, ghost V: seq<int>, ghost want: int)
    returns (matches: seq<Match>, ghost F: seq<seq<int>>, ghost Ds: seq<seq<int>>, ghost Vs: seq<int>)
    requires LevelsAt(o, L, O, RS, V, want) && R == Resting(L)
    modifies o`size, L, R
    ensures forall m: Limit :: old(allocated(m)) && m !in L ==> m.orders == old(m.orders) && m.totalVolume == old(m.totalVolume)
    ensures forall x: Order :: old(allocated(x)) && x !in R && x != o ==> x.size == old(x.size) && x.limit == old(x.limit)
    ensures F == SideSweep(RS, want)
    ensures Drawn(o, L, O, Ds, Vs, o.size, O, RS, V, F, want, matches)
    ensures Queues(L) == O && Depths(L) == Ds && Volumes(L) == Vs
    ensures forall l :: l in L ==> l.Valid()
  {
    ghost var W := [o.size];
    F := [];
    Ds, Vs := RS, V;
    matches := [];
    DrawStarts(o, L, O, RS, V, want);
    var i := 0;
    while i < |L|
      invariant i == |F| <= |L| && |W| == i + 1 && W[0] == want
      invariant LevelsAt(o, L, O, Ds, Vs, W[i])
      invariant Drawing(o, L, Ds, Vs, W[i], O, RS, V, F, W, matches)
      invariant forall m: Limit :: old(allocated(m)) && m !in L ==> m.orders == old(m.orders) && m.totalVolume == old(m.totalVolume)
      invariant forall x: Order :: old(allocated(x)) && x !in R && x != o ==> x.size == old(x.size) && x.limit == old(x.limit)
    {
      assert forall x :: x in L[i].orders ==> x in R;
      ghost var f := Sweep(RS[i], W[i]);
      matches, Ds, Vs := DrawStep(o, L, O, RS, V, F, W, i, matches, Ds, Vs);
      F, W := F + [f], W + [o.size];
      i := i + 1;
    }
    DrawEnds(o, L, Ds, Vs, o.size, O, RS, V, F, W, matches);
    forall l | l in L ensures l.Valid() {
      assert LevelValid(L, l);
    }
  }

  class OrderBook {
    var asks: seq<Limit>
    var bids: seq<Limit>
    var askLimits: map<int, Limit>
    var bidLimits: map<int, Limit>

    /** NewOrderBook: both sides and both price maps empty. */
    constructor ()
      ensures asks == [] && bids == [] && askLimits == map[] && bidLimits == map[]
      ensures Valid()
    {
      asks, bids := [], [];
      askLimits, bidLimits := map[], map[];
    }

    /** The bids side when bid holds, the asks side otherwise. */
    function Side(bid: bool): seq<Limit>
      reads this
    {
      if bid then bids else asks
    }

    /** The price map of the bids side when bid holds, of the asks side otherwise. */
    function Index(bid: bool): map<int, Limit>
      reads this
    {
      if bid then bidLimits else askLimits
    }

    /** Each side agrees with its price map and holds valid levels, and no
        level is on both sides. */
    ghost predicate Valid()
      reads this, asks, bids, Resting(asks), Resting(bids)
    {
      && SideValid(asks, askLimits) && SideValid(bids, bidLimits)
      && (forall l :: l in asks ==> l !in bids)
    }

    /** AskTotalVolume: the sum of the TotalVolume of the ask levels. */
    method AskTotalVolume() returns (total: int)
      ensures total == SideVolume(asks)
    {
      total := TotalVolume(asks);
    }

    /** BidTotalVolume: the sum of the TotalVolume of the bid levels. */
    method BidTotalVolume() returns (total: int)
      ensures total == SideVolume(bids)
    {
      total := TotalVolume(bids);
    }

    /** Asks: sort the asks in place, cheapest first, and return them; the
        book stays valid. */
    method Asks() returns (side: seq<Limit>)
      modifies this`asks
      ensures asks == SortBy(old(asks), AskKey) && side == asks
      ensures old(Valid()) ==> Valid()
    {
      ghost var valid := Valid();
      asks := SortBy(asks, AskKey);
      side := asks;
      if valid {
        SortBySorts(old(asks), AskKey);
        SideValidPermutation(old(asks), asks, askLimits);
      }
    }

    /** Bids: sort the bids in place, dearest first, and return them; the
        book stays valid. */
    method Bids() returns (side: seq<Limit>)
      modifies this`bids
      ensures bids == SortBy(old(bids), BidKey) && side == bids
      ensures old(Valid()) ==> Valid()
    {
      ghost var valid := Valid();
      bids := SortBy(bids, BidKey);
      side := bids;
      if valid {
        SortBySorts(old(bids), BidKey);
        SideValidPermutation(old(bids), bids, bidLimits);
      }
    }

    /** PlaceLimitOrder in the older book: when o's side has no level at price,
        a new level is made, o is added to it (Limit.AddOrder), and the level is
        appended to the side and entered in the price map. When there is a
        level at price already, nothing happens at all: o is dropped. */
    method PlaceLimitOrder(price: int, o: Order)
      modifies this`asks, this`bids, this`askLimits, this`bidLimits, o`limit
      ensures price in old(Index(o.bid)) ==>
        && Side(o.bid) == old(Side(o.bid)) && Index(o.bid) == old(Index(o.bid))
        && o.limit == old(o.limit)
      ensures price !in old(Index(o.bid)) ==>
        && o.limit != null && fresh(o.limit) && o.limit.price == price
        && o.limit.orders == [o] && o.limit.totalVolume == o.size
        && Side(o.bid) == old(Side(o.bid)) + [o.limit] && Index(o.bid) == old(Index(o.bid))[price := o.limit]
      ensures Side(!o.bid) == old(Side(!o.bid)) && Index(!o.bid) == old(Index(!o.bid))
      ensures old(Valid()) && old(o.limit) == null ==> Valid()
    {
      var found: Limit?;
      if o.bid {
        found := if price in bidLimits then bidLimits[price] else null;
      } else {
        found := if price in askLimits then askLimits[price] else null;
      }
      if found == null {
        var limit := new Limit(price);
        limit.AddOrder(o);
        if o.bid {
          bids := bids + [limit];
          bidLimits := bidLimits[price := limit];
        } else {
          asks := asks + [limit];
          askLimits := askLimits[price := limit];
        }
        if old(Valid()) && old(o.limit) == null {
          Founded(o.bid, limit, o);
        }
      }
    }

    /** A new level holding only o, which rested nowhere, at a price its side
        lacked, appended to that side and entered in its map with nothing else
        changed, leaves the book valid. */
    twostate lemma Founded(new bid: bool, new limit: Limit, o: Order)
      requires old(Valid()) && old(o.limit) == null && fresh(limit)
      requires limit.orders == [o] && limit.totalVolume == o.size && o.limit == limit && o.size == old(o.size)
      requires limit.price !in old(Index(bid))
      requires Side(bid) == old(Side(bid)) + [limit] && Index(bid) == old(Index(bid))[limit.price := limit]
      requires Side(!bid) == old(Side(!bid)) && Index(!bid) == old(Index(!bid))
      requires forall m: Limit :: old(allocated(m)) ==> m.orders == old(m.orders) && m.totalVolume == old(m.totalVolume)
      requires forall x: Order :: old(allocated(x)) && x != o ==> x.size == old(x.size) && x.limit == old(x.limit)
      ensures Valid()
    {
      var side, other := old(Side(bid)), Side(!bid);
      forall l | l in side ensures LevelValid(side, l) {
        assert old(LevelValid(side, l));
        forall x | x in l.orders ensures x != o && x.size == old(x.size) {
          assert old(x.limit) == l;
        }
        SumSizesUnchanged(l.orders);
      }
      forall l | l in other ensures LevelValid(other, l) {
        assert old(LevelValid(other, l));
        forall x | x in l.orders ensures x != o && x.size == old(x.size) {
          assert old(x.limit) == l;
        }
        SumSizesUnchanged(l.orders);
      }
      assert limit.Valid() by {
        assert SumSizes([o]) == o.size by {
          assert [o][1..] == [];
        }
      }
      SideValidGrow(side, old(Index(bid)), limit);
    }

    /** PlaceMarketOrder in the older book. A market sell does nothing and
        returns no matches. A market buy larger than the total volume of the
        asks fails (the source panics) and changes nothing. Otherwise the asks
        are sorted cheapest first and each of their levels L is filled in turn
        with the legacy Limit.Fill: the fills are SideSweep of their resting
        sizes for the size o had, the matches are recorded level after level,
        every level keeps its orders, which have lost their fills, and has
        lost the fills from its volume. No level is taken off the book, the
        bids are untouched and the book stays valid. With sizes of at least
        zero, o ends filled. */
    method PlaceMarketOrder(o: Order) returns (matches: seq<Match>, ok: bool)
      requires Valid() && o.limit == null
      modifies this`asks, o`size, LevelSet(asks), Resting(asks)
      ensures ok <==> !o.bid || old(o.size) <= old(SideVolume(asks))
      ensures !ok || !o.bid ==>
        && matches == [] && o.size == old(o.size) && asks == old(asks)
        && unchanged(LevelSet(asks)) && unchanged(Resting(asks))
      ensures ok && o.bid ==>
        var L := old(SortBy(asks, AskKey));
        var F := SideSweep(old(Depths(L)), old(o.size));
        && asks == L
        && Drawn(o, L, Queues(L), Depths(L), Volumes(L), o.size, old(Queues(L)), old(Depths(L)), old(Volumes(L)),
                 F, old(o.size), matches)
      ensures bids == old(bids) && askLimits == old(askLimits) && bidLimits == old(bidLimits)
      ensures Valid()
      ensures ok && o.bid && old(o.size) >= 0 && (forall l :: l in old(asks) ==> old(l.NonNegative())) ==> o.size == 0
    {
      matches := [];
      ok := true;
      if o.bid {
        var total := AskTotalVolume();
        Untouched();
        if o.size > total {
          ok := false;
          return;
        }
        matches := MarketBuy(o);
      }
    }

    /** Reading the book (AskTotalVolume) leaves it valid, with the same
        levels holding the same orders and volumes. */
    twostate lemma Untouched()
      requires old(Valid()) && unchanged(this)
      requires forall m: Limit :: old(allocated(m)) ==> m.orders == old(m.orders) && m.totalVolume == old(m.totalVolume)
      requires forall x: Order :: old(allocated(x)) ==> x.size == old(x.size) && x.limit == old(x.limit)
      ensures Valid()
      ensures Resting(asks) == old(Resting(asks))
      ensures Queues(SortBy(asks, AskKey)) == old(Queues(SortBy(asks, AskKey)))
      ensures Depths(SortBy(asks, AskKey)) == old(Depths(SortBy(asks, AskKey)))
      ensures Volumes(SortBy(asks, AskKey)) == old(Volumes(SortBy(asks, AskKey)))
      ensures SideVolume(asks) == old(SideVolume(asks))
      ensures forall l :: l in asks && old(l.NonNegative()) ==> l.NonNegative()
    {
      LevelsKept(asks);
      LevelsKept(bids);
      LevelsKept(SortBy(asks, AskKey));
      SideVolumeKept(asks);
      forall l | l in asks ensures LevelValid(asks, l) {
        assert old(LevelValid(asks, l));
        SumSizesUnchanged(l.orders);
      }
      forall l | l in bids ensures LevelValid(bids, l) {
        assert old(LevelValid(bids, l));
        SumSizesUnchanged(l.orders);
      }
    }

    /** The market buy once the volume check has passed: sort the asks and
        fill o from each of their levels, cheapest first. */
    method MarketBuy(o: Order) returns (matches: seq<Match>)
      requires Valid() && o.limit == null && o.size <= SideVolume(asks)
      modifies this`asks, o`size, LevelSet(asks), Resting(asks)
      ensures var L := old(SortBy(asks, AskKey));
        var F := SideSweep(old(Depths(L)), old(o.size));
        && asks == L
        && Drawn(o, L, Queues(L), Depths(L), Volumes(L), o.size, old(Queues(L)), old(Depths(L)), old(Volumes(L)),
                 F, old(o.size), matches)
      ensures bids == old(bids) && askLimits == old(askLimits) && bidLimits == old(bidLimits)
      ensures Valid()
      ensures old(o.size) >= 0 && (forall l :: l in old(asks) ==> old(l.NonNegative())) ==> o.size == 0
    {
      ghost var L, want := SortBy(asks, AskKey), o.size;
      ghost var O, RS, V := Queues(L), Depths(L), Volumes(L);
      ghost var fillable := (forall l :: l in asks ==> l.NonNegative()) && 0 <= o.size;
      if fillable {
        SideFillable(asks, askLimits, AskKey, o.size);
      }
      var side := SortAsks();
      assert side == L && Queues(side) == O && Depths(side) == RS && Volumes(side) == V;
      assert forall l :: l in side ==> l in old(asks);
      assert Resting(side) == old(Resting(asks));
      ghost var F;
      matches, F := DrawAsks(o, side, O, RS, V, want);
      if fillable {
        assert o.size == want - SumAll(F);
      }
    }

    /** The loop of the market buy over the sorted asks L, with the book made
        valid again after it. */
    method DrawAsks(o: Order, L: seq<Limit>, ghost O: seq<seq<Order>>, ghost RS: seq<seq<int>>,
                    ghost V: seq<int>, ghost want: int)
      returns (matches: seq<Match>, ghost F: seq<seq<int>>)
      requires Valid() && o.limit == null && L == asks
      requires O == Queues(L) && RS == Depths(L) && V == Volumes(L) && want == o.size
      modifies o`size, L, Resting(L)
      ensures F == SideSweep(RS, want)
      ensures Drawn(o, L, Queues(L), Depths(L), Volumes(L), o.size, O, RS, V, F, want, matches)
      ensures asks == old(asks) && bids == old(bids) && askLimits == old(askLimits) && bidLimits == old(bidLimits)
      ensures Valid()
    {
      SidesApart(o);
      ghost var R := Resting(L);
      ghost var Ds, Vs;
      assert LevelsAt(o, L, O, RS, V, want) by {
        forall l | l in L ensures LevelValid(L, l) {
        }
      }
      matches, F, Ds, Vs := DrawLevels(o, L, R, O, RS, V, want);
      DrawnValid(L, R, o);
    }

    /** Asks seen from the levels: only the order of the asks changes, so the
        levels, what they hold and their volumes are as before. */
    method SortAsks() returns (side: seq<Limit>)
      requires Valid()
      modifies this`asks
      ensures side == asks == old(SortBy(asks, AskKey))
      ensures bids == old(bids) && askLimits == old(askLimits) && bidLimits == old(bidLimits)
      ensures Valid()
      ensures forall l :: l in side ==> l in old(asks)
      ensures Resting(side) == old(Resting(asks))
      ensures Queues(side) == old(Queues(SortBy(asks, AskKey)))
      ensures Depths(side) == old(Depths(SortBy(asks, AskKey)))
      ensures Volumes(side) == old(Volumes(SortBy(asks, AskKey)))
      ensures Distinct(side) && forall l :: l in side ==> LevelValid(side, l)
    {
      side := Asks();
      SortByMembers(old(asks), AskKey);
      RestingSameLevels(side, old(asks));
      LevelsKept(side);
    }

    /** The two sides of a valid book share no resting order, and an order
        that rests nowhere is on neither. */
    lemma SidesApart(o: Order)
      requires Valid() && o.limit == null
      ensures forall x :: x in Resting(asks) ==> x !in Resting(bids)
      ensures o !in Resting(bids)
    {
      forall x | x in Resting(asks) ensures x !in Resting(bids) {
        var m :| m in asks && x in m.orders;
        assert LevelValid(asks, m);
        forall m' | m' in bids ensures x !in m'.orders {
          assert LevelValid(bids, m');
        }
      }
      forall m | m in bids ensures o !in m.orders {
        assert LevelValid(bids, m);
      }
    }

    /** The book is valid again after a sweep of the asks L that kept each of
        them valid and touched no other level and no order but the resting
        orders R of L and o. */
    twostate lemma DrawnValid(new L: seq<Limit>, new R: set<Order>, new o: Order)
      requires old(Valid()) && asks == L && Indexed(asks, askLimits) && askLimits == old(askLimits)
      requires forall l :: l in L ==> l in old(asks) && l !in old(bids) && l.Valid()
      requires forall x :: x in R ==> x !in old(Resting(bids))
      requires o !in old(Resting(bids))
      requires forall m: Limit :: old(allocated(m)) && m !in L ==> m.orders == old(m.orders) && m.totalVolume == old(m.totalVolume)
      requires forall x: Order :: old(allocated(x)) && x !in R && x != o ==> x.size == old(x.size) && x.limit == old(x.limit)
      requires bids == old(bids) && bidLimits == old(bidLimits)
      ensures Valid()
    {
      forall l | l in bids ensures LevelValid(bids, l) {
        assert old(LevelValid(bids, l));
        assert l !in L;
        forall x | x in l.orders ensures x.size == old(x.size) && x.limit == old(x.limit) {
          assert x in old(Resting(bids));
        }
        SumSizesUnchanged(l.orders);
      }
      forall l | l in asks ensures LevelValid(asks, l) {
      }
      forall l | l in asks ensures l !in bids {
        assert old(l in asks ==> l !in bids);
      }
    }
  }

  /** A new level at a price the map lacks, valid on its own and holding no
      order of the side, appended to a well-formed side and entered in its
      map, keeps the side well formed. */
  lemma SideValidGrow(side: seq<Limit>, index: map<int, Limit>, l: Limit)
    requires SideValid(side, index) && l.price !in index && l.Valid()
    ensures SideValid(side + [l], index[l.price := l])
  {
    IndexedAppend(side, index, l);
    forall m | m in side + [l] ensures LevelValid(side + [l], m) {
      if m != l {
        assert LevelValid(side, m);
      }
    }
  }
}
