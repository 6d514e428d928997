/** The order book of the orderbook package: an asks side and a bids side, each
    a slice of price levels indexed by a map from price to level, and a map from
    order id to order. Limit orders rest in the level at their price; market
    orders sweep the opposite side best price first and clear the levels they
    empty. */
module Book {
  import opened Slices
  import opened Level
  import opened Sides
  import opened Sweeps

  /** ByBestBid for the bids side, ByBestAsk for the asks side. */
  function BestFirst(bid: bool): Limit -> int {
    if bid then BidKey else AskKey
  }

  /** Sorting a side by BestFirst lists the same levels, dearest first on the
      bids side and cheapest first on the asks side. */
  lemma BestFirstSorts(bid: bool, side: seq<Limit>)
    ensures var sorted := SortBy(side, BestFirst(bid));
      && multiset(sorted) == multiset(side)
      && forall i, j :: 0 <= i < j < |sorted| ==> if bid then sorted[i].price >= sorted[j].price else sorted[i].price <= sorted[j].price
  {
    if bid {
      BidsDearestFirst(side);
    } else {
      AsksCheapestFirst(side);
    }
  }

  class OrderBook {
    var asks: seq<Limit>
    var bids: seq<Limit>
    var askLimits: map<int, Limit>
    var bidLimits: map<int, Limit>
    var orders: map<int, Order>

    /** NewOrderBook: both sides and all three maps empty. */
    constructor ()
      ensures asks == [] && bids == [] && askLimits == map[] && bidLimits == map[] && orders == map[]
      ensures Valid()
    {
      asks, bids := [], [];
      askLimits, bidLimits := map[], map[];
      orders := map[];
    }

    /** The bids side when bid holds, the asks side otherwise. */
    function Side(bid: bool): seq<Limit>
      reads this
    {
      if bid then bids else asks
    }

    /** The price map of the bids side when bid holds, of the asks side otherwise. */
    function Index(bid: bool): map<int, Limit>
      reads this
    {
      if bid then bidLimits else askLimits
    }

    /** Each side agrees with its price map and holds valid levels, no level is
        on both sides, and every order in the id map is filed under its own id. */
    ghost predicate Valid()
      reads this, asks, bids, Resting(asks), Resting(bids)
    {
      && SideValid(asks, askLimits) && SideValid(bids, bidLimits)
      && (forall l :: l in asks ==> l !in bids)
      && (forall id :: id in orders ==> orders[id].id == id)
    }

    /** AskTotalVolume: the sum of the TotalVolume of the ask levels. */
    method AskTotalVolume() returns (total: int)
      ensures total == SideVolume(asks)
    {
      total := TotalVolume(asks);
    }

    /** BidTotalVolume: the sum of the TotalVolume of the bid levels. */
    method BidTotalVolume() returns (total: int)
      ensures total == SideVolume(bids)
    {
      total := TotalVolume(bids);
    }

    /** Asks: sort the asks in place, cheapest first, and return them; the
        book stays valid. */
    method Asks() returns (side: seq<Limit>)
      modifies this`asks
      ensures asks == SortBy(old(asks), AskKey) && side == asks
      ensures old(Valid()) ==> Valid()
    {
      ghost var valid := Valid();
      asks := SortBy(asks, AskKey);
      side := asks;
      if valid {
        SortBySorts(old(asks), AskKey);
        SideValidPermutation(old(asks), asks, askLimits);
      }
    }

    /** Bids: sort the bids in place, dearest first, and return them; the
        book stays valid. */
    method Bids() returns (side: seq<Limit>)
      modifies this`bids
      ensures bids == SortBy(old(bids), BidKey) && side == bids
      ensures old(Valid()) ==> Valid()
    {
      ghost var valid := Valid();
      bids := SortBy(bids, BidKey);
      side := bids;
      if valid {
        SortBySorts(old(bids), BidKey);
        SideValidPermutation(old(bids), bids, bidLimits);
      }
    }

    /** PlaceLimitOrder: rest o at price on its own side, in the level at that
        price, creating the level and adding it to the side and to the price map
        first when there is none; file o under its id. Nothing is matched and the
        other side and every other level are untouched. The book stays valid
        when o rests nowhere yet and is younger than every order resting on its
        side. */
    method PlaceLimitOrder(price: int, o: Order)
      modifies this, o`limit, if price in Index(o.bid) then {Index(o.bid)[price]} else {}
      ensures price in old(Index(o.bid)) ==>
        && o.limit == old(Index(o.bid)[price])
        && Side(o.bid) == old(Side(o.bid)) && Index(o.bid) == old(Index(o.bid))
      ensures price !in old(Index(o.bid)) ==>
        && o.limit != null && fresh(o.limit) && o.limit.price == price
        && Side(o.bid) == old(Side(o.bid)) + [o.limit] && Index(o.bid) == old(Index(o.bid))[price := o.limit]
      ensures o.limit != null
      ensures o.limit.orders == old(if price in Index(o.bid) then Index(o.bid)[price].orders else []) + [o]
      ensures o.limit.totalVolume == old(if price in Index(o.bid) then Index(o.bid)[price].totalVolume else 0) + o.size
      ensures Side(!o.bid) == old(Side(!o.bid)) && Index(!o.bid) == old(Index(!o.bid))
      ensures orders == old(orders)[o.id := o]
      ensures old(Valid()) && old(o.limit) == null && (forall x :: x in old(Resting(Side(o.bid))) ==> x.timestamp < o.timestamp)
        ==> Valid()
    {
      var limit := LevelAt(o.bid, price);
      FileOrder(limit, o);
    }

    /** The level at price on the chosen side: the one the price map holds, or
        else a new empty level, which is appended to the side and entered in the
        map. A valid book stays valid, with the same resting orders. */
    method LevelAt(bid: bool, price: int) returns (limit: Limit)
      modifies this`asks, this`bids, this`askLimits, this`bidLimits
      ensures price in old(Index(bid)) ==>
        && limit == old(Index(bid))[price]
        && Side(bid) == old(Side(bid)) && Index(bid) == old(Index(bid))
      ensures price !in old(Index(bid)) ==>
        && fresh(limit) && limit.price == price && limit.orders == [] && limit.totalVolume == 0
        && Side(bid) == old(Side(bid)) + [limit] && Index(bid) == old(Index(bid))[price := limit]
      ensures Side(!bid) == old(Side(!bid)) && Index(!bid) == old(Index(!bid))
      ensures old(Valid()) ==> Valid() && limit in Side(bid) && Resting(Side(bid)) == old(Resting(Side(bid)))
    {
      var found: Limit?;
      if bid {
        found := if price in bidLimits then bidLimits[price] else null;
      } else {
        found := if price in askLimits then askLimits[price] else null;
      }
      if found != null {
        limit := found;
        return;
      }
      limit := new Limit(price);
      if bid {
        bids := bids + [limit];
        bidLimits := bidLimits[price := limit];
      } else {
        asks := asks + [limit];
        askLimits := askLimits[price := limit];
      }
      if old(Valid()) {
        Extended(bid, limit);
      }
    }

    /** A new empty level at a new price, appended to one side and entered in
        its map with nothing else changed, leaves the book valid with the same
        resting orders. */
    twostate lemma Extended(new bid: bool, new limit: Limit)
      requires old(Valid()) && fresh(limit) && limit.orders == [] && limit.totalVolume == 0
      requires limit.price !in old(Index(bid))
      requires Side(bid) == old(Side(bid)) + [limit] && Index(bid) == old(Index(bid))[limit.price := limit]
      requires Side(!bid) == old(Side(!bid)) && Index(!bid) == old(Index(!bid)) && orders == old(orders)
      requires forall m: Limit :: old(allocated(m)) ==> m.orders == old(m.orders) && m.totalVolume == old(m.totalVolume)
      requires forall x: Order :: old(allocated(x)) ==> x.size == old(x.size) && x.limit == old(x.limit)
      ensures Valid() && Resting(Side(bid)) == old(Resting(Side(bid)))
    {
      var side, other := old(Side(bid)), Side(!bid);
      LevelsKept(side);
      LevelsKept(other);
      forall l | l in side ensures LevelValid(side, l) {
        assert old(LevelValid(side, l));
        SumSizesUnchanged(l.orders);
      }
      forall l | l in other ensures LevelValid(other, l) {
        assert old(LevelValid(other, l));
        SumSizesUnchanged(l.orders);
      }
      SideValidAppend(side, old(Index(bid)), limit);
    }

    /** The last two steps of PlaceLimitOrder: file o under its id, then
        Limit.AddOrder puts o at the back of the queue of limit. The book stays
        valid when limit is one of the levels of o's side and o rests nowhere
        yet and is younger than every order resting on that side. */
    method FileOrder(limit: Limit, o: Order)
      modifies this`orders, limit`orders, limit`totalVolume, o`limit
      ensures orders == old(orders)[o.id := o]
      ensures o.limit == limit
      ensures limit.orders == old(limit.orders) + [o]
      ensures limit.totalVolume == old(limit.totalVolume) + o.size
      ensures old(Valid()) && limit in Side(o.bid) && old(o.limit) == null
        && (forall x :: x in old(Resting(Side(o.bid))) ==> x.timestamp < o.timestamp)
        ==> Valid()
    {
      ghost var placeable := Valid() && limit in Side(o.bid) && o.limit == null
        && forall x :: x in Resting(Side(o.bid)) ==> x.timestamp < o.timestamp;
      if placeable {
        assert LevelValid(Side(o.bid), limit);
      }
      orders := orders[o.id := o];
      limit.AddOrder(o);
      if placeable {
        PlacedValid(limit, o);
      }
    }

    /** FileOrder keeps the book valid. */
    twostate lemma PlacedValid(new limit: Limit, o: Order)
      requires old(Valid()) && old(o.limit) == null && limit.Valid() && limit in Side(o.bid)
      requires asks == old(asks) && bids == old(bids) && askLimits == old(askLimits) && bidLimits == old(bidLimits)
      requires orders == old(orders)[o.id := o]
      requires forall m :: (m in old(asks) || m in old(bids)) && m != limit ==> unchanged(m)
      requires forall x: Order :: old(allocated(x)) && x != o && old(x.limit) != limit ==> unchanged(x)
      ensures Valid()
    {
      OthersValid(limit, o);
      forall m | m in Side(o.bid) ensures LevelValid(Side(o.bid), m) {
      }
      var other := Side(!o.bid);
      forall m | m in other ensures LevelValid(other, m) {
        assert m != limit;
      }
    }

    /** A step that changed no level of the book but l, and no order but o and
        the orders resting on l, where o rested on no level but l, leaves every
        other level as valid as it was. */
    twostate lemma OthersValid(new l: Limit, o: Order)
      requires old(Valid()) && (old(o.limit) == null || old(o.limit) == l)
      requires forall m :: (m in old(asks) || m in old(bids)) && m != l ==> unchanged(m)
      requires forall x: Order :: old(allocated(x)) && x != o && old(x.limit) != l ==> unchanged(x)
      ensures forall m :: (m in old(asks) || m in old(bids)) && m != l ==> m.Valid()
    {
      forall m | (m in old(asks) || m in old(bids)) && m != l ensures m.Valid() {
        if m in old(asks) {
          assert old(LevelValid(asks, m));
        } else {
          assert old(LevelValid(bids, m));
        }
        forall x | x in m.orders ensures unchanged(x) {
          assert old(x.limit) == m;
        }
        SumSizesUnchanged(m.orders);
      }
    }

    /** Before the first turn of the sweep; the levels swept share no level and
        no order with the other side, and o rests on neither. */
    lemma SweepStarts(o: Order, bidSide: bool, L: seq<Limit>)
      requires Valid() && o.limit == null && L == Side(bidSide)
      ensures LevelsAt(o, L, Queues(L), Depths(L), Volumes(L), o.size)
      ensures SweptValues(o, L, Queues(L), Depths(L), Volumes(L), o.size, Queues(L), Depths(L), Volumes(L), [], [o.size], [])
      ensures SweptSide(Side(bidSide), Index(bidSide), L, Depths(L), Index(bidSide), [])
      ensures forall k :: 0 <= k < |L| ==> o !in Queues(L)[k]
    {
      forall k | 0 <= k < |L| ensures o !in L[k].orders {
        assert LevelValid(L, L[k]);
      }
    }

    /** The two sides of a valid book share no level and no resting order,
        and an order that rests nowhere is on neither. */
    lemma SidesApart(o: Order, bidSide: bool, L: seq<Limit>)
      requires Valid() && o.limit == null && L == Side(bidSide)
      ensures forall l :: l in L ==> l !in Side(!bidSide)
      ensures forall x :: x in Resting(L) ==> x !in Resting(Side(!bidSide))
      ensures o !in Resting(Side(!bidSide))
    {
      var other := Side(!bidSide);
      forall x | x in Resting(L) ensures x !in Resting(other) {
        var m :| m in L && x in m.orders;
        assert LevelValid(L, m);
        forall m' | m' in other ensures x !in m'.orders {
          assert LevelValid(other, m');
        }
      }
      forall m' | m' in other ensures o !in m'.orders {
        assert LevelValid(other, m');
      }
    }

    /** The end of one turn of the sweep in PlaceMarketOrder: the level L[i]
        is cleared from its side when the fill f left it empty. The levels
        themselves are not touched. */
    method ClearIfEmpty(bidSide: bool, L: seq<Limit>, i: nat, ghost RS: seq<seq<int>>, ghost I0: map<int, Limit>,
                        ghost F: seq<seq<int>>, ghost f: seq<int>,
                        o: Order, ghost Qs: seq<seq<Order>>, ghost Ds: seq<seq<int>>, ghost Vs: seq<int>, ghost size: int)
      requires i == |F| < |L| && SweptSide(Side(bidSide), Index(bidSide), L, RS, I0, F)
      requires LevelsAt(o, L, Qs, Ds, Vs, size)
      requires |L[i].orders| == 0 <==> Drained(RS[i], f)
      modifies this
      ensures SweptSide(Side(bidSide), Index(bidSide), L, RS, I0, F + [f])
      ensures LevelsAt(o, L, Qs, Ds, Vs, size)
      ensures Side(!bidSide) == old(Side(!bidSide)) && Index(!bidSide) == old(Index(!bidSide)) && orders == old(orders)
      ensures forall m: Limit :: old(allocated(m)) ==> m.orders == old(m.orders) && m.totalVolume == old(m.totalVolume)
      ensures forall x: Order :: old(allocated(x)) ==> x.size == old(x.size) && x.limit == old(x.limit)
    {
      SideStep(Side(bidSide), Index(bidSide), L, RS, I0, F, i, f);
      if |L[i].orders| == 0 {
        ClearLevel(bidSide, L[i], o, L, Qs, Ds, Vs, size);
      }
    }

    /** ClearLimit, which changes only the book's own fields, leaves the
        levels and the market order as they were. */
    method ClearLevel(bid: bool, l: Limit, o: Order, L: seq<Limit>,
                      ghost Qs: seq<seq<Order>>, ghost Ds: seq<seq<int>>, ghost Vs: seq<int>, ghost size: int)
      requires LevelsAt(o, L, Qs, Ds, Vs, size)
      modifies this
      ensures LevelsAt(o, L, Qs, Ds, Vs, size)
      ensures Side(bid) == SwapRemoval(old(Side(bid)), l) && Index(bid) == old(Index(bid)) - {l.price}
      ensures Side(!bid) == old(Side(!bid)) && Index(!bid) == old(Index(!bid)) && orders == old(orders)
      ensures forall m: Limit :: old(allocated(m)) ==> m.orders == old(m.orders) && m.totalVolume == old(m.totalVolume)
      ensures forall x: Order :: old(allocated(x)) ==> x.size == old(x.size) && x.limit == old(x.limit)
    {
      ClearLimit(bid, l);
    }

    /** One turn of the sweep on the levels alone: Limit.Fill of the level
        L[i] by o keeps SweptValues one level further, on the new snapshots
        of the levels; the level is left empty exactly when its fills drained
        it, and the orders its fills emptied are deleted, as those of the
        levels before (Emptied). */
    method FillStep(o: Order, L: seq<Limit>, ghost O: seq<seq<Order>>, ghost RS: seq<seq<int>>, ghost V: seq<int>,
                    ghost F: seq<seq<int>>, ghost W: seq<int>, i: nat, matches: seq<Match>,
                    ghost Qs: seq<seq<Order>>, ghost Ds: seq<seq<int>>, ghost Vs: seq<int>)
      returns (matches': seq<Match>, ghost Qs': seq<seq<Order>>, ghost Ds': seq<seq<int>>, ghost Vs': seq<int>)
      requires i == |F| < |L| && |W| == i + 1
      requires LevelsAt(o, L, Qs, Ds, Vs, W[i]) && SweptValues(o, L, Qs, Ds, Vs, W[i], O, RS, V, F, W, matches)
      requires Emptied(O, RS, F) && forall k :: 0 <= k < |O| ==> o !in O[k]
      modifies o`size, L[i], L[i].orders
      ensures unchanged(this)
      ensures forall m: Limit :: old(allocated(m)) && m != L[i] ==> m.orders == old(m.orders) && m.totalVolume == old(m.totalVolume)
      ensures forall x: Order :: old(allocated(x)) && x !in old(L[i].orders) && x != o ==> x.size == old(x.size) && x.limit == old(x.limit)
      ensures LevelsAt(o, L, Qs', Ds', Vs', o.size)
      ensures SweptValues(o, L, Qs', Ds', Vs', o.size, O, RS, V, F + [Sweep(RS[i], W[i])], W + [o.size], matches')
      ensures |L[i].orders| == 0 <==> Drained(RS[i], Sweep(RS[i], W[i]))
      ensures Emptied(O, RS, F + [Sweep(RS[i], W[i])])
    {
      forall l | l in L ensures l.Valid() {
        assert LevelValid(L, l);
      }
      ghost var D, q := Deleted(O, RS, F), L[i].orders;
      DeletedApart(O, RS, F, L[i], o);
      var levelMatches := FillLevel(o, L, i, q, RS[i], o.size);
      DeletedKept(D, q, o);
      EmptiedGrow(O, RS, F, Sweep(RS[i], W[i]), W[i]);
      assert unchanged(this);
      OthersKept(L, i, o);
      Snapshots(L, i);
      matches' := matches + levelMatches;
      Qs', Ds', Vs' := Queues(L), Depths(L), Volumes(L);
      ValuesStep(o, L, Qs, Ds, Vs, W[i], O, RS, V, F, W, i, matches,
                 Qs', Ds', Vs', o.size, matches', L[i].orders, Sizes(L[i].orders), L[i].totalVolume);
      forall l | l in L ensures LevelValid(L, l) {
      }
    }

    /** The levels of the chosen side best price first, as Asks and Bids sort them. */
    function BestLevels(bid: bool): seq<Limit>
      reads this
    {
      SortBy(Side(bid), BestFirst(bid))
    }

    /** PlaceMarketOrder: a market order o larger than the total volume of the
        opposite side fails (the source panics) and changes nothing: not the
        book, not o, not the levels or their orders. Otherwise the opposite
        side is sorted and its levels L are swept best price first, each with
        Limit.Fill: the fills are SideSweep of their resting sizes for the size
        o had, the matches are recorded level after level, each level keeps the
        orders after its cut, each having lost its fill, and loses the fills
        from its volume, and clearLimit takes the drained levels off the side
        and out of the price map. The orders the fills emptied rest on no level
        at size zero, though the id map still holds them (so CancelOrder fails
        on them). The own side and the id map are untouched
        and the book stays valid. With sizes of at least zero, o ends filled,
        and the orders left on the opposite side keep sizes of at least zero. */
    method PlaceMarketOrder(o: Order) returns (matches: seq<Match>, ok: bool)
      requires Valid() && o.limit == null
      modifies this, o`size, LevelSet(Side(!o.bid)), Resting(Side(!o.bid))
      ensures ok <==> old(o.size) <= old(SideVolume(Side(!o.bid)))
      ensures !ok ==> && matches == [] && o.size == old(o.size) && unchanged(this)
                      && unchanged(LevelSet(old(Side(!o.bid)))) && unchanged(Resting(old(Side(!o.bid))))
      ensures ok ==>
        var L := old(BestLevels(!o.bid));
        var F := SideSweep(old(Depths(L)), old(o.size));
        && Swept(o, L, Queues(L), Depths(L), Volumes(L), o.size, old(Queues(L)), old(Depths(L)), old(Volumes(L)), F, old(o.size), matches)
        && Cleared(Side(!o.bid), Index(!o.bid), L, old(Depths(L)), old(Index(!o.bid)), F)
        && Emptied(old(Queues(L)), old(Depths(L)), F)
      ensures Side(o.bid) == old(Side(o.bid)) && Index(o.bid) == old(Index(o.bid)) && orders == old(orders)
      ensures Valid()
      ensures ok && old(o.size) >= 0 && (forall l :: l in old(Side(!o.bid)) ==> old(l.NonNegative())) ==> o.size == 0
      ensures (forall l :: l in old(Side(!o.bid)) ==> old(l.NonNegative())) ==> forall l :: l in Side(!o.bid) ==> l.NonNegative()
    {
      var total;
      if o.bid {
        total := AskTotalVolume();
      } else {
        total := BidTotalVolume();
      }
      Untouched(!o.bid);
      if o.size > total {
        return [], false;
      }
      if forall l :: l in Side(!o.bid) ==> l.NonNegative() {
        BestNonNegative(!o.bid);
        if o.size >= 0 {
          Fillable(!o.bid, o.size);
        }
      }
      matches := MarketSweep(o);
      ok := true;
    }

    /** The sweep of PlaceMarketOrder once the volume check has passed: sort
        the opposite side and fill o from its levels, best price first. o
        loses all the fills, and when the sizes resting there were at least
        zero, the orders left there still are; the orders emptied are
        unlinked at size zero. */
    method MarketSweep(o: Order) returns (matches: seq<Match>)
      requires Valid() && o.limit == null && o.size <= SideVolume(Side(!o.bid))
      modifies this, o`size, LevelSet(Side(!o.bid)), Resting(Side(!o.bid))
      ensures var L := old(BestLevels(!o.bid));
        var F := SideSweep(old(Depths(L)), old(o.size));
        && Swept(o, L, Queues(L), Depths(L), Volumes(L), o.size, old(Queues(L)), old(Depths(L)), old(Volumes(L)), F, old(o.size), matches)
        && Cleared(Side(!o.bid), Index(!o.bid), L, old(Depths(L)), old(Index(!o.bid)), F)
        && Emptied(old(Queues(L)), old(Depths(L)), F)
      ensures Side(o.bid) == old(Side(o.bid)) && Index(o.bid) == old(Index(o.bid)) && orders == old(orders)
      ensures Valid()
      ensures o.size == old(o.size) - SumAll(SideSweep(old(Depths(BestLevels(!o.bid))), old(o.size)))
      ensures AllNonNegative(old(Depths(BestLevels(!o.bid)))) ==> forall l :: l in Side(!o.bid) ==> l.NonNegative()
    {
      ghost var L, O, RS, V, I0, want := BestLevels(!o.bid), Queues(BestLevels(!o.bid)), Depths(BestLevels(!o.bid)),
                                         Volumes(BestLevels(!o.bid)), Index(!o.bid), o.size;
      var side := SortLevels(!o.bid);
      assert side == L && Queues(side) == O && Depths(side) == RS && Volumes(side) == V;
      assert forall l :: l in side ==> l in old(Side(!o.bid));
      assert Resting(side) == old(Resting(Side(!o.bid)));
      ghost var F, Qs, Ds, Vs;
      matches, F, Qs, Ds, Vs := SweepLevels(o, !o.bid, side, O, RS, V, I0, want);
    }

    /** Asks or Bids, for the side bid: sort that side best price first in
        place; the book stays valid. */
    method SortSide(bid: bool) returns (side: seq<Limit>)
      requires Valid()
      modifies this`asks, this`bids
      ensures side == Side(bid) == old(BestLevels(bid)) && Side(!bid) == old(Side(!bid))
      ensures Index(bid) == old(Index(bid)) && Index(!bid) == old(Index(!bid)) && orders == old(orders)
      ensures Valid()
    {
      if bid {
        side := Bids();
      } else {
        side := Asks();
      }
    }

    /** SortSide seen from the levels: only the order of the levels of the side
        changes, so the levels, what they hold and their volumes are as before. */
    method SortLevels(bid: bool) returns (side: seq<Limit>)
      requires Valid()
      modifies this`asks, this`bids
      ensures side == Side(bid) == old(BestLevels(bid)) && Side(!bid) == old(Side(!bid))
      ensures Index(bid) == old(Index(bid)) && Index(!bid) == old(Index(!bid)) && orders == old(orders)
      ensures Valid()
      ensures forall l :: l in side ==> l in old(Side(bid))
      ensures Resting(side) == old(Resting(Side(bid)))
      ensures Queues(side) == old(Queues(BestLevels(bid)))
      ensures Depths(side) == old(Depths(BestLevels(bid)))
      ensures Volumes(side) == old(Volumes(BestLevels(bid)))
    {
      side := SortSide(bid);
      SortByMembers(old(Side(bid)), BestFirst(bid));
      RestingSameLevels(side, old(Side(bid)));
      LevelsKept(side);
    }

    /** Reading the book (AskTotalVolume, BidTotalVolume) leaves it valid, with
        the same levels holding the same orders and volumes. */
    twostate lemma Untouched(new bid: bool)
      requires old(Valid()) && unchanged(this)
      requires forall m: Limit :: old(allocated(m)) ==> m.orders == old(m.orders) && m.totalVolume == old(m.totalVolume)
      requires forall x: Order :: old(allocated(x)) ==> x.size == old(x.size) && x.limit == old(x.limit)
      ensures Valid()
      ensures BestLevels(bid) == old(BestLevels(bid)) && Resting(Side(bid)) == old(Resting(Side(bid)))
      ensures Queues(BestLevels(bid)) == old(Queues(BestLevels(bid)))
      ensures Depths(BestLevels(bid)) == old(Depths(BestLevels(bid)))
      ensures Volumes(BestLevels(bid)) == old(Volumes(BestLevels(bid)))
      ensures SideVolume(Side(bid)) == old(SideVolume(Side(bid)))
      ensures Side(bid) == old(Side(bid)) && Index(bid) == old(Index(bid))
      ensures Side(!bid) == old(Side(!bid)) && Index(!bid) == old(Index(!bid)) && orders == old(orders)
      ensures forall l :: l in Side(bid) && old(l.NonNegative()) ==> l.NonNegative()
    {
      LevelsKept(asks);
      LevelsKept(bids);
      LevelsKept(BestLevels(bid));
      SideVolumeKept(Side(bid));
      forall l | l in asks ensures LevelValid(asks, l) {
        assert old(LevelValid(asks, l));
        SumSizesUnchanged(l.orders);
      }
      forall l | l in bids ensures LevelValid(bids, l) {
        assert old(LevelValid(bids, l));
        SumSizesUnchanged(l.orders);
      }
    }

    /** The sorted levels of a side whose orders have sizes of at least zero
        have depths of at least zero. */
    lemma BestNonNegative(bid: bool)
      requires forall l :: l in Side(bid) ==> l.NonNegative()
      ensures AllNonNegative(Depths(BestLevels(bid)))
    {
      SortByMembers(Side(bid), BestFirst(bid));
      DepthsNonNegative(BestLevels(bid));
    }

    /** A size of at least zero that the side bid holds, when its sizes are at
        least zero, is swept from its sorted levels in full. */
    lemma Fillable(bid: bool, want: int)
      requires Valid() && 0 <= want <= SideVolume(Side(bid)) && forall l :: l in Side(bid) ==> l.NonNegative()
      ensures SumAll(SideSweep(Depths(BestLevels(bid)), want)) == want
    {
      SideFillable(Side(bid), Index(bid), BestFirst(bid), want);
    }

    /** The book is valid again after a sweep of the side !bid that kept that
        side indexed, valid and within its old levels and left the side bid and
        the id map alone. */
    twostate lemma SweptValid(new bid: bool, new L: seq<Limit>, new R: set<Order>, new o: Order)
      requires old(Valid()) && L == old(Side(!bid))
      requires forall l :: l in L ==> l !in old(Side(bid))
      requires forall x :: x in R ==> x !in old(Resting(Side(bid)))
      requires o !in old(Resting(Side(bid)))
      requires forall m: Limit :: old(allocated(m)) && m !in L ==> m.orders == old(m.orders) && m.totalVolume == old(m.totalVolume)
      requires forall x: Order :: old(allocated(x)) && x !in R && x != o ==> x.size == old(x.size) && x.limit == old(x.limit)
      requires Indexed(Side(!bid), Index(!bid))
      requires forall l :: l in Side(!bid) ==> l in L
      requires forall l :: l in L ==> l.Valid()
      requires Side(bid) == old(Side(bid)) && Index(bid) == old(Index(bid)) && orders == old(orders)
      ensures Valid()
    {
      forall l | l in Side(bid) ensures LevelValid(Side(bid), l) {
        assert old(LevelValid(Side(bid), l));
        assert l !in L;
        forall x | x in l.orders ensures x.size == old(x.size) && x.limit == old(x.limit) {
          assert x in old(Resting(Side(bid)));
        }
        SumSizesUnchanged(l.orders);
      }
      var swept := Side(!bid);
      forall l | l in swept ensures LevelValid(swept, l) {
      }
      forall l | l in asks ensures l !in bids {
        assert old(l in asks ==> l !in bids);
      }
    }

    /** One turn of the sweep in PlaceMarketOrder: Limit.Fill of the level
        L[i] by o, then clearLimit when the level is left empty. */
    method SweepNext(o: Order, bidSide: bool, L: seq<Limit>, ghost O: seq<seq<Order>>, ghost RS: seq<seq<int>>,
                     ghost V: seq<int>, ghost I0: map<int, Limit>, ghost F: seq<seq<int>>, ghost W: seq<int>,
                     i: nat, matches: seq<Match>, ghost Qs: seq<seq<Order>>, ghost Ds: seq<seq<int>>, ghost Vs: seq<int>)
      returns (matches': seq<Match>, ghost Qs': seq<seq<Order>>, ghost Ds': seq<seq<int>>, ghost Vs': seq<int>)
      requires i == |F| < |L| && |W| == i + 1
      requires LevelsAt(o, L, Qs, Ds, Vs, W[i]) && SweptValues(o, L, Qs, Ds, Vs, W[i], O, RS, V, F, W, matches)
      requires SweptSide(Side(bidSide), Index(bidSide), L, RS, I0, F)
      requires Emptied(O, RS, F) && forall k :: 0 <= k < |O| ==> o !in O[k]
      modifies this, o`size, L[i], L[i].orders
      ensures forall m: Limit :: old(allocated(m)) && m != L[i] ==> m.orders == old(m.orders) && m.totalVolume == old(m.totalVolume)
      ensures forall x: Order :: old(allocated(x)) && x !in old(L[i].orders) && x != o ==> x.size == old(x.size) && x.limit == old(x.limit)
      ensures LevelsAt(o, L, Qs', Ds', Vs', o.size)
      ensures SweptValues(o, L, Qs', Ds', Vs', o.size, O, RS, V, F + [Sweep(RS[i], W[i])], W + [o.size], matches')
      ensures SweptSide(Side(bidSide), Index(bidSide), L, RS, I0, F + [Sweep(RS[i], W[i])])
      ensures Side(!bidSide) == old(Side(!bidSide)) && Index(!bidSide) == old(Index(!bidSide)) && orders == old(orders)
      ensures Emptied(O, RS, F + [Sweep(RS[i], W[i])])
    {
      matches', Qs', Ds', Vs' := FillStep(o, L, O, RS, V, F, W, i, matches, Qs, Ds, Vs);
      ClearIfEmpty(bidSide, L, i, RS, I0, F, Sweep(RS[i], W[i]), o, Qs', Ds', Vs', o.size);
    }

    /** The loop of PlaceMarketOrder over the levels L of the side bidSide, in
        the order given (the sorted side), seen on the snapshots O (their
        orders), RS (the sizes of those), V (their volumes), I0 (the price map)
        and want (the size of o) taken before it; the fills are F and the
        levels end with the orders Qs and the volumes Vs, and the orders the
        fills emptied are unlinked at size zero. It touches only the
        book, o and the levels L with their orders, so the other side is left
        as it was, and the book stays valid. */
    method SweepLevels(o: Order, bidSide: bool, L: seq<Limit>, ghost O: seq<seq<Order>>, ghost RS: seq<seq<int>>,
                       ghost V: seq<int>, ghost I0: map<int, Limit>, ghost want: int)
      returns (matches: seq<Match>, ghost F: seq<seq<int>>, ghost Qs: seq<seq<Order>>, ghost Ds: seq<seq<int>>,
               ghost Vs: seq<int>)
      requires Valid() && o.limit == null && L == Side(bidSide)
      requires O == Queues(L) && RS == Depths(L) && V == Volumes(L) && I0 == Index(bidSide) && want == o.size
      modifies this, o`size, L, Resting(L)
      ensures F == SideSweep(RS, want) && o.size == want - SumAll(F)
      ensures Swept(o, L, Qs, Ds, Vs, o.size, O, RS, V, F, want, matches) && Cleared(Side(bidSide), Index(bidSide), L, RS, I0, F)
      ensures Queues(L) == Qs && Depths(L) == Ds && Volumes(L) == Vs
      ensures Side(!bidSide) == old(Side(!bidSide)) && Index(!bidSide) == old(Index(!bidSide)) && orders == old(orders)
      ensures Valid()
      ensures AllNonNegative(RS) ==> forall l :: l in Side(bidSide) ==> l.NonNegative()
      ensures Emptied(O, RS, F)
    {
      ghost var W;
      SidesApart(o, bidSide, L);
      ghost var R := Resting(L);
      matches, F, W, Qs, Ds, Vs := SweepEach(o, bidSide, L, R, O, RS, V, I0, want);
      FillsCoverSide(F, W, RS);
      SweptValid(!bidSide, L, R, o);
      if AllNonNegative(RS) {
        SweptLevelsNonNegative(o, L, Qs, Ds, Vs, o.size, O, RS, V, F, want, matches, Side(bidSide));
      }
    }

    /** The loop itself: Limit.Fill of each level in turn, then clearLimit of
        the level when it is left empty. */
    method SweepEach(o: Order, bidSide: bool, L: seq<Limit>, ghost R: set<Order>, ghost O: seq<seq<Order>>, ghost RS: seq<seq<int>>,
                     ghost V: seq<int>, ghost I0: map<int, Limit>, ghost want: int)
      returns (matches: seq<Match>, ghost F: seq<seq<int>>, ghost W: seq<int>, ghost Qs: seq<seq<Order>>,
               ghost Ds: seq<seq<int>>, ghost Vs: seq<int>)
      requires Valid() && o.limit == null && L == Side(bidSide)
      requires O == Queues(L) && RS == Depths(L) && V == Volumes(L) && I0 == Index(bidSide) && want == o.size
      requires R == Resting(L)
      modifies this, o`size, L, R
      ensures forall m: Limit :: old(allocated(m)) && m !in L ==> m.orders == old(m.orders) && m.totalVolume == old(m.totalVolume)
      ensures forall x: Order :: old(allocated(x)) && x !in R && x != o ==> x.size == old(x.size) && x.limit == old(x.limit)
      ensures SweptFills(F, W, RS) && |F| == |L| && W[0] == want
      ensures Swept(o, L, Qs, Ds, Vs, o.size, O, RS, V, F, want, matches) && Cleared(Side(bidSide), Index(bidSide), L, RS, I0, F)
      ensures Queues(L) == Qs && Depths(L) == Ds && Volumes(L) == Vs
      ensures Side(!bidSide) == old(Side(!bidSide)) && Index(!bidSide) == old(Index(!bidSide)) && orders == old(orders)
      ensures forall l :: l in L ==> l.Valid()
      ensures Emptied(O, RS, F)
    {
      F := [];
      W := [o.size];
      Qs, Ds, Vs := O, RS, V;
      SweepStarts(o, bidSide, L);
      assert forall k, x :: 0 <= k < |L| && x in O[k] ==> x in R;
      matches := [];
      var i := 0;
      while i < |L|
        invariant i == |F| <= |L| && |W| == i + 1 && W[0] == want
        invariant LevelsAt(o, L, Qs, Ds, Vs, W[i])
        invariant SweptValues(o, L, Qs, Ds, Vs, W[i], O, RS, V, F, W, matches)
        invariant SweptSide(Side(bidSide), Index(bidSide), L, RS, I0, F)
        invariant Side(!bidSide) == old(Side(!bidSide)) && Index(!bidSide) == old(Index(!bidSide)) && orders == old(orders)
        invariant forall m: Limit :: old(allocated(m)) && m !in L ==> m.orders == old(m.orders) && m.totalVolume == old(m.totalVolume)
        invariant forall x: Order :: old(allocated(x)) && x !in R && x != o ==> x.size == old(x.size) && x.limit == old(x.limit)
        invariant Emptied(O, RS, F)
      {
        assert L[i].orders == O[i];
        ghost var f := Sweep(RS[i], W[i]);
        matches, Qs, Ds, Vs := SweepNext(o, bidSide, L, O, RS, V, I0, F, W, i, matches, Qs, Ds, Vs);
        F, W := F + [f], W + [o.size];
        i := i + 1;
      }
      SweepEnds(o, L, Qs, Ds, Vs, o.size, O, RS, V, F, W, matches, Side(bidSide), Index(bidSide), I0);
      forall l | l in L ensures l.Valid() {
        assert LevelValid(L, l);
      }
    }

    /** clearLimit: take the level l out of the price map of the chosen side and
        out of its slice, with the swap-with-last loop. */
    method ClearLimit(bid: bool, l: Limit)
      modifies this
      ensures Side(bid) == SwapRemoval(old(Side(bid)), l) && Index(bid) == old(Index(bid)) - {l.price}
      ensures Side(!bid) == old(Side(!bid)) && Index(!bid) == old(Index(!bid)) && orders == old(orders)
    {
      if bid {
        bidLimits := bidLimits - {l.price};
        bids := SwapRemove(bids, l);
      } else {
        askLimits := askLimits - {l.price};
        asks := SwapRemove(asks, l);
      }
    }

    /** CancelOrder: delete o from the level it points to and drop its id from
        the id map. The level stays on its side and in the price map even when
        it is left empty. An order that points to no level fails (the source
        dereferences a nil level) and changes nothing. */
    method CancelOrder(o: Order) returns (ok: bool)
      modifies this`orders, o`limit, o.limit
      ensures ok <==> old(o.limit) != null
      ensures ok ==> var l := old(o.limit);
        && l.orders == SortBy(SwapRemoval(old(l.orders), o), Timestamp)
        && l.totalVolume == old(l.totalVolume) - o.size
        && o.limit == null
        && orders == old(orders) - {o.id}
      ensures !ok ==> orders == old(orders) && o.limit == null
      ensures old(Valid()) && o in old(Resting(asks) + Resting(bids)) ==> Valid()
    {
      var limit := o.limit;
      if limit == null {
        return false;
      }
      ghost var cancelable := Valid() && o in Resting(asks) + Resting(bids);
      if cancelable {
        RestsOnItsLevel(o);
      }
      limit.DeleteOrder(o);
      orders := orders - {o.id};
      ok := true;
      if cancelable {
        CancelledValid(limit, o);
      }
    }

    /** An order resting in a valid book rests in the level it points to, which
        is listed on one of the sides. */
    lemma RestsOnItsLevel(o: Order)
      requires Valid() && o in Resting(asks) + Resting(bids)
      ensures o.limit != null && (o.limit in asks || o.limit in bids) && o in o.limit.orders && o.limit.Valid()
    {
      var m :| (m in asks || m in bids) && o in m.orders;
      if m in asks {
        assert LevelValid(asks, m);
      } else {
        assert LevelValid(bids, m);
      }
    }

    /** CancelOrder keeps the book valid. */
    twostate lemma CancelledValid(new limit: Limit, o: Order)
      requires old(Valid()) && old(o.limit) == limit && limit.Valid()
      requires limit in old(asks) || limit in old(bids)
      requires unchanged(this`asks, this`bids, this`askLimits, this`bidLimits)
      requires orders == old(orders) - {o.id}
      requires forall m :: (m in old(asks) || m in old(bids)) && m != limit ==> unchanged(m)
      requires forall x: Order :: old(allocated(x)) && x != o && old(x.limit) != limit ==> unchanged(x)
      ensures Valid()
    {
      OthersValid(limit, o);
      forall m | m in asks ensures LevelValid(asks, m) {
      }
      forall m | m in bids ensures LevelValid(bids, m) {
      }
    }
  }
}
