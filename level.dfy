/** Orders and price levels, shared by both order books. A price level (Limit)
    keeps its resting orders oldest first and a running total of their sizes.
    Sizes and prices are integers; the source's float64 rounding is not modelled. */
module Level {
  import opened Slices

  /** A request to buy (bid) or sell (ask). Size shrinks as it is filled; Limit is
      the level it rests in, or null when it rests nowhere. */
  class Order {
    const id: int
    var size: int
    const bid: bool
    var limit: Limit?
    const timestamp: int

    constructor (id: int, size: int, bid: bool, timestamp: int)
      ensures this.id == id && this.size == size && this.bid == bid
      ensures this.timestamp == timestamp && limit == null
    {
      this.id := id;
      this.size := size;
      this.bid := bid;
      this.timestamp := timestamp;
      limit := null;
    }

    predicate IsFilled()
      reads this`size
    {
      size == 0
    }
  }

  /** Orders.Less: resting orders are kept in timestamp order. */
  function Timestamp(o: Order): int {
    o.timestamp
  }

  /** Orders.Less holds between any two orders in queue order: the timestamps
      strictly increase along the queue. */
  predicate InTimeOrder(s: seq<Order>) {
    forall i, j :: 0 <= i < j < |s| ==> s[i].timestamp < s[j].timestamp
  }

  /** That is the order sort.Sort establishes under Orders.Less. */
  lemma TimeOrderSorted(s: seq<Order>)
    ensures InTimeOrder(s) <==> StrictlySortedBy(s, Timestamp)
  {
  }

  /** One fill between a bid and an ask, at the price of the level where it happened. */
  datatype Match = Match(ask: Order, bid: Order, sizeFilled: int, price: int)

  /** The Match recorded when a is filled against b: a is the bid side exactly when a.Bid. */
  function Pair(a: Order, b: Order, sizeFilled: int, price: int): Match {
    if a.bid then Match(b, a, sizeFilled, price) else Match(a, b, sizeFilled, price)
  }

  /** The total size of a sequence of orders. */
  ghost function SumSizes(s: seq<Order>): int
    reads s`size
  {
    if s == [] then 0 else s[0].size + SumSizes(s[1..])
  }

  /** The sizes of a sequence of orders, in order. */
  ghost function Sizes(s: seq<Order>): (r: seq<int>)
    reads s`size
    ensures |r| == |s|
    ensures forall i :: 0 <= i < |s| ==> r[i] == s[i].size
  {
    if s == [] then [] else [s[0].size] + Sizes(s[1..])
  }

  function Sum(s: seq<int>): int {
    if s == [] then 0 else s[0] + Sum(s[1..])
  }

  /** The total size filled by a sequence of matches. */
  function SumFilled(ms: seq<Match>): int {
    if ms == [] then 0 else ms[0].sizeFilled + SumFilled(ms[1..])
  }

  /** A price level: every order in it is at this price. */
  class Limit {
    const price: int
    var orders: seq<Order>
    var totalVolume: int

    constructor (price: int)
      ensures this.price == price && orders == [] && totalVolume == 0
    {
      this.price := price;
      orders := [];
      totalVolume := 0;
    }

    /** Orders are in strictly increasing timestamp order (hence distinct), each one
        points back to this level, and TotalVolume is the sum of their sizes. */
    ghost predicate Valid()
      reads this, orders
    {
      && InTimeOrder(orders)
      && (forall x :: x in orders ==> x.limit == this)
      && totalVolume == SumSizes(orders)
    }

    /** Every resting order here has a size of at least zero. */
    ghost predicate NonNegative()
      reads this, orders
    {
      forall k :: 0 <= k < |orders| ==> orders[k].size >= 0
    }

    /** Limit.AddOrder: append o, point it back here, add its size to TotalVolume. */
    method AddOrder(o: Order)
      modifies this`orders, this`totalVolume, o`limit
      ensures o.limit == this
      ensures orders == old(orders) + [o]
      ensures totalVolume == old(totalVolume) + o.size
      ensures old(Valid()) && (forall x :: x in old(orders) ==> x.timestamp < o.timestamp) ==> Valid()
      ensures old(NonNegative()) && o.size >= 0 ==> NonNegative()
    {
      ghost var before := orders;
      ghost var later := forall x :: x in before ==> x.timestamp < o.timestamp;
      if Valid() && later {
        AppendInTimeOrder(before, o);
      }
      o.limit := this;
      orders := orders + [o];
      totalVolume := totalVolume + o.size;
      SumSizesUnchanged(orders);
      SumSizesAppend(before, o);
      if old(Valid()) && later {
        forall x | x in orders ensures x.limit == this {
          assert x == o || x in before;
        }
      }
    }

    /** Limit.DeleteOrder: the swap-with-last deletion of o, then clearing its
        back-reference, subtracting its size, and re-sorting by timestamp. The source
        does not require o to be present: TotalVolume drops by o.Size regardless.
        On a valid level holding o, this removes o and nothing else. */
    method DeleteOrder(o: Order)
      modifies this`orders, this`totalVolume, o`limit
      ensures orders == SortBy(SwapRemoval(old(orders), o), Timestamp)
      ensures o.limit == null
      ensures totalVolume == old(totalVolume) - o.size
      ensures old(Valid()) && o in old(orders) ==> Valid() && orders == Without(old(orders), o)
    {
      ghost var before := orders;
      if Valid() && o in before {
        DeleteInTimeOrder(before, o);
      }
      var rest := SwapRemove(orders, o);
      o.limit := null;
      totalVolume := totalVolume - o.size;
      orders := SortBy(rest, Timestamp);
      if old(Valid()) && o in before {
        SumSizesUnchanged(orders);
        forall x | x in orders ensures x.limit == this {
          assert x in before && x != o;
        }
      }
    }

    /** Limit.fillOrder: the smaller of the two orders is filled completely and the
        other shrinks by the same amount; the match is priced at this level. */
    method FillOrder(a: Order, b: Order) returns (m: Match)
      modifies a`size, b`size
      ensures m == Pair(a, b, m.sizeFilled, price)
      ensures a != b ==> m.sizeFilled == Min(old(a.size), old(b.size))
      ensures a != b ==> a.size == old(a.size) - m.sizeFilled && b.size == old(b.size) - m.sizeFilled
      ensures a != b ==> a.size == 0 || b.size == 0
      ensures a != b ==> (a.IsFilled() <==> old(a.size) <= old(b.size)) && (b.IsFilled() <==> old(b.size) <= old(a.size))
      ensures a != b && old(a.size) >= 0 && old(b.size) >= 0 ==> a.size >= 0 && b.size >= 0 && m.sizeFilled >= 0
      ensures a == b ==> a.size == 0 && m.sizeFilled == 0
    {
      var bidOrder, askOrder := b, a;
      if a.bid {
        bidOrder, askOrder := a, b;
      }
      var sizeFilled;
      if a.size >= b.size {
        a.size := a.size - b.size;
        sizeFilled := b.size;
        b.size := 0;
      } else {
        b.size := b.size - a.size;
        sizeFilled := a.size;
        a.size := 0;
      }
      m := Match(askOrder, bidOrder, sizeFilled, price);
    }

    /** Limit.Fill: sweep the resting orders oldest first against o, one fillOrder
        each, stopping once o is filled; the fills are exactly Sweep of the resting
        sizes. The resting orders the sweep emptied, which are the oldest ones, are
        deleted after the loop, so the level keeps the rest in time order, stays
        valid and loses exactly the matched volume. */
    method Fill(o: Order) returns (matches: seq<Match>)
      requires Valid() && o !in orders
      modifies this`orders, this`totalVolume, o`size, orders`size, orders`limit
      ensures var fills := Sweep(old(Sizes(orders)), old(o.size));
        && Recorded(matches, old(orders), o, fills, price)
        && o.size == old(o.size) - Sum(fills)
        && totalVolume == old(totalVolume) - Sum(fills)
      ensures var fills := Sweep(old(Sizes(orders)), old(o.size));
        forall k :: 0 <= k < |old(orders)| ==> old(orders)[k].size == old(orders[k].size) - Taken(fills, k)
      ensures var cut := Cut(old(Sizes(orders)), Sweep(old(Sizes(orders)), old(o.size)));
        && orders == old(orders)[cut..]
        && (forall k :: 0 <= k < cut ==> old(orders)[k].limit == null)
      ensures var fills := Sweep(old(Sizes(orders)), old(o.size));
        Sizes(orders) == Remaining(old(Sizes(orders)), fills)[Cut(old(Sizes(orders)), fills)..]
      ensures Valid()
    {
      ghost var S, rs := orders, Sizes(orders);
      SumOfSizes(S);
      TimeOrderSorted(S);
      StrictlySortedDistinct(S, Timestamp);
      var toDelete;
      ghost var fills;
      matches, toDelete, fills := FillEach(o);
      SumSizesDrained(S, rs, fills);
      DeleteAll(toDelete);
      DrainedSuffix(S, rs, fills, |toDelete|);
    }

    /** The state of the range loop of Limit.Fill after |fills| steps: the steps
        so far are a greedy sweep of the resting sizes rs, o still wants what the
        last step left, each step's match is recorded, each resting order has lost
        what its step took, and the orders listed for deletion are the ones the
        sweep emptied, which form a prefix of the level. */
    ghost predicate Swept(resting: seq<Order>, o: Order, rs: seq<int>, fills: seq<int>, lefts: seq<int>,
                          matches: seq<Match>, toDelete: seq<Order>)
      reads resting, o
    {
      && |fills| <= |resting| == |rs|
      && Greedy(rs, fills, lefts) && o.size == lefts[|fills|]
      && Recorded(matches, resting, o, fills, price)
      && (forall k :: 0 <= k < |resting| ==> resting[k].size == rs[k] - Taken(fills, k))
      && toDelete == resting[..Cut(rs, fills)]
      && (forall k :: 0 <= k < |toDelete| ==> toDelete[k].size == 0)
    }

    /** One pass of the range loop of Limit.Fill: fill the next resting order
        against o, record the match, lower the volume by the matched size, and list
        the resting order for deletion when it is left at zero. */
    method FillNext(o: Order, resting: seq<Order>, i: nat, ghost rs: seq<int>, ghost fills: seq<int>,
                    ghost lefts: seq<int>, matches: seq<Match>, toDelete: seq<Order>)
      returns (matches': seq<Match>, toDelete': seq<Order>, ghost fills': seq<int>, ghost lefts': seq<int>)
      requires Distinct(resting) && o !in resting && i == |fills| < |resting|
      requires Swept(resting, o, rs, fills, lefts, matches, toDelete) && (i > 0 ==> o.size != 0)
      modifies this`totalVolume, o`size, resting`size
      ensures Swept(resting, o, rs, fills', lefts', matches', toDelete')
      ensures |fills'| == i + 1 && fills'[..i] == fills && lefts'[..i + 1] == lefts
      ensures totalVolume == old(totalVolume) - fills'[i] && o.size == old(o.size) - fills'[i]
    {
      var order := resting[i];
      assert order.size == rs[i];
      var m := FillOrder(order, o);
      GreedySnoc(rs, fills, lefts, m.sizeFilled, o.size);
      RecordedSnoc(matches, resting, o, fills, price, m);
      CutSnoc(rs, fills, lefts, m.sizeFilled);
      matches' := matches + [m];
      totalVolume := totalVolume - m.sizeFilled;
      toDelete' := toDelete;
      assert order.IsFilled() <==> rs[i] == m.sizeFilled;
      if order.IsFilled() {
        assert resting[..i + 1] == toDelete + [order];
        toDelete' := toDelete + [order];
      }
      fills' := fills + [m.sizeFilled];
      lefts' := lefts + [o.size];
      forall k | 0 <= k < |resting| && k != i ensures resting[k].size == old(resting[k].size) {
        assert resting[k] != order;
      }
    }

    /** The range loop of Limit.Fill: each resting order in turn, oldest first, is
        filled against o; the fills are Sweep of the resting sizes, the volume drops
        by their sum, and the orders listed for deletion are the prefix of the level
        that the sweep emptied. */
    method FillEach(o: Order) returns (matches: seq<Match>, toDelete: seq<Order>, ghost fills: seq<int>)
      requires Distinct(orders) && o !in orders
      modifies this`totalVolume, o`size, orders`size
      ensures fills == Sweep(old(Sizes(orders)), old(o.size))
      ensures Recorded(matches, orders, o, fills, price)
      ensures o.size == old(o.size) - Sum(fills)
      ensures totalVolume == old(totalVolume) - Sum(fills)
      ensures forall k :: 0 <= k < |orders| ==> orders[k].size == old(orders[k].size) - Taken(fills, k)
      ensures toDelete == orders[..Cut(old(Sizes(orders)), fills)]
      ensures forall k :: 0 <= k < |toDelete| ==> toDelete[k].size == 0
    {
      var resting := orders;
      ghost var rs := Sizes(resting);
      ghost var lefts := [o.size];
      fills := [];
      matches, toDelete := [], [];
      var i, filled := 0, false;
      while i < |resting| && !filled
        invariant i == |fills|
        invariant Swept(resting, o, rs, fills, lefts, matches, toDelete)
        invariant lefts[0] == old(o.size)
        invariant filled <==> i > 0 && o.size == 0
        invariant totalVolume - o.size == old(totalVolume) - old(o.size)
      {
        matches, toDelete, fills, lefts := FillNext(o, resting, i, rs, fills, lefts, matches, toDelete);
        i, filled := i + 1, o.IsFilled();
      }
      GreedyIsSweep(rs, fills, lefts);
      GreedyTakes(rs, fills, lefts);
    }

    /** The deletion loop of Limit.Fill, on the orders the sweep emptied: on a
        valid level whose oldest orders are ds, all at size zero, deleting each in
        turn leaves the younger orders and the volume as they were. */
    method DeleteAll(ds: seq<Order>)
      requires Valid() && |ds| <= |orders| && ds == orders[..|ds|]
      requires forall k :: 0 <= k < |ds| ==> ds[k].size == 0
      modifies this`orders, this`totalVolume, ds`limit
      ensures Valid() && orders == old(orders)[|ds|..]
      ensures totalVolume == old(totalVolume)
      ensures forall k :: 0 <= k < |ds| ==> old(orders)[k].limit == null
    {
      ghost var S := orders;
      TimeOrderSorted(S);
      StrictlySortedDistinct(S, Timestamp);
      var j := 0;
      while j < |ds|
        invariant Deleting(S, ds, j, old(totalVolume))
      {
        DeleteNext(S, ds, j, old(totalVolume));
        j := j + 1;
      }
    }

    /** The state of the deletion loop of Limit.Fill after deleting ds[..j], the
        oldest orders of the level S it started from. */
    ghost predicate Deleting(S: seq<Order>, ds: seq<Order>, j: nat, volume: int)
      reads this, orders, S
    {
      && j <= |ds| <= |S| && ds == S[..|ds|] && Distinct(S)
      && Valid() && orders == S[j..] && totalVolume == volume
      && (forall k :: 0 <= k < j ==> S[k].limit == null)
      && (forall k :: j <= k < |ds| ==> S[k].size == 0)
    }

    /** One pass of the deletion loop of Limit.Fill: delete the next emptied order. */
    method DeleteNext(ghost S: seq<Order>, ds: seq<Order>, j: nat, ghost volume: int)
      requires Deleting(S, ds, j, volume) && j < |ds|
      modifies this`orders, this`totalVolume, ds`limit
      ensures Deleting(S, ds, j + 1, volume)
    {
      TimeOrderSorted(orders);
      WithoutOldest(orders);
      DeleteOrder(ds[j]);
      assert S[j..][1..] == S[j + 1..];
      forall k | 0 <= k < j ensures S[k].limit == null {
        assert S[k] != S[j];
      }
    }
  }

  /** What a fill took from resting order k: nothing when the sweep stopped before it. */
  function Taken(fills: seq<int>, k: nat): int {
    if k < |fills| then fills[k] else 0
  }

  /** How many resting orders, from the oldest, the fills emptied: all those
      passed over, and the last one visited if it was emptied too. */
  function Cut(rs: seq<int>, fills: seq<int>): (c: nat)
    requires |fills| <= |rs|
    ensures |fills| - 1 <= c <= |fills|
  {
    if fills == [] then 0
    else if rs[|fills| - 1] == fills[|fills| - 1] then |fills|
    else |fills| - 1
  }

  /** The sizes of resting orders of sizes rs after a sweep that took fills
      from them, oldest first. */
  function Remaining(rs: seq<int>, fills: seq<int>): (r: seq<int>)
    ensures |r| == |rs|
  {
    seq(|rs|, j requires 0 <= j < |rs| => rs[j] - Taken(fills, j))
  }

  /** Orders of sizes rs that each lost their fill now have the Remaining sizes. */
  lemma SizesDrained(s: seq<Order>, rs: seq<int>, fills: seq<int>)
    requires |rs| == |s|
    requires forall k :: 0 <= k < |s| ==> s[k].size == rs[k] - Taken(fills, k)
    ensures Sizes(s) == Remaining(rs, fills)
  {
  }

  /** Before a further step of a greedy sweep, every order visited was emptied. */
  lemma CutSnoc(rs: seq<int>, fills: seq<int>, lefts: seq<int>, f: int)
    requires Greedy(rs, fills, lefts) && |fills| < |rs|
    requires fills != [] ==> lefts[|fills|] != 0
    ensures Cut(rs, fills) == |fills|
    ensures Cut(rs, fills + [f]) == if rs[|fills|] == f then |fills| + 1 else |fills|
  {
  }

  /** Deleting the oldest order of a level leaves the others. */
  lemma WithoutOldest(s: seq<Order>)
    requires s != [] && StrictlySortedBy(s, Timestamp)
    ensures Without(s, s[0]) == s[1..]
  {
    assert s[0] !in s[1..];
    WithoutAbsent(s[1..], s[0]);
    assert s == [s[0]] + s[1..];
  }

  lemma StrictlySortedDistinct<T>(s: seq<T>, key: T -> int)
    requires StrictlySortedBy(s, key)
    ensures Distinct(s)
  {
  }

  /** The total size of a sequence of orders is the sum of its sizes. */
  lemma {:induction false} SumOfSizes(s: seq<Order>)
    ensures Sum(Sizes(s)) == SumSizes(s)
  {
    if s != [] {
      SumOfSizes(s[1..]);
      assert Sizes(s)[1..] == Sizes(s[1..]);
    }
  }

  /** The orders of a queue after its first c, when each order lost its fill,
      have the tail of the Remaining sizes. */
  lemma DrainedSuffix(s: seq<Order>, rs: seq<int>, fills: seq<int>, c: nat)
    requires |rs| == |s| && c <= |s|
    requires forall k :: 0 <= k < |s| ==> s[k].size == rs[k] - Taken(fills, k)
    ensures Sizes(s[c..]) == Remaining(rs, fills)[c..]
  {
  }

  /** After the first |fills| orders gave up fills, the total size has dropped by their sum. */
  lemma {:induction false} SumSizesDrained(s: seq<Order>, rs: seq<int>, fills: seq<int>)
    requires |rs| == |s| && |fills| <= |s|
    requires forall k :: 0 <= k < |s| ==> s[k].size == rs[k] - (if k < |fills| then fills[k] else 0)
    ensures SumSizes(s) == Sum(rs) - Sum(fills)
  {
    if s != [] {
      SumSizesDrained(s[1..], rs[1..], if fills == [] then [] else fills[1..]);
    }
  }

  /** Sizes are not touched by moving orders between levels. */
  twostate lemma {:induction false} SumSizesUnchanged(s: seq<Order>)
    requires forall x :: x in s ==> old(x.size) == x.size
    ensures SumSizes(s) == old(SumSizes(s))
  {
    if s != [] {
      SumSizesUnchanged(s[1..]);
    }
  }

  twostate lemma SizesUnchanged(s: seq<Order>)
    requires forall x :: x in s ==> old(x.size) == x.size
    ensures Sizes(s) == old(Sizes(s))
  {
  }

  lemma {:induction false} SumSizesAppend(s: seq<Order>, o: Order)
    ensures SumSizes(s + [o]) == SumSizes(s) + o.size
  {
    if s != [] {
      assert (s + [o])[1..] == s[1..] + [o];
      SumSizesAppend(s[1..], o);
    }
  }

  /** Removing an order that occurs once lowers the total size by its size. */
  lemma {:induction false} SumSizesWithout(s: seq<Order>, o: Order)
    requires multiset(s)[o] == 1
    ensures SumSizes(Without(s, o)) == SumSizes(s) - o.size
  {
    assert s == [s[0]] + s[1..];
    if s[0] == o {
      assert o !in s[1..];
      WithoutAbsent(s[1..], o);
    } else {
      SumSizesWithout(s[1..], o);
    }
  }

  lemma {:induction false} WithoutAbsent<T>(s: seq<T>, x: T)
    requires x !in s
    ensures Without(s, x) == s
  {
    if s != [] {
      WithoutAbsent(s[1..], x);
      assert s == [s[0]] + s[1..];
    }
  }

  /** Appending an order younger than all the others keeps a level in time order. */
  lemma AppendInTimeOrder(before: seq<Order>, o: Order)
    requires InTimeOrder(before) && forall x :: x in before ==> x.timestamp < o.timestamp
    ensures InTimeOrder(before + [o])
  {
    assert forall i :: 0 <= i < |before| ==> before[i].timestamp < o.timestamp;
  }

  /** Deleting o from a level in strict time order keeps the other orders, in
      time order, and lowers their total size by o's. */
  lemma DeleteInTimeOrder(before: seq<Order>, o: Order)
    requires InTimeOrder(before) && o in before
    ensures var after := SortBy(SwapRemoval(before, o), Timestamp);
      && after == Without(before, o) && InTimeOrder(after)
      && SumSizes(after) == SumSizes(before) - o.size
  {
    TimeOrderSorted(before);
    DeleteFromValid(before, o);
    TimeOrderSorted(Without(before, o));
    SumSizesWithout(before, o);
  }

  /** After the swap-with-last deletion and the sort, a level that was in strict
      timestamp order holds exactly the other orders, still in that order. */
  lemma DeleteFromValid(before: seq<Order>, o: Order)
    requires StrictlySortedBy(before, Timestamp) && o in before
    ensures SortBy(SwapRemoval(before, o), Timestamp) == Without(before, o)
    ensures StrictlySortedBy(Without(before, o), Timestamp)
    ensures multiset(before)[o] == 1
  {
    StrictlySortedNoDuplicates(before, Timestamp);
    SwapRemovalCounts(before, o);
    SortBySorts(SwapRemoval(before, o), Timestamp);
    WithoutStrictlySorted(before, o, Timestamp);
    SortedPermutationUnique(SortBy(SwapRemoval(before, o), Timestamp), Without(before, o), Timestamp);
  }

  lemma {:induction false} StrictlySortedNoDuplicates<T>(s: seq<T>, key: T -> int)
    requires StrictlySortedBy(s, key)
    ensures forall x :: x in s ==> multiset(s)[x] == 1
  {
    if s != [] {
      StrictlySortedNoDuplicates(s[1..], key);
      assert s == [s[0]] + s[1..];
      assert s[0] !in s[1..];
    }
  }

  /** The amounts Limit.Fill takes from resting orders of sizes rs, oldest first,
      for an incoming order of size want: each resting order gives the smaller of
      its size and what is still wanted, and the sweep stops as soon as nothing is
      wanted any more. */
  function Sweep(rs: seq<int>, want: int): (fills: seq<int>)
    ensures |fills| <= |rs|
    ensures rs != [] ==> fills != []
  {
    if rs == [] then []
    else
      var f := Min(rs[0], want);
      if want - f == 0 then [f] else [f] + Sweep(rs[1..], want - f)
  }

  /** The fills of a sweep taken one step at a time: lefts[k] is what the incoming
      order still wants before step k, each step takes the smaller of that and the
      resting size, and no step but the first starts with nothing wanted. */
  ghost predicate Greedy(rs: seq<int>, fills: seq<int>, lefts: seq<int>) {
    && |lefts| == |fills| + 1 && |fills| <= |rs|
    && (forall k :: 0 <= k < |fills| ==> fills[k] == Min(rs[k], lefts[k]) && lefts[k + 1] == lefts[k] - fills[k])
    && (forall k :: 0 < k < |fills| ==> lefts[k] != 0)
  }

  /** One more step of the sweep. */
  lemma GreedySnoc(rs: seq<int>, fills: seq<int>, lefts: seq<int>, f: int, left: int)
    requires Greedy(rs, fills, lefts) && |fills| < |rs|
    requires f == Min(rs[|fills|], lefts[|fills|]) && left == lefts[|fills|] - f
    requires |fills| > 0 ==> lefts[|fills|] != 0
    ensures Greedy(rs, fills + [f], lefts + [left])
  {
  }

  /** A step-by-step sweep that ran until the incoming order was filled or the
      resting orders ran out is Sweep. */
  lemma {:induction false} GreedyIsSweep(rs: seq<int>, fills: seq<int>, lefts: seq<int>)
    requires Greedy(rs, fills, lefts)
    requires |fills| == |rs| || (fills != [] && lefts[|fills|] == 0)
    ensures fills == Sweep(rs, lefts[0])
  {
    if fills != [] {
      var f := Min(rs[0], lefts[0]);
      if |fills| == 1 {
        if lefts[0] - f != 0 {
          assert |rs| == 1;
        }
      } else {
        assert Greedy(rs[1..], fills[1..], lefts[1..]);
        GreedyIsSweep(rs[1..], fills[1..], lefts[1..]);
        assert fills == [f] + fills[1..];
      }
    }
  }

  /** The steps of a sweep took, in all, what the incoming order lost. */
  lemma {:induction false} GreedyTakes(rs: seq<int>, fills: seq<int>, lefts: seq<int>)
    requires Greedy(rs, fills, lefts)
    ensures Sum(fills) == lefts[0] - lefts[|fills|]
  {
    if fills != [] {
      assert Greedy(rs[1..], fills[1..], lefts[1..]);
      GreedyTakes(rs[1..], fills[1..], lefts[1..]);
      assert lefts[1..][|fills[1..]|] == lefts[|fills|];
    }
  }

  /** The matches recorded so far: the k-th one pairs resting order k with o. */
  predicate Recorded(matches: seq<Match>, s: seq<Order>, o: Order, fills: seq<int>, price: int) {
    && |matches| == |fills| <= |s|
    && forall k :: 0 <= k < |fills| ==> matches[k] == Pair(s[k], o, fills[k], price)
  }

  lemma RecordedSnoc(matches: seq<Match>, s: seq<Order>, o: Order, fills: seq<int>, price: int, m: Match)
    requires Recorded(matches, s, o, fills, price) && |fills| < |s|
    requires m == Pair(s[|fills|], o, m.sizeFilled, price)
    ensures Recorded(matches + [m], s, o, fills + [m.sizeFilled], price)
  {
  }

  /** Time priority: every resting order visited before the last one is filled
      completely, and the sweep ends early only once the incoming order is filled. */
  lemma {:induction false} SweepTimePriority(rs: seq<int>, want: int)
    ensures var fills := Sweep(rs, want);
      && (forall i :: 0 <= i < |fills| - 1 ==> fills[i] == rs[i])
      && (|fills| < |rs| ==> Sum(fills) == want)
  {
    if rs != [] {
      var f := Min(rs[0], want);
      if want - f != 0 {
        SweepTimePriority(rs[1..], want - f);
        var rest := Sweep(rs[1..], want - f);
        assert Sweep(rs, want) == [f] + rest;
        assert ([f] + rest)[1..] == rest;
      }
    }
  }

  /** The orders Limit.Fill deletes, the first Cut of the level, are exactly those
      the sweep left at size zero. */
  lemma SweepCut(rs: seq<int>, want: int)
    ensures var fills := Sweep(rs, want);
      forall k :: 0 <= k < |rs| ==> (k < Cut(rs, fills) <==> k < |fills| && rs[k] - fills[k] == 0)
  {
    SweepTimePriority(rs, want);
  }

  /** Order.IsFilled, the test Limit.Fill deletes by: after a sweep, a resting
      order at its Remaining size is filled and was visited exactly when it is
      one of the first Cut, the orders Limit.Fill deletes. */
  lemma IsFilledAtCut(s: seq<Order>, rs: seq<int>, want: int)
    requires |s| == |rs| && forall k :: 0 <= k < |s| ==> s[k].size == Remaining(rs, Sweep(rs, want))[k]
    ensures var fills := Sweep(rs, want);
      forall k :: 0 <= k < |s| ==> (k < Cut(rs, fills) <==> k < |fills| && s[k].IsFilled())
  {
    SweepCut(rs, want);
  }

  /** The sweep stops at the first point where the incoming order is filled: no
      proper prefix of the fills already adds up to what was wanted. */
  lemma {:induction false} SweepStopsWhenFilled(rs: seq<int>, want: int)
    ensures forall n :: 0 < n < |Sweep(rs, want)| ==> Sum(Sweep(rs, want)[..n]) != want
  {
    if rs != [] {
      var f := Min(rs[0], want);
      if want - f != 0 {
        SweepStopsWhenFilled(rs[1..], want - f);
        var rest := Sweep(rs[1..], want - f);
        forall n | 0 < n < |[f] + rest| ensures Sum(([f] + rest)[..n]) != want {
          assert ([f] + rest)[..n] == [f] + rest[..n - 1];
          assert ([f] + rest[..n - 1])[1..] == rest[..n - 1];
          assert Sum([f] + rest[..n - 1]) == f + Sum(rest[..n - 1]);
          if n > 1 {
            assert 0 < n - 1 < |rest|;
            assert Sum(rest[..n - 1]) != want - f;
          }
        }
      }
    }
  }

  /** With sizes of at least zero, no resting order gives more than it has or less
      than nothing, and the incoming order never receives more than it wanted. */
  lemma {:induction false} SweepBounds(rs: seq<int>, want: int)
    requires want >= 0 && forall i :: 0 <= i < |rs| ==> rs[i] >= 0
    ensures var fills := Sweep(rs, want);
      && (forall i :: 0 <= i < |fills| ==> 0 <= fills[i] <= rs[i])
      && Sum(fills) <= want
  {
    if rs != [] {
      var f := Min(rs[0], want);
      if want - f != 0 {
        SweepBounds(rs[1..], want - f);
        var rest := Sweep(rs[1..], want - f);
        assert ([f] + rest)[1..] == rest;
      }
    }
  }

  /** A sweep never takes more from a resting order than it holds, whatever
      the signs. */
  lemma {:induction false} SweepWithin(rs: seq<int>, want: int)
    ensures var fills := Sweep(rs, want);
      forall i :: 0 <= i < |fills| ==> fills[i] <= rs[i]
  {
    if rs != [] {
      var f := Min(rs[0], want);
      if want - f != 0 {
        SweepWithin(rs[1..], want - f);
        var rest := Sweep(rs[1..], want - f);
        assert ([f] + rest)[1..] == rest;
      }
    }
  }

  /** Resting sizes of at least zero stay at least zero when no fill takes
      more than its order holds. */
  lemma RemainingNonNegative(rs: seq<int>, fills: seq<int>)
    requires |fills| <= |rs| && forall i :: 0 <= i < |rs| ==> rs[i] >= 0
    requires forall i :: 0 <= i < |fills| ==> fills[i] <= rs[i]
    ensures forall i :: 0 <= i < |rs| ==> Remaining(rs, fills)[i] >= 0
  {
  }

  /** With sizes of at least zero, a sweep fills the incoming order completely or
      takes everything the resting orders hold; in particular a level holding at
      least the wanted size fills it exactly. */
  lemma {:induction false} SweepFillsOrDrains(rs: seq<int>, want: int)
    requires want >= 0 && forall i :: 0 <= i < |rs| ==> rs[i] >= 0
    ensures var fills := Sweep(rs, want);
      Sum(fills) == want || (fills == rs && Sum(fills) == Sum(rs))
    ensures Sum(rs) >= want ==> Sum(Sweep(rs, want)) == want
  {
    if rs != [] {
      var f := Min(rs[0], want);
      if want - f != 0 {
        SweepFillsOrDrains(rs[1..], want - f);
        assert rs == [rs[0]] + rs[1..];
      }
    }
  }
}
