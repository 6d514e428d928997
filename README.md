# Limit-order book of the crypto exchange, in Dafny

This project models the in-memory limit-order book of the exchange. The book exists in two versions, and each one has its own module.

- **`Book`** models the `orderbook` package (`orderbook/orderbook.go`).
  - An `OrderBook` holds an asks side and a bids side. Each side is a slice of price levels (`Limit`) plus a map from price to level.
  - It also keeps a map from order id to order.
  - `PlaceLimitOrder` rests an order in the level at its price. It creates that level first when the side has none.
  - `PlaceMarketOrder` first checks the market order against the total volume of the opposite side. It then sweeps that side best price first:
    - each level is filled with `Limit.Fill`, which matches the resting orders oldest first and deletes the ones it empties;
    - `clearLimit` takes every level left empty off the slice and out of the map.
  - `CancelOrder` deletes one order from its level and from the id map.
- **`LegacyBook`** models the older copy in the repository root (`orderbook.go`). It differs from the package version as follows:
  - its `Limit.Fill` leaves filled orders in the level at size zero;
  - a market sell does nothing;
  - a market buy never takes a level off the book;
  - `PlaceLimitOrder` drops the order when a level at its price already exists;
  - there is no id map and no `CancelOrder`.

Both versions share the same orders and price levels:

- **`Level`** holds `Order`, `Limit`, `Limit.AddOrder`, `Limit.DeleteOrder` and `Limit.fillOrder` (here `FillOrder`). It also holds the package's `Limit.Fill`, as its range loop (`FillEach`) followed by its deletion loop (`DeleteAll`).
  - The pure function `Sweep(rs, want)` says what one level's fill takes from resting orders of sizes `rs`, oldest first.
- **`Sides`** covers one side of a book:
  - the price map agreement and validity (`Indexed`, `SideValid`);
  - the total volume loop;
  - `SideSweep`, which applies `Sweep` level after level;
  - the matches of a sweep;
  - `Clear`, which is `clearLimit` applied to each drained level in turn.
- **`Sweeps`** holds the loop invariants that carry a market order across the levels of a side.
- **`Slices`** holds generic slice operations:
  - an insertion sort keyed by an integer, which stands in for `sort.Sort`;
  - the swap-with-last deletion loop, which `DeleteOrder` and `clearLimit` share.

Orders and levels are classes whose fields the operations update in place. The books are classes too:

- the side slices and maps are `seq` and `map` fields that the methods reassign;
- the loops are `while` loops with invariants;
- each method is proved against the pure functions `Sweep`, `SideSweep`, `Pairs`/`SideMatches`, `Clear`, `SortBy` and `SwapRemoval`, and the lemmas about those functions prove what the source promises.

The ghost predicate `Valid()` of a book states the invariants:

- the levels are distinct and agree with the price map;
- the two sides share no level;
- every level holds its orders in strictly increasing timestamp order;
- every order points back to its level;
- `TotalVolume` is the sum of the sizes;
- in the package version, every order in the id map is filed under its own id.

Every operation keeps `Valid()`. Wherever the outcome depends on sizes not being negative, that is an explicit hypothesis (`NonNegative`), because the source validates no size.

Notes on the model:

- **Panics.** The source panics when a market order exceeds the opposite side's volume, and when `CancelOrder` is given an order that rests on no level. Here both return `ok == false` and leave the book unchanged.
- **Zero-size matches.** `PlaceMarketOrder` keeps looping after the market order is filled. Every later level with resting orders then yields one match of size zero. `Sweep(rs, 0) == [0]` for a non-empty level whose first size is at least zero, and the model keeps that behaviour as written. With a negative first size the sweep takes it and goes on, as `fillOrder` does.
- **The sweep loop.** In the package version, the sweep ranges over `ob.Asks()` while `clearLimit` swap-removes levels from the same backing array.
  - Each `clearLimit` writes only at slice positions the range has already visited.
  - So ranging over the sorted slice as it was before the loop (`L`) is exact.
  - The side after the loop is `Clear(L, L, RS, F)`: `SwapRemoval` of each drained level, in turn.
- **Legacy `DeleteOrder`.** The legacy version ranges over the orders, where the package version indexes them. The two coincide whenever the order occurs at most once, and `Valid()` guarantees that, so `DeleteOrder` is modelled once.

## Model

| member | source | states |
|---|---|---|
| Level.Order.constructor | orderbook/orderbook.go:32-39 | NewOrder: an order of the given side and size that rests nowhere; the id and timestamp are parameters |
| Level.TimeOrderSorted | orderbook/orderbook.go:28-30 | Orders.Less: a queue is in time order exactly when it is strictly sorted by timestamp |
| Level.Limit.constructor | orderbook/orderbook.go:73-78 | NewLimit: an empty level at the price, with zero volume |
| Level.Limit.AddOrder | orderbook/orderbook.go:84-89 | o is appended, o.Limit becomes this level, TotalVolume rises by o.Size; a valid level stays valid when o is younger than every order in it |
| Level.Limit.DeleteOrder | orderbook/orderbook.go:91-104 | the new orders are the swap-with-last removal of o re-sorted by timestamp; o.Limit is cleared; TotalVolume falls by o.Size even when o is absent; on a valid level holding o, exactly o is removed and the level stays valid |
| Level.DeleteInTimeOrder | orderbook/orderbook.go:91-104 | on a level in time order, deletion leaves exactly the other orders, still in time order, with a total size lowered by o's |
| Level.DeleteFromValid | orderbook/orderbook.go:91-104 | swap-with-last removal followed by the sort equals removing o and keeping the rest in order; o occurred once |
| Level.Limit.FillOrder | orderbook/orderbook.go:135-167 | the filled size is the smaller of the two sizes, both sizes drop by it and one of them ends at zero; each order ends IsFilled exactly when its size was at most the other's; no size goes negative; the match is priced at the level, and its bid and ask are chosen by a.Bid |
| Level.Limit.Fill | orderbook/orderbook.go:106-133 | the fills are Sweep of the resting sizes; the matches pair each visited order with o; o and TotalVolume both lose the filled sum; the emptied orders (the first Cut) are deleted and unlinked; the rest stay in order, each at its size less its fill (the tail of the Remaining sizes), and the level stays valid |
| Level.Limit.FillEach | orderbook/orderbook.go:112-126 | the range loop of Fill: one fillOrder per resting order, oldest first, until o is filled; the fills are Sweep, every visited order lost its fill, and the orders to delete are the first Cut |
| Level.Limit.FillNext | orderbook/orderbook.go:112-126 | one turn of that loop keeps its invariant (a greedy step, one more match, one more order listed when emptied) |
| Level.Limit.DeleteAll | orderbook/orderbook.go:128-130 | deleting the emptied oldest orders in turn leaves the younger orders and the same volume, with the deleted orders unlinked |
| Level.Limit.DeleteNext | orderbook/orderbook.go:128-130 | one turn of the deletion loop removes the oldest remaining emptied order |
| Level.Cut | orderbook/orderbook.go:119-121 | the number of orders a fill emptied is the number visited, or one less |
| Level.GreedyIsSweep | orderbook/orderbook.go:112-126 | a step-by-step fill that ran until o was filled, or until the orders ran out, is Sweep |
| Level.GreedyTakes | orderbook/orderbook.go:113-116 | the steps took, in all, what o lost |
| Level.SweepTimePriority | orderbook/orderbook.go:112-126 | time priority: every order visited before the last one is filled completely, and the fill ends early only once o is filled |
| Level.SweepCut | orderbook/orderbook.go:119-121 | the orders listed for deletion are exactly those the fill left at size zero |
| Level.IsFilledAtCut | orderbook/orderbook.go:44-46 | Order.IsFilled, the test the fill deletes by: after a fill, a resting order was visited and is filled exactly when it is one of the first Cut |
| Level.SweepWithin | orderbook/orderbook.go:135-167 | whatever the signs, a fill never takes more from a resting order than it holds |
| Level.RemainingNonNegative | orderbook/orderbook.go:112-126 | resting sizes of at least zero stay at least zero when no fill takes more than its order holds |
| Level.SweepStopsWhenFilled | orderbook/orderbook.go:123-125 | no shorter prefix of the fills already adds up to what o wanted: the loop stops at the first fill that fills o |
| Level.SweepBounds | orderbook/orderbook.go:112-126 | with sizes at least zero, no order gives more than it has or less than nothing, and o never gets more than it wanted |
| Level.SweepFillsOrDrains | orderbook/orderbook.go:106-133 | with sizes at least zero, a fill either fills o or takes everything the level holds; a level holding enough fills o exactly |
| Level.SumSizesDrained | orderbook/orderbook.go:116 | after the fills, the sum of the sizes fell by the filled sum, so TotalVolume == sum of sizes holds again |
| Slices.SortBySorts | orderbook/orderbook.go:299-307 | the sort yields a sorted permutation of its input |
| Sides.AsksCheapestFirst | orderbook/orderbook.go:63 | sorting by AskKey (ByBestAsk.Less) lists the same levels in ascending price |
| Sides.BidsDearestFirst | orderbook/orderbook.go:71 | sorting by BidKey (ByBestBid.Less) lists the same levels in descending price |
| Book.BestFirstSorts | orderbook/orderbook.go:298-307 | sorting a side by BestFirst lists the same levels, dearest first for bids and cheapest first for asks |
| Slices.SortByMembers | orderbook/orderbook.go:299-307 | sorting keeps exactly the same members |
| Slices.SortIdempotent | orderbook/orderbook.go:299-307 | sorting a sorted side changes nothing: Asks() and Bids() are idempotent |
| Slices.SortedIsFixpoint | orderbook/orderbook.go:299-307 | an already sorted slice is left as it is |
| Slices.SortedPermutationUnique | orderbook/orderbook.go:28-30 | with strictly increasing keys there is one sorted order, so the insertion sort agrees with sort.Sort whenever the keys are distinct |
| Slices.SwapRemove | orderbook/orderbook.go:92-98 | the swap-with-last deletion loop computes SwapRemoval |
| Slices.SwapRemovalCounts | orderbook/orderbook.go:92-98 | swap-with-last deletion removes an occurrence of x, keeps every other element, and is the identity when x is absent |
| Slices.SwapRemovalDistinct | orderbook/orderbook.go:253-266 | on a slice without duplicates it removes exactly x and keeps the rest distinct |
| Slices.WithoutStrictlySorted | orderbook/orderbook.go:91-104 | removing an element from a strictly sorted slice keeps it strictly sorted |
| Sides.IndexedPermutation | orderbook/orderbook.go:299-307 | sorting a side keeps it in agreement with its price map |
| Sides.SideValidPermutation | orderbook/orderbook.go:299-307 | sorting a side keeps it valid, with the same levels and the same resting orders |
| Sides.IndexedAppend | orderbook/orderbook.go:231-240 | appending a level at a new price and entering it in the map keeps the side and map in agreement |
| Sides.SideValidAppend | orderbook/orderbook.go:231-240 | appending a new empty level keeps the side valid, with the same resting orders |
| Sides.ClearIndexed | orderbook/orderbook.go:249-268 | clearLimit keeps the side and map in agreement, removing exactly the level and its price |
| Sides.TotalVolume | orderbook/orderbook.go:289-297 | the total-volume loop returns the sum of the levels' TotalVolume |
| Sides.SideVolumePermutation | orderbook/orderbook.go:299-307 | sorting a side does not change its total volume |
| Sides.SideVolumeIsDepth | orderbook/orderbook.go:277-297 | on valid levels, the total volume is the sum of all resting sizes |
| Sides.LevelsKept | orderbook/orderbook.go:299-307 | levels whose orders, sizes and volumes are unchanged give the same snapshots |
| Sides.RecordedPairs | orderbook/orderbook.go:112-114 | the matches recorded by a fill are Pairs of the visited orders with o |
| Sides.PairsFilled | orderbook/orderbook.go:112-116 | the sizes in a level's matches add up to its fills |
| Sides.SideMatchesFilled | orderbook/orderbook.go:196-198 | the sizes in the matches of all levels add up to all the fills |
| Sides.SweepTotal | orderbook/orderbook.go:106-133 | with sizes at least zero, one level's fill takes min(want, level size) |
| Sides.SideSweepTotal | orderbook/orderbook.go:196-216 | with sizes at least zero, a sweep of a side takes min(want, side size) |
| Sides.MarketOrderFilled | orderbook/orderbook.go:192-216 | a market order no larger than the side's resting size is filled exactly |
| Sides.SideFillable | orderbook/orderbook.go:192-216 | on a valid side, a market order within its total volume is filled exactly by the sweep of the sorted levels |
| Sides.SideSweepWithin | orderbook/orderbook.go:196-216 | a sweep of a side takes from no resting order more than it holds |
| Sides.NonNegativeFromDepths | orderbook/orderbook.go:196-216 | levels whose per-order sizes are all at least zero are NonNegative |
| Sides.SideSweepPriority | orderbook/orderbook.go:196-216 | price priority: once a level is not taken completely, no later level gives anything |
| Sides.AfterFilled | orderbook/orderbook.go:196-216 | a level after one that was not taken completely gives a total of zero |
| Sides.SideSweepUntilFilled | orderbook/orderbook.go:196-216 | a level that is not taken completely means the market order was filled |
| Sweeps.FillsAreSideSweep | orderbook/orderbook.go:196-216 | the fills of the levels swept so far are SideSweep of their sizes, and what o still wants is its size less their sum |
| Sweeps.FillsCoverSide | orderbook/orderbook.go:196-216 | after every level, the fills are SideSweep of the whole side |
| Sweeps.SweptMatched | orderbook/orderbook.go:196-216 | the matches of a market order add up to what the order lost |
| Sweeps.SweptLevelsNonNegative | orderbook/orderbook.go:196-216 | so every level still listed on the swept side is NonNegative |
| Sweeps.SweptNonNegative | orderbook/orderbook.go:196-216 | after a sweep of levels whose sizes were at least zero, every order still resting has a size of at least zero, whatever the size of the market order |
| Sweeps.DepthsStep | orderbook/orderbook.go:197 | one more level swept: its remaining orders have the tail of its Remaining sizes, and the levels not reached keep their sizes |
| Sweeps.SideStep | orderbook/orderbook.go:200-202 | one more level keeps the side equal to Clear of the levels swept and keeps the map in agreement |
| Sweeps.ValuesStep | orderbook/orderbook.go:197-198 | one more level extends the fills, the matches, the remaining queues, their sizes and the volumes |
| Sweeps.SweepEnds | orderbook/orderbook.go:196-216 | after the last level, the loop invariant gives the final state with SideSweep's fills |
| Sweeps.FillLevel | orderbook/orderbook.go:197 | Limit.Fill of one level, seen on the side: that level holds the orders after its cut, each at its size less its fill; every order it had lost its fill, and those before the cut rest on no level; the level lost its fills from its volume; no other level or order changes |
| Sweeps.DeletedStep | orderbook/orderbook.go:119-130 | one more level's fill adds the first Cut of its orders to the orders the sweep deleted |
| Sweeps.EmptiedGrow | orderbook/orderbook.go:119-130 | those orders rest on no level at size zero, so they join the deleted orders with that property |
| Sweeps.DeletedApart | orderbook/orderbook.go:99 | an order already deleted rests on no level, so it is on no valid level and is not the market order |
| Sweeps.DeletedKept | orderbook/orderbook.go:197 | a fill of another level leaves the orders already deleted unlinked at size zero |
| Sweeps.OthersKept | orderbook/orderbook.go:197 | filling one level leaves every other level valid and as it was |
| Book.OrderBook.constructor | orderbook/orderbook.go:178-186 | NewOrderBook: both sides and all three maps are empty, and the book is valid |
| Book.OrderBook.AskTotalVolume | orderbook/orderbook.go:289-297 | the sum of the ask levels' TotalVolume |
| Book.OrderBook.BidTotalVolume | orderbook/orderbook.go:277-286 | the sum of the bid levels' TotalVolume |
| Book.OrderBook.Asks | orderbook/orderbook.go:299-302 | the asks are sorted in place, cheapest first (ByBestAsk), returned, and the book stays valid |
| Book.OrderBook.Bids | orderbook/orderbook.go:304-307 | the bids are sorted in place, dearest first (ByBestBid), returned, and the book stays valid |
| Book.OrderBook.PlaceLimitOrder | orderbook/orderbook.go:223-246 | an existing level at the price is reused; otherwise a new one is appended to the side and entered in the map; o is appended to it and adds its size to it; o is filed under its id; the other side and every other level are untouched; the book stays valid |
| Book.OrderBook.LevelAt | orderbook/orderbook.go:224-242 | the level at the price is the mapped one, or a fresh empty one appended to the side and the map; the book stays valid with the same resting orders |
| Book.OrderBook.FileOrder | orderbook/orderbook.go:244-245 | o is filed under its id and added to the level, and the book stays valid |
| Book.OrderBook.PlaceMarketOrder | orderbook/orderbook.go:189-220 | ok exactly when o fits within the opposite side's volume; when it does not, o, the book, the opposite side's levels and their resting orders are unchanged; otherwise: the opposite side is sorted best price first and swept level by level with SideSweep's fills; each level keeps the orders after its cut, each at its size less its fill, and loses its fills from its volume; the matches are recorded level after level; drained levels are cleared from the side and the map; the orders each level's fills emptied rest on no level at size zero but stay in the id map (Emptied); the own side and the id map are untouched; the book stays valid; with sizes at least zero, o ends at size zero; resting sizes at least zero stay at least zero |
| Book.OrderBook.MarketSweep | orderbook/orderbook.go:196-216 | the sweep once the volume check has passed: the same fills, matches, queues, sizes, volumes, clears and emptied orders; o loses every fill; when the sorted levels' sizes were at least zero, the levels left on the side still have sizes at least zero |
| Book.OrderBook.SweepLevels | orderbook/orderbook.go:196-216 | the range loop over the sorted side: fills, matches, queues, their sizes, volumes, clears and emptied orders as above; the book stays valid |
| Book.OrderBook.SweepEach | orderbook/orderbook.go:196-216 | the loop itself, touching only the book, o and the swept levels with their orders; its invariant tracks the queues, sizes and volumes of swept and unswept levels, and that every order emptied so far is unlinked at size zero |
| Book.OrderBook.SweepNext | orderbook/orderbook.go:197-202 | one turn: Limit.Fill of the level, then clearLimit when the level is left empty; the orders it emptied join the unlinked, zero-size ones |
| Book.OrderBook.FillStep | orderbook/orderbook.go:197-198 | the Limit.Fill half of a turn: the invariant extends by one level (fills, matches, the level's orders after its cut at their new sizes, its volume), and the level is left empty exactly when its fills drained it; the orders emptied before and now all rest on no level at size zero |
| Book.OrderBook.ClearIfEmpty | orderbook/orderbook.go:200-202 | clearLimit runs exactly when the fill drained the level |
| Book.OrderBook.ClearLevel | orderbook/orderbook.go:249-268 | clearLimit keeps the sweep invariant on the side and the map |
| Book.OrderBook.ClearLimit | orderbook/orderbook.go:249-268 | the level is swap-removed from the side and its price is dropped from the map; nothing else changes |
| Book.OrderBook.SortSide | orderbook/orderbook.go:299-307 | Asks or Bids for the chosen side: only that side's order changes |
| Book.OrderBook.SortLevels | orderbook/orderbook.go:299-307 | the sorted side holds the same levels with the same orders, sizes and volumes |
| Book.OrderBook.Untouched | orderbook/orderbook.go:277-297 | reading the totals leaves the book and its snapshots as they were |
| Book.OrderBook.BestNonNegative | orderbook/orderbook.go:299-307 | sorting a side whose orders are at least zero gives depths at least zero |
| Book.OrderBook.Fillable | orderbook/orderbook.go:193-195 | past the volume check, the sweep of the sorted opposite side fills o exactly |
| Book.OrderBook.SidesApart | orderbook/orderbook.go:169-176 | the two sides of a valid book share no level and no resting order |
| Book.OrderBook.CancelOrder | orderbook/orderbook.go:270-274 | o is deleted from its level (see DeleteOrder) and its id is dropped from the map; the level stays on its side even when empty; an order on no level fails, with the id map unchanged and o still on no level; the book stays valid |
| Book.OrderBook.RestsOnItsLevel | orderbook/orderbook.go:271 | an order resting in a valid book rests in the listed level it points to |
| Book.OrderBook.CancelledValid | orderbook/orderbook.go:270-274 | cancelling keeps the book valid |
| LegacyBook.Fill | orderbook.go:103-118 | the same oldest-first loop with Sweep's fills and recorded matches; o and TotalVolume lose the filled sum; the level keeps every order in place, at its Remaining size, and stays valid |
| LegacyBook.FilledStay | orderbook.go:103-118 | the orders the fill empties (the first Cut) stay in the level at size zero, and the orders it did not reach keep their size |
| LegacyBook.FillLevel | orderbook.go:179-180 | the legacy Fill of one level, seen on the side: no level loses an order; only that level's sizes and volume change |
| LegacyBook.DrawingStep | orderbook.go:178-181 | one more level extends the fills, the matches, the remaining sizes and the volumes |
| LegacyBook.DrawEnds | orderbook.go:178-181 | after the last level, the fills are SideSweep of the side |
| LegacyBook.DrawnMatched | orderbook.go:178-181 | the matches of a legacy market buy add up to what the order lost |
| LegacyBook.DrawStep | orderbook.go:179-180 | one turn of the loop keeps its invariant, and no other level or order changes |
| LegacyBook.DrawLevels | orderbook.go:178-181 | the loop over every ask level: the fills are SideSweep, every level keeps its orders at their Remaining sizes and loses its fills from its volume |
| LegacyBook.OrderBook.constructor | orderbook.go:162-169 | NewOrderBook: both sides and both maps are empty, and the book is valid |
| LegacyBook.OrderBook.AskTotalVolume | orderbook.go:222-230 | the sum of the ask levels' TotalVolume |
| LegacyBook.OrderBook.BidTotalVolume | orderbook.go:212-220 | the sum of the bid levels' TotalVolume |
| LegacyBook.OrderBook.Asks | orderbook.go:232-235 | the asks are sorted in place, cheapest first, and the book stays valid |
| LegacyBook.OrderBook.Bids | orderbook.go:237-240 | the bids are sorted in place, dearest first, and the book stays valid |
| LegacyBook.OrderBook.PlaceLimitOrder | orderbook.go:189-210 | with a level already at the price, nothing changes and the order is dropped; otherwise a new level holding only o is appended to the side and entered in the map; the other side is untouched; the book stays valid |
| LegacyBook.OrderBook.Founded | orderbook.go:198-208 | a new level holding only o, at a new price, keeps the book valid |
| LegacyBook.OrderBook.PlaceMarketOrder | orderbook.go:171-187 | a sell returns no matches and changes nothing; a buy larger than the ask volume fails with no change; otherwise the asks are sorted and swept with SideSweep's fills; every level stays on the book with its orders, which lost their fills; the bids are untouched; the book stays valid; with sizes at least zero, o ends at size zero |
| LegacyBook.OrderBook.MarketBuy | orderbook.go:174-181 | the market buy past the volume check, with the same outcome |
| LegacyBook.OrderBook.DrawAsks | orderbook.go:178-181 | the loop over the sorted asks, with the book valid again after it and the maps and bids untouched |
| LegacyBook.OrderBook.SortAsks | orderbook.go:232-235 | the sorted asks hold the same levels with the same orders, sizes and volumes |
| LegacyBook.OrderBook.Untouched | orderbook.go:222-230 | reading the ask total leaves the book and its snapshots as they were |
| LegacyBook.OrderBook.DrawnValid | orderbook.go:178-181 | a sweep that kept every ask level valid and touched nothing else keeps the book valid |
| LegacyBook.SideValidGrow | orderbook.go:198-208 | appending a valid new level at a new price keeps the side valid |

## Left out

- Sizes and prices are unbounded integers, not `float64`. Rounding, NaN and comparing floats for equality in `IsFilled` are not modelled.
- `NewOrder` draws the id from `rand.Intn` and the timestamp from `time.Now`. Here both are constructor parameters.
  - Time order inside a level is a hypothesis of the validity results (the new order is younger than every resting one), not a guarantee.
- `panic` becomes an `ok` result that leaves the book unchanged. Process termination is not modelled.
- The `String()` methods and the `fmt.Println` in `BidTotalVolume` (output only) are not modelled.
- `sort.Sort` is replaced by an insertion sort, proved to give a sorted permutation.
  - It agrees with `sort.Sort` whenever the keys are distinct, which prices in one side and timestamps in one level are under `Valid()`.
  - With equal keys, `sort.Sort` is not stable and its order is not modelled.
- `main.go` is not part of this model. It holds the HTTP handlers, the exchange map and the JSON snapshots.
- LegacyBook.Fill: reuses the package's range loop, `Level.Limit.FillEach`, and discards the list of orders to delete. The legacy loop has no such list, so only the dropped deletion step differs.
- LegacyBook.OrderBook.PlaceMarketOrder: the volume check on the sell side is absent in the source too, so a sell never fails.
- Book.OrderBook.PlaceMarketOrder, LegacyBook.OrderBook.PlaceMarketOrder: the incoming order must rest on no level. That is how every caller places a market order, and it is needed to keep its own level's volume apart from the sweep.
- Book.OrderBook.PlaceLimitOrder, LegacyBook.OrderBook.PlaceLimitOrder: the book is shown to stay valid only for an order that rests nowhere yet and, in the package version, is younger than every order on its side. Placing the same order twice is not covered.
- Level.Limit.AddOrder, Book.OrderBook.CancelOrder: validity is kept only under the same conditions. `CancelOrder` also needs the order to rest in the book.
