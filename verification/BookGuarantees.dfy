/** What every valid order book object guarantees, read off its fields: the slot pools, the cached
    best prices, the price maps and the cancel index. Every operation of OrderBooks keeps `Valid`. */
module BookGuarantees {
  import opened Types
  import opened BookSpec
  import opened BookInvariants
  import opened BookSafety
  import opened LinkedLists
  import opened BookMemory
  import opened BookImage
  import opened BookSteps
  import opened SlotPartition
  import opened OrderBooks

  /** Every order slot and every level slot is exactly once in a list or on its free stack. */
  lemma SlotsAccounted(b: OrderBook)
    requires b.Valid()
    ensures b.orderFreeTop as int <= b.orderFree.Length && b.levelFreeTop as int <= b.levelFree.Length
    ensures var g := b.Snapshot();
            var os, ls := OrderSlots(g, b.book.sides, b.at), LevelSlots(g, b.book.sides);
            && Distinct(os) && (forall s: u32 :: s in os <==> s as int < 131072)
            && Distinct(ls) && (forall s: u32 :: s in ls <==> s as int < 16384)
  {
    hide Good, WellFormed, OrderSlots, LevelSlots;
    OrderSlotsPartition(b.hash, b.Snapshot(), b.book, b.at, b.book.arrivals);
    LevelSlotsPartition(b.hash, b.Snapshot(), b.book, b.at, b.book.arrivals);
  }

  /** The level pool never runs dry: the two sides have distinct prices between 1 and 9999, so more than 6000 of
      the 16384 slots stay free. */
  lemma LevelSlotsLeft(b: OrderBook)
    requires b.Valid()
    ensures |b.book.sides.bids| + |b.book.sides.asks| < 10000
    ensures b.levelFreeTop as int == 16384 - |b.book.sides.bids| - |b.book.sides.asks| > 6384
  {
    hide Layout, Sums, Naming, Counters, RefsOk, Filled;
    WellFormedSide(b.hash, b.book, Buy);
    WellFormedSide(b.hash, b.book, Sell);
    LevelsBounded(b.book.sides);
    PoolSize(b.Snapshot(), b.book.sides, b.at, b.book.arrivals);
  }

  lemma PoolSize(g: Image, s: Sides, at: Slots, n: nat)
    requires Pools(g, s, at, n, 0)
    ensures g.levelTop as int == MAX_LEVELS - |s.bids| - |s.asks|
  {
  }

  /** The cached best prices are those of the book's first levels, and the bid is below the ask. */
  lemma BestPrices(b: OrderBook)
    requires b.Valid()
    ensures b.bestBid as int == if b.book.sides.bids == [] then 0 else b.book.sides.bids[0].price
    ensures b.bestAsk as int == if b.book.sides.asks == [] then 10001 else b.book.sides.asks[0].price
    ensures b.bestBid < b.bestAsk
  {
    hide Layout, Sums, Pools, Naming, Counters, RefsOk;
    WellFormedSide(b.hash, b.book, Buy);
    WellFormedSide(b.hash, b.book, Sell);
  }

  /** A price map names a level slot exactly at the prices of its side's levels, and that slot holds the level:
      its price, its number of orders, its first and last order. */
  lemma PriceMapExact(b: OrderBook, sd: Side, p: nat)
    requires b.Valid() && p < MAP_SIZE
    ensures var levels, l := b.book.sides.Get(sd), MapAt(b.Memory().Map(sd), p);
            && (l != INVALID <==> HasPrice(levels, p))
            && forall i :: 0 <= i < |levels| && levels[i].price as int == p ==>
                 l as int < MAX_LEVELS && Header(b.levels[l], levels[i], b.at) && levels[i].orders != []
  {
    hide Sums, Pools, Naming, Counters, RefsOk;
    var s, levels := b.book.sides, b.book.sides.Get(sd);
    LayoutSplit(b.Memory(), s, b.at, sd);
    WellFormedSide(b.hash, b.book, sd);
    forall i | 0 <= i < |levels| && levels[i].price as int == p
      ensures var l := MapAt(b.Memory().Map(sd), p);
              l as int < MAX_LEVELS && Header(b.levels[l], levels[i], b.at)
    {
      LocateLevel(b.Memory(), s, b.at, sd, i);
    }
  }

  /** The 64-bit total of a level is the true sum of its orders when they are below 2^47 each. */
  lemma LevelTotals(b: OrderBook, sd: Side, i: nat)
    requires b.Valid() && i < |b.book.sides.Get(sd)| && SmallOrders(b.book.sides.Get(sd))
    ensures var lv := b.book.sides.Get(sd)[i];
            var l := MapAt(b.Memory().Map(sd), lv.price);
            l as int < b.levels.Length && b.levels[l].totalQty as int == Total(lv.orders)
  {
    hide Good, WellFormed, SmallOrders, Total;
    TotalsExact(b.hash, b.Snapshot(), b.book, b.at, b.book.arrivals, sd, i);
  }

  /** A bucket of the cancel index that is not cleared names a live slot, whose id belongs in the bucket, and that
      slot's level and side; also when ids collide. */
  lemma IndexNeverDangles(b: OrderBook, k: nat)
    requires b.Valid() && k < MAX_ORDERS && b.index[k].slot != INVALID
    ensures exists i: nat, j: nat {:trigger LiveAt(b, k, i, j)} :: LiveAt(b, k, i, j)
  {
    hide Good, WellFormed;
    GoodBucket(b.hash, b.Snapshot(), b.book, b.at, b.book.arrivals, k);
    IndexNames(b, k);
  }

  /** Order j of level i rests in the slot, the level slot and the side that bucket k names. */
  ghost predicate LiveAt(b: OrderBook, k: nat, i: nat, j: nat)
    reads b, b.index, b.bidMap, b.askMap
  {
    && k < b.index.Length
    && var e := b.index[k];
    && var levels := b.book.sides.Get(e.side);
    && i < |levels| && j < |levels[i].orders|
    && levels[i].orders[j].ticket in b.at && b.at[levels[i].orders[j].ticket] == e.slot
    && Bucket(b.hash, levels[i].orders[j].id) == k
    && e.levelSlot == MapAt((if e.side.Buy? then b.bidMap else b.askMap)[..], levels[i].price)
  }

  lemma IndexNames(b: OrderBook, k: nat)
    requires b.Valid() && k < MAX_ORDERS && k in b.book.index
    requires var e := b.index[k];
             var r := b.book.index[k];
             && e.side == r.side && r.ticket in b.at && e.slot == b.at[r.ticket]
             && e.levelSlot == MapAt((if r.side.Buy? then b.bidMap else b.askMap)[..], r.price)
    ensures exists i: nat, j: nat {:trigger LiveAt(b, k, i, j)} :: LiveAt(b, k, i, j)
  {
    hide Good;
    var i, j := ResidentPosition(b.hash, b.book.sides, k, b.book.index[k]);
    assert LiveAt(b, k, i, j);
  }
}
