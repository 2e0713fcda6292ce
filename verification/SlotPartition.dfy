/** In every state of the engine's book each slot is either on its free stack or in use, never
    both and never twice: nothing leaks and nothing is handed out while it is live. Also, when
    the level totals are exact and not only exact modulo 2^64. */
module SlotPartition {
  import opened Types
  import opened BookSpec
  import opened LinkedLists
  import opened BookMemory
  import opened BookImage

  // ----- pigeonhole

  function Numbers(n: nat): (s: set<int>)
    ensures |s| == n && forall k :: k in s <==> 0 <= k < n
  {
    if n == 0 then {} else Numbers(n - 1) + {n - 1}
  }

  function Elements(xs: seq<u32>): (s: set<int>)
    ensures forall k :: k in s <==> k in xs
  {
    set x | x in xs :: x as int
  }

  lemma {:induction false} DistinctCount(xs: seq<u32>)
    requires Distinct(xs)
    ensures |Elements(xs)| == |xs|
  {
    if xs != [] {
      var last, rest := xs[|xs| - 1], xs[..|xs| - 1];
      DistinctCount(rest);
      assert last as int !in Elements(rest);
      assert Elements(xs) == Elements(rest) + {last as int};
    }
  }

  lemma SubsetSameSize(a: set<int>, b: set<int>)
    requires a <= b && |a| == |b|
    ensures a == b
  {
    if exists x :: x in b && x !in a {
      var x :| x in b && x !in a;
      assert a <= b - {x};
      SubsetSize(a, b - {x});
    }
  }

  lemma SubsetSize<T>(a: set<T>, b: set<T>)
    requires a <= b
    ensures |a| <= |b|
  {
    if a != {} {
      var x :| x in a;
      SubsetSize(a - {x}, b - {x});
    }
  }

  /** N distinct numbers below N are all the numbers below N. */
  lemma AllPresent(xs: seq<u32>, n: nat)
    requires Distinct(xs) && |xs| == n && forall k :: 0 <= k < n ==> xs[k] as int < n
    ensures forall s: u32 :: s as int < n ==> s in xs
  {
    DistinctCount(xs);
    SubsetSameSize(Elements(xs), Numbers(n));
    forall s: u32 | s as int < n ensures s in xs {
      assert s as int in Numbers(n);
    }
  }

  lemma DistinctJoin(xs: seq<u32>, ys: seq<u32>)
    requires Distinct(xs) && Distinct(ys) && Apart(xs, ys)
    ensures Distinct(xs + ys)
  {
  }

  lemma ApartJoin(xs: seq<u32>, ys: seq<u32>, zs: seq<u32>)
    requires Apart(xs, zs) && Apart(ys, zs)
    ensures Apart(xs + ys, zs) && Apart(zs, xs + ys)
  {
  }

  // ----- the order slots of a side

  /** The order slots in use on a side. */
  function Used(levels: seq<Level>, at: Slots): seq<u32> {
    if levels == [] then [] else SlotsOf(levels[0].orders, at) + Used(levels[1..], at)
  }

  lemma {:induction false} UsedCount(levels: seq<Level>, at: Slots)
    ensures |Used(levels, at)| == OrderCount(levels)
  {
    if levels != [] {
      UsedCount(levels[1..], at);
    }
  }

  /** A used slot is the slot of some order of the side. */
  lemma {:induction false} UsedAt(levels: seq<Level>, at: Slots, k: nat) returns (i: nat, j: nat)
    requires k < |Used(levels, at)|
    ensures i < |levels| && j < |levels[i].orders| && Used(levels, at)[k] == SlotOf(at, levels[i].orders[j])
  {
    if k < |levels[0].orders| {
      i, j := 0, k;
    } else {
      i, j := UsedAt(levels[1..], at, k - |levels[0].orders|);
      i := i + 1;
    }
  }

  lemma {:induction false} UsedDistinct(os: seq<OrderSlot>, sd: Side, levels: seq<Level>, at: Slots)
    requires Ordered(sd, levels) && QueuesOk(os, sd, levels, at) && Injective(at)
    ensures Distinct(Used(levels, at))
  {
    if levels != [] {
      var lv, rest := levels[0], levels[1..];
      assert QueueOk(os, sd, lv, at) && Fifo(lv.orders);
      forall i | 0 <= i < |rest| ensures QueueOk(os, sd, rest[i], at) && Fifo(rest[i].orders) {
        assert rest[i] == levels[i + 1];
      }
      UsedDistinct(os, sd, rest, at);
      SlotsDistinct(lv.orders, at) by {
        forall k | 0 <= k < |lv.orders| ensures lv.orders[k].ticket in at {
          assert Held(os, sd, lv.price, lv.orders[k], at);
        }
      }
      var xs, ys := SlotsOf(lv.orders, at), Used(rest, at);
      forall a, c | 0 <= a < |xs| && 0 <= c < |ys| ensures xs[a] != ys[c] {
        var i, j := UsedAt(rest, at, c);
        assert Better(sd, levels[0].price, levels[i + 1].price);
        SlotsApart(os, sd, lv, sd, levels[i + 1], at);
        assert SlotsOf(levels[i + 1].orders, at)[j] == ys[c];
      }
      DistinctJoin(xs, ys);
    }
  }

  lemma SidesApart(os: seq<OrderSlot>, bids: seq<Level>, asks: seq<Level>, at: Slots)
    requires QueuesOk(os, Buy, bids, at) && QueuesOk(os, Sell, asks, at)
    ensures Apart(Used(bids, at), Used(asks, at))
  {
    var xs, ys := Used(bids, at), Used(asks, at);
    forall a, c | 0 <= a < |xs| && 0 <= c < |ys| ensures xs[a] != ys[c] {
      var i, j := UsedAt(bids, at, a);
      var k, l := UsedAt(asks, at, c);
      SlotsApart(os, Buy, bids[i], Sell, asks[k], at);
      assert SlotsOf(bids[i].orders, at)[j] == xs[a] && SlotsOf(asks[k].orders, at)[l] == ys[c];
    }
  }

  lemma FreeApart(os: seq<OrderSlot>, sd: Side, levels: seq<Level>, at: Slots, free: seq<u32>)
    requires QueuesOk(os, sd, levels, at)
    requires forall k, t :: 0 <= k < |free| && t in at ==> free[k] != at[t]
    ensures Apart(Used(levels, at), free)
    ensures forall k :: 0 <= k < |Used(levels, at)| ==> Used(levels, at)[k] as int < |os|
  {
    forall k | 0 <= k < |Used(levels, at)| ensures Used(levels, at)[k] as int < |os| && Used(levels, at)[k] !in free {
      var i, j := UsedAt(levels, at, k);
      assert Held(os, sd, levels[i].price, levels[i].orders[j], at);
    }
  }

  // ----- main results

  /** Order slots in use, then free ones. */
  function OrderSlots(g: Image, s: Sides, at: Slots): seq<u32>
    requires g.orderTop as int <= |g.orderFree|
  {
    Used(s.bids, at) + Used(s.asks, at) + g.orderFree[..g.orderTop]
  }

  /** What Good says about the order pool and the two sides, with the arrays named. */
  lemma UsedFacts(h: Hash, g: Image, b: Book, at: Slots, n: nat, os: seq<OrderSlot>, bids: seq<Level>, asks: seq<Level>,
                  free: seq<u32>)
    requires Good(h, g, b, at, n) && os == g.mem.os && bids == b.sides.bids && asks == b.sides.asks
    requires g.orderTop as int <= |g.orderFree| ==> free == g.orderFree[..g.orderTop]
    ensures g.orderTop as int <= |g.orderFree|
    ensures Ordered(Buy, bids) && QueuesOk(os, Buy, bids, at) && Ordered(Sell, asks) && QueuesOk(os, Sell, asks, at)
    ensures Injective(at) && |os| == MAX_ORDERS && Distinct(free)
    ensures forall k, t :: 0 <= k < |free| && t in at ==> free[k] != at[t]
    ensures forall k :: 0 <= k < |free| ==> free[k] as int < MAX_ORDERS
    ensures OrderCount(bids) + OrderCount(asks) + |free| == MAX_ORDERS
  {
    LayoutSplit(g.mem, b.sides, at, Buy);
    LayoutSplit(g.mem, b.sides, at, Sell);
  }

  lemma UsedParts(os: seq<OrderSlot>, bids: seq<Level>, asks: seq<Level>, at: Slots, free: seq<u32>)
    requires Ordered(Buy, bids) && QueuesOk(os, Buy, bids, at) && Ordered(Sell, asks) && QueuesOk(os, Sell, asks, at)
    requires Injective(at) && forall k, t :: 0 <= k < |free| && t in at ==> free[k] != at[t]
    ensures var used := Used(bids, at) + Used(asks, at);
            && Distinct(used) && |used| == OrderCount(bids) + OrderCount(asks) && Apart(used, free)
            && (forall k :: 0 <= k < |used| ==> used[k] as int < |os|)
  {
    UsedDistinct(os, Buy, bids, at);
    UsedDistinct(os, Sell, asks, at);
    SidesApart(os, bids, asks, at);
    FreeApart(os, Buy, bids, at, free);
    FreeApart(os, Sell, asks, at, free);
    hide Ordered, QueuesOk, Used;
    DistinctJoin(Used(bids, at), Used(asks, at));
    ApartJoin(Used(bids, at), Used(asks, at), free);
    UsedCount(bids, at);
    UsedCount(asks, at);
  }

  /** Every order slot is exactly once in use or on the free stack. */
  lemma OrderSlotsPartition(h: Hash, g: Image, b: Book, at: Slots, n: nat)
    requires Good(h, g, b, at, n)
    ensures g.orderTop as int <= |g.orderFree|
    ensures var all := OrderSlots(g, b.sides, at);
            && |all| == MAX_ORDERS && Distinct(all)
            && (forall s: u32 :: s as int < MAX_ORDERS <==> s in all)
  {
    hide Good, Ordered, QueuesOk, Used;
    var free := if g.orderTop as int <= |g.orderFree| then g.orderFree[..g.orderTop] else [];
    UsedFacts(h, g, b, at, n, g.mem.os, b.sides.bids, b.sides.asks, free);
    UsedParts(g.mem.os, b.sides.bids, b.sides.asks, at, free);
    DistinctJoin(Used(b.sides.bids, at) + Used(b.sides.asks, at), free);
    AllPresent(OrderSlots(g, b.sides, at), MAX_ORDERS);
  }

  /** Level slots in use, then free ones. */
  function LevelSlots(g: Image, s: Sides): seq<u32>
    requires g.levelTop as int <= |g.levelFree|
  {
    RefsOf(g.mem.bidMap, s.bids) + RefsOf(g.mem.askMap, s.asks) + g.levelFree[..g.levelTop]
  }

  /** Every level slot is exactly once in use or on the free stack. */
  lemma LevelSlotsPartition(h: Hash, g: Image, b: Book, at: Slots, n: nat)
    requires Good(h, g, b, at, n)
    ensures g.levelTop as int <= |g.levelFree|
    ensures var all := LevelSlots(g, b.sides);
            && |all| == MAX_LEVELS && Distinct(all)
            && (forall s: u32 :: s as int < MAX_LEVELS <==> s in all)
  {
    var s, free := b.sides, g.levelFree[..g.levelTop];
    var bids, asks := RefsOf(g.mem.bidMap, s.bids), RefsOf(g.mem.askMap, s.asks);
    hide Good, RefsOf;
    LevelRefs(h, g, b, at, n);
    ThreeParts(bids, asks, free, MAX_LEVELS);
  }

  /** Three lists of distinct numbers below n, without a common one, that are n together, are all numbers below n. */
  lemma ThreeParts(a: seq<u32>, b: seq<u32>, c: seq<u32>, n: nat)
    requires Distinct(a) && Distinct(b) && Distinct(c) && Apart(a, b) && Apart(a, c) && Apart(b, c)
    requires |a| + |b| + |c| == n
    requires forall k :: 0 <= k < |a| ==> a[k] as int < n
    requires forall k :: 0 <= k < |b| ==> b[k] as int < n
    requires forall k :: 0 <= k < |c| ==> c[k] as int < n
    ensures |a + b + c| == n && Distinct(a + b + c) && forall s: u32 :: s as int < n <==> s in a + b + c
  {
    DistinctJoin(a, b);
    ApartJoin(a, b, c);
    DistinctJoin(a + b, c);
    AllPresent(a + b + c, n);
  }

  lemma LevelRefs(h: Hash, g: Image, b: Book, at: Slots, n: nat)
    requires Good(h, g, b, at, n)
    ensures var bids, asks := RefsOf(g.mem.bidMap, b.sides.bids), RefsOf(g.mem.askMap, b.sides.asks);
            && g.levelTop as int <= |g.levelFree|
            && var free := g.levelFree[..g.levelTop];
               && Distinct(bids) && Distinct(asks) && Distinct(free)
               && Apart(bids, asks) && Apart(bids, free) && Apart(asks, free)
               && |bids| + |asks| + |free| == MAX_LEVELS
               && (forall k :: 0 <= k < |bids| ==> bids[k] as int < MAX_LEVELS)
               && (forall k :: 0 <= k < |asks| ==> asks[k] as int < MAX_LEVELS)
               && (forall k :: 0 <= k < |free| ==> free[k] as int < MAX_LEVELS)
  {
    LayoutSplit(g.mem, b.sides, at, Buy);
    LayoutSplit(g.mem, b.sides, at, Sell);
    RefsDistinct(g.mem.ls, g.mem.bidMap, Buy, b.sides.bids, at);
    RefsDistinct(g.mem.ls, g.mem.askMap, Sell, b.sides.asks, at);
  }

  // ----- exact totals

  const SMALL_QUANTITY: nat := 0x8000_0000_0000

  lemma {:induction false} TotalBounded(q: seq<Order>)
    requires forall j :: 0 <= j < |q| ==> q[j].remaining < SMALL_QUANTITY
    ensures Total(q) <= |q| * (SMALL_QUANTITY - 1)
  {
    if q != [] {
      TotalBounded(q[1..]);
    }
  }

  lemma LevelFacts(h: Hash, g: Image, b: Book, at: Slots, n: nat, sd: Side, i: nat, l: u32, q: seq<Order>)
    requires Good(h, g, b, at, n) && i < |b.sides.Get(sd)| && q == b.sides.Get(sd)[i].orders
    requires l == MapAt(g.mem.Map(sd), b.sides.Get(sd)[i].price)
    ensures l as int < |g.mem.ls| && g.mem.ls[l].totalQty as int == Total(q) % TWO64
    ensures |q| <= Live(b.sides) <= MAX_ORDERS
  {
    hide Pools, Naming, Counters, Total;
    LocateLevel(g.mem, b.sides, at, sd, i);
    SumsAt(g.mem, b.sides, sd, i);
    LiveReplaced(b.sides, sd, i, b.sides.Get(sd)[i]);
    LiveBounded(h, g, b, at, n);
  }

  lemma LiveBounded(h: Hash, g: Image, b: Book, at: Slots, n: nat)
    requires Good(h, g, b, at, n)
    ensures Live(b.sides) <= MAX_ORDERS
  {
  }

  lemma SmallTotal(total: nat, count: nat)
    requires total <= count * (SMALL_QUANTITY - 1) && count <= MAX_ORDERS
    ensures total < TWO64
  {
    assert count * (SMALL_QUANTITY - 1) <= MAX_ORDERS * (SMALL_QUANTITY - 1);
  }

  ghost predicate SmallOrders(levels: seq<Level>) {
    forall i, j :: 0 <= i < |levels| && 0 <= j < |levels[i].orders| ==> levels[i].orders[j].remaining < SMALL_QUANTITY
  }

  /** When no order of a side has 2^47 units or more, each level's 64-bit total is its true total: at most 2^17
      orders rest. */
  lemma TotalsExact(h: Hash, g: Image, b: Book, at: Slots, n: nat, sd: Side, i: nat)
    requires Good(h, g, b, at, n) && i < |b.sides.Get(sd)| && SmallOrders(b.sides.Get(sd))
    ensures Total(b.sides.Get(sd)[i].orders) < TWO64
    ensures var l := MapAt(g.mem.Map(sd), b.sides.Get(sd)[i].price);
            l as int < |g.mem.ls| && g.mem.ls[l].totalQty as int == Total(b.sides.Get(sd)[i].orders)
  {
    hide Good;
    var q := b.sides.Get(sd)[i].orders;
    LevelFacts(h, g, b, at, n, sd, i, MapAt(g.mem.Map(sd), b.sides.Get(sd)[i].price), q);
    TotalBounded(q);
    SmallTotal(Total(q), |q|);
  }

  lemma SideTotals(h: Hash, g: Image, b: Book, at: Slots, n: nat, sd: Side)
    requires Good(h, g, b, at, n) && SmallOrders(b.sides.Get(sd))
    ensures forall i :: 0 <= i < |b.sides.Get(sd)| ==> Total(b.sides.Get(sd)[i].orders) < TWO64
  {
    hide Good, SmallOrders, Total;
    forall i | 0 <= i < |b.sides.Get(sd)| ensures Total(b.sides.Get(sd)[i].orders) < TWO64 {
      TotalsExact(h, g, b, at, n, sd, i);
    }
  }
}
