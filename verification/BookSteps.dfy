/** The steps of the engine that move an order or a level between its list and the free
    stacks, each with the invariant it keeps. */
module BookSteps {
  import opened Types
  import opened BookSpec
  import opened BookInvariants
  import opened BookSafety
  import opened LinkedLists
  import opened BookMemory
  import opened QueueUpdates
  import opened LevelUpdates
  import opened SlotPools
  import opened BookImage

  // ----- an order leaves its queue and its slot is freed

  /** No ticket rests in two places: its slot could not record both. */
  lemma TakenAbsent(m: Mem, s: Sides, at: Slots, sd: Side, i: nat, j: nat)
    requires Layout(m, s, at)
    requires i < |s.Get(sd)| && j < |s.Get(sd)[i].orders|
    ensures Absent(s.Set(sd, Taken(s.Get(sd), i, j)), s.Get(sd)[i].orders[j].ticket)
  {
    var levels, other := s.Get(sd), sd.Opposite();
    var levels' := Taken(levels, i, j);
    LayoutSplit(m, s, at, sd);
    LayoutSplit(m, s, at, other);
    forall k | 0 <= k < |levels'| ensures NotQueued(levels'[k].orders, levels[i].orders[j].ticket) {
      if k == i {
        assert Fifo(levels[i].orders);
        FifoNotQueued(levels[i].orders, j);
      } else {
        assert levels[k].price != levels[i].price by {
          if k < i { assert Better(sd, levels[k].price, levels[i].price); }
          else { assert Better(sd, levels[i].price, levels[k].price); }
        }
        TicketElsewhere(m.os, sd, levels[i], sd, levels[k], at, j);
      }
    }
    forall k | 0 <= k < |s.Get(other)| ensures NotQueued(s.Get(other)[k].orders, levels[i].orders[j].ticket) {
      TicketElsewhere(m.os, sd, levels[i], other, s.Get(other)[k], at, j);
    }
  }

  lemma FifoNotQueued(q: seq<Order>, j: nat)
    requires Fifo(q) && j < |q|
    ensures NotQueued(Without(q, j), q[j].ticket)
  {
    var r := Without(q, j);
    forall k | 0 <= k < |r| ensures r[k].ticket != q[j].ticket {
      assert r[k] == q[if k < j then k else k + 1];
    }
  }

  lemma TicketElsewhere(os: seq<OrderSlot>, sd: Side, lv: Level, sd2: Side, lv2: Level, at: Slots, j: nat)
    requires QueueOk(os, sd, lv, at) && QueueOk(os, sd2, lv2, at) && j < |lv.orders|
    requires sd != sd2 || lv.price != lv2.price
    ensures NotQueued(lv2.orders, lv.orders[j].ticket)
  {
    SlotsApart(os, sd, lv, sd2, lv2, at);
    assert SlotsOf(lv.orders, at)[j] == SlotOf(at, lv.orders[j]);
    forall k | 0 <= k < |lv2.orders| ensures lv2.orders[k].ticket != lv.orders[j].ticket {
      assert SlotsOf(lv2.orders, at)[k] == SlotOf(at, lv2.orders[k]);
    }
  }

  lemma ResidentPresent(h: Hash, s: Sides, k: nat, r: Ref, t: nat)
    requires Resident(h, s, k, r) && Absent(s, t)
    ensures r.ticket != t
  {
    var i, j := ResidentPosition(h, s, k, r);
    assert NotQueued(s.Get(r.side)[i].orders, t);
  }

  function OrderSlotFreed(g: Image, m': Mem, k: nat, x: u32): Image
    requires g.orderTop as int < |g.orderFree| < TWO32 && k < |g.index|
  {
    g.(mem := m', orderFree := g.orderFree[g.orderTop := x], orderTop := g.orderTop + 1,
       index := g.index[k := g.index[k].(slot := INVALID)])
  }

  lemma TakenNaming(h: Hash, g: Image, s: Sides, index: map<nat, Ref>, at: Slots, sd: Side, i: nat, j: nat)
    requires Naming(h, g, s, index, at)
    requires i < |s.Get(sd)| && j < |s.Get(sd)[i].orders|
    requires Absent(s.Set(sd, Taken(s.Get(sd), i, j)), s.Get(sd)[i].orders[j].ticket)
    ensures var o := s.Get(sd)[i].orders[j];
            var k := Bucket(h, o.id);
            var s' := s.Set(sd, Taken(s.Get(sd), i, j));
            && k < |g.index|
            && RefsOk(h, s', index - {k})
            && IndexOk(g.index[k := g.index[k].(slot := INVALID)], index - {k}, at - {o.ticket},
                       g.mem.bidMap, g.mem.askMap)
  {
    var o := s.Get(sd)[i].orders[j];
    var k := Bucket(h, o.id);
    var s' := s.Set(sd, Taken(s.Get(sd), i, j));
    var index' := index - {k};
    RefsTaken(h, s, index, sd, i, j);
    IndexCleared(g.index, index, at, g.mem.bidMap, g.mem.askMap, k);
    var ix' := g.index[k := g.index[k].(slot := INVALID)];
    forall b | b in index' ensures index'[b].ticket in at && index'[b].ticket != o.ticket {
      ResidentPresent(h, s', b, index'[b], o.ticket);
      assert EntryOk(ix'[b], index', b, at, g.mem.bidMap, g.mem.askMap);
    }
    IndexKept(ix', index', at, g.mem.bidMap, g.mem.askMap, at - {o.ticket}, g.mem.bidMap, g.mem.askMap);
  }

  lemma TakenLayout(m: Mem, m': Mem, s: Sides, at: Slots, sd: Side, i: nat, j: nat,
                    levels: seq<Level>, levels': seq<Level>, o: Order)
    requires Layout(m, s, at) && levels == s.Get(sd)
    requires i < |levels| && j < |levels[i].orders|
    requires levels' == Taken(levels, i, j) && o == levels[i].orders[j]
    requires Layout(m', s.Set(sd, levels'), at)
    ensures o.ticket in at && Absent(s.Set(sd, levels'), o.ticket)
    ensures Layout(m', s.Set(sd, levels'), at - {o.ticket})
  {
    Locate(m, s, at, sd, i, j);
    TakenAbsent(m, s, at, sd, i, j);
    LayoutReassigned(m', s.Set(sd, levels'), at, at - {o.ticket}, o.ticket);
  }

  lemma TakenPools(g: Image, m': Mem, s: Sides, at: Slots, n: nat, sd: Side, i: nat, j: nat, k: nat,
                   levels: seq<Level>, levels': seq<Level>, o: Order)
    requires Pools(g, s, at, n, 0) && k < |g.index| && levels == s.Get(sd)
    requires i < |levels| && j < |levels[i].orders|
    requires levels' == Taken(levels, i, j) && o == levels[i].orders[j] && o.ticket in at
    requires m'.bidMap == g.mem.bidMap && m'.askMap == g.mem.askMap
    ensures g.orderTop as int < |g.orderFree| < TWO32
    ensures Pools(OrderSlotFreed(g, m', k, at[o.ticket]), s.Set(sd, levels'), at - {o.ticket}, n, 0)
  {
    OrderFreed(g.orderFree, g.orderTop, at, n, o.ticket);
    LiveReplaced(s, sd, i, levels'[i]);
    assert levels' == levels[i := levels'[i]];
    var s' := s.Set(sd, levels');
    assert RefsOf(m'.bidMap, s'.bids) == RefsOf(g.mem.bidMap, s.bids);
    assert RefsOf(m'.askMap, s'.asks) == RefsOf(g.mem.askMap, s.asks);
  }

  lemma TakenInv(h: Hash, g: Image, m': Mem, b: Book, at: Slots, n: nat, sd: Side, i: nat, j: nat,
                 l: u32, levels: seq<Level>, levels': seq<Level>, o: Order)
    requires Inv(h, g, b, at, n, 0)
    requires levels == b.sides.Get(sd) && i < |levels| && j < |levels[i].orders|
    requires levels' == Taken(levels, i, j) && o == levels[i].orders[j]
    requires Layout(m', b.sides.Set(sd, levels'), at)
    requires l == RefsOf(g.mem.Map(sd), levels)[i] && OneTotal(g.mem, m', l, levels'[i])
    requires m'.bidMap == g.mem.bidMap && m'.askMap == g.mem.askMap
    ensures o.ticket in at && g.orderTop as int < |g.orderFree| < TWO32 && |g.index| == MAX_ORDERS
    ensures Inv(h, OrderSlotFreed(g, m', Bucket(h, o.id), at[o.ticket]),
                b.(sides := b.sides.Set(sd, levels'), index := b.index - {Bucket(h, o.id)}), at - {o.ticket}, n, 0)
  {
    var s, s' := b.sides, b.sides.Set(sd, levels');
    TakenLayout(g.mem, m', s, at, sd, i, j, levels, levels', o);
    TakenPools(g, m', s, at, n, sd, i, j, Bucket(h, o.id), levels, levels', o);
    TakenNaming(h, g, s, b.index, at, sd, i, j);
    QueueSums(g.mem, m', s, at, sd, i, l, levels, levels');
    TakenOlder(s, n, sd, i, j);
  }

  lemma QueueSums(m: Mem, m': Mem, s: Sides, at: Slots, sd: Side, i: nat, l: u32, levels: seq<Level>,
                  levels': seq<Level>)
    requires Layout(m, s, at) && Sums(m, s) && levels == s.Get(sd) && i < |levels| && |levels'| == |levels|
    requires levels' == levels[i := levels'[i]] && levels'[i].price == levels[i].price
    requires m'.bidMap == m.bidMap && m'.askMap == m.askMap
    requires l == RefsOf(m.Map(sd), levels)[i] && OneTotal(m, m', l, levels'[i])
    ensures Sums(m', s.Set(sd, levels'))
  {
    assert RefsOf(m.Map(sd), levels') == RefsOf(m.Map(sd), levels);
    SumsQueue(m, m', s, at, sd, i, levels'[i]);
  }

  lemma TakenOlder(s: Sides, n: nat, sd: Side, i: nat, j: nat)
    requires OlderSides(s, n) && i < |s.Get(sd)| && j < |s.Get(sd)[i].orders|
    ensures OlderSides(s.Set(sd, Taken(s.Get(sd), i, j)), n)
  {
    var levels' := Taken(s.Get(sd), i, j);
    assert OlderQueue(levels'[i].orders, n) by { assert OlderQueue(s.Get(sd)[i].orders, n); }
    OlderQueueReplaced(s, n, sd, i, levels'[i]);
  }

  // ----- an empty level leaves its list and its slot is freed

  function LevelSlotFreed(g: Image, m': Mem, l: u32): Image
    requires g.levelTop as int < |g.levelFree| < TWO32
  {
    g.(mem := m', levelFree := g.levelFree[g.levelTop := l], levelTop := g.levelTop + 1)
  }

  lemma RemovedSums(m: Mem, s: Sides, sd: Side, i: nat, l: u32, levels: seq<Level>)
    requires Sums(m, s) && levels == s.Get(sd) && i < |levels| && l as int < |m.ls|
    requires m.ls[l].price as int < |m.Map(sd)|
    requires RefsOf(LevelRemoved(m, sd, l).Map(sd), Without(levels, i)) == Without(RefsOf(m.Map(sd), levels), i)
    ensures Sums(LevelRemoved(m, sd, l), s.Set(sd, Without(levels, i)))
  {
    var m', levels' := LevelRemoved(m, sd, l), Without(levels, i);
    UnlinkedLevelLinks(m.ls, l);
    assert forall k :: 0 <= k < |m.ls| ==> Body(m.ls[k]).totalQty == Body(m'.ls[k]).totalQty;
    WithoutIndex(levels, i);
    WithoutIndex(RefsOf(m.Map(sd), levels), i);
    assert SumsSide(m', sd, levels');
    var other := sd.Opposite();
    assert m'.Map(other) == m.Map(other);
    assert SumsSide(m', other, s.Get(other));
  }

  lemma LevelStackLength(g: Image, s: Sides, at: Slots, n: nat, limbo: nat)
    requires Pools(g, s, at, n, limbo)
    ensures |g.levelFree| == MAX_LEVELS
  {
  }

  lemma RemovedPools(g: Image, m': Mem, s: Sides, at: Slots, n: nat, limbo: nat, sd: Side, i: nat, l: u32,
                     levels: seq<Level>)
    requires Pools(g, s, at, n, limbo) && levels == s.Get(sd) && i < |levels| && levels[i].orders == []
    requires l == RefsOf(g.mem.Map(sd), levels)[i] && l as int < MAX_LEVELS
    requires Distinct(RefsOf(g.mem.Map(sd), levels))
    requires Apart(RefsOf(g.mem.Map(sd), levels), RefsOf(g.mem.Map(sd.Opposite()), s.Get(sd.Opposite())))
    requires RefsOf(m'.Map(sd), Without(levels, i)) == Without(RefsOf(g.mem.Map(sd), levels), i)
    requires m'.Map(sd.Opposite()) == g.mem.Map(sd.Opposite())
    ensures g.levelTop as int < |g.levelFree| < TWO32
    ensures Pools(LevelSlotFreed(g, m', l), s.Set(sd, Without(levels, i)), at, n, limbo)
  {
    var here, there := RefsOf(g.mem.Map(sd), levels), RefsOf(g.mem.Map(sd.Opposite()), s.Get(sd.Opposite()));
    LevelStackLength(g, s, at, n, limbo);
    CountWithout(levels, i);
    hide LevelPool, OrderPool, OrderCount, RefsOf, Distinct, Apart;
    FreedOnSide(g.levelFree, g.levelTop, sd, here, there, i, l);
  }

  lemma FreedOnSide(free: seq<u32>, top: u32, sd: Side, here: seq<u32>, there: seq<u32>, i: nat, l: u32)
    requires LevelPool(free, top, if sd.Buy? then here else there, if sd.Buy? then there else here)
    requires Distinct(here) && Apart(here, there) && i < |here| && l == here[i] && l as int < MAX_LEVELS
    ensures top as int < MAX_LEVELS
    ensures top as int < |free| ==>
              LevelPool(free[top := l], top + 1, if sd.Buy? then Without(here, i) else there,
                        if sd.Buy? then there else Without(here, i))
  {
    hide LevelPool;
    if sd.Sell? { LevelPoolFlipped(free, top, there, here); }
    LevelFreed(free, top, here, there, i);
    if sd.Sell? && top as int < |free| { LevelPoolFlipped(free[top := l], top + 1, Without(here, i), there); }
  }

  lemma RemovedNaming(h: Hash, g: Image, m': Mem, s: Sides, index: map<nat, Ref>, at: Slots, sd: Side, i: nat,
                      levels: seq<Level>)
    requires Naming(h, g, s, index, at) && levels == s.Get(sd) && i < |levels| && levels[i].orders == []
    requires Sorted(sd, levels) && |g.mem.Map(sd)| == MAP_SIZE
    requires m'.Map(sd) == g.mem.Map(sd)[levels[i].price := INVALID]
    requires m'.Map(sd.Opposite()) == g.mem.Map(sd.Opposite())
    ensures Naming(h, g.(mem := m'), s.Set(sd, Without(levels, i)), index, at)
  {
    var s' := s.Set(sd, Without(levels, i));
    RefsLevelRemoved(h, s, index, sd, i);
    forall k | k in index
      ensures index[k].ticket in at && (index[k].side == sd ==> index[k].price != levels[i].price)
    {
      var a, b := ResidentPosition(h, s', k, index[k]);
      assert EntryOk(g.index[k], index, k, at, g.mem.bidMap, g.mem.askMap);
      if index[k].side == sd {
        WithoutIndex(levels, i);
        if a < i { assert Better(sd, levels[a].price, levels[i].price); }
        else { assert Better(sd, levels[i].price, levels[a + 1].price); }
      }
    }
    IndexKept(g.index, index, at, g.mem.bidMap, g.mem.askMap, at, m'.bidMap, m'.askMap);
  }

  lemma RemovedInv(h: Hash, g: Image, b: Book, at: Slots, n: nat, limbo: nat, sd: Side, i: nat, l: u32,
                   levels: seq<Level>)
    requires Inv(h, g, b, at, n, limbo)
    requires levels == b.sides.Get(sd) && i < |levels| && levels[i].orders == []
    requires l == RefsOf(g.mem.Map(sd), levels)[i]
    ensures g.levelTop as int < |g.levelFree| < TWO32 && l as int < |g.mem.ls|
    ensures g.mem.ls[l].price == levels[i].price && levels[i].price as int < |g.mem.Map(sd)|
    ensures Inv(h, LevelSlotFreed(g, LevelRemoved(g.mem, sd, l), l), b.(sides := b.sides.Set(sd, Without(levels, i))),
                at, n, limbo)
  {
    var s := b.sides;
    RemovedFacts(g.mem, s, at, sd, i, l, levels);
    var m' := LevelRemoved(g.mem, sd, l);
    RemovedSums(g.mem, s, sd, i, l, levels);
    RemovedPools(g, m', s, at, n, limbo, sd, i, l, levels);
    RemovedNaming(h, g, m', s, b.index, at, sd, i, levels);
    RemovedOlder(s, n, sd, i);
  }

  lemma RemovedOlder(s: Sides, n: nat, sd: Side, i: nat)
    requires OlderSides(s, n) && i < |s.Get(sd)|
    ensures OlderSides(s.Set(sd, Without(s.Get(sd), i)), n)
  {
    OlderLevelsWithout(s.Get(sd), n, i);
  }

  lemma RemovedFacts(m: Mem, s: Sides, at: Slots, sd: Side, i: nat, l: u32, levels: seq<Level>)
    requires Layout(m, s, at) && levels == s.Get(sd) && i < |levels|
    requires l == RefsOf(m.Map(sd), levels)[i]
    ensures l as int < |m.ls| == MAX_LEVELS && m.ls[l].price == levels[i].price
    ensures levels[i].price as int < |m.Map(sd)| == MAP_SIZE && Sorted(sd, levels)
    ensures var m' := LevelRemoved(m, sd, l);
            && Layout(m', s.Set(sd, Without(levels, i)), at)
            && RefsOf(m'.Map(sd), Without(levels, i)) == Without(RefsOf(m.Map(sd), levels), i)
            && m'.Map(sd) == m.Map(sd)[levels[i].price := INVALID]
            && m'.Map(sd.Opposite()) == m.Map(sd.Opposite())
    ensures Distinct(RefsOf(m.Map(sd), levels))
    ensures Apart(RefsOf(m.Map(sd), levels), RefsOf(m.Map(sd.Opposite()), s.Get(sd.Opposite())))
  {
    LayoutSplit(m, s, at, sd);
    RefsDistinct(m.ls, m.Map(sd), sd, levels, at);
    RemovedLayout(m, s, at, sd, i);
  }

  /** After a level has left, the cached best price is read off the new head. */
  lemma RemovedBest(m': Mem, s': Sides, at: Slots, sd: Side)
    requires Layout(m', s', at)
    ensures (s'.Get(sd) == []) == (m'.Head(sd) == INVALID)
    ensures s'.Get(sd) != [] ==>
              m'.Head(sd) as int < |m'.ls| && m'.ls[m'.Head(sd)].price == s'.Get(sd)[0].price
  {
    LayoutSplit(m', s', at, sd);
    if s'.Get(sd) != [] { LocateLevel(m', s', at, sd, 0); }
  }

  // ----- a new, empty level

  function LevelSlotUsed(g: Image, m': Mem): Image
    requires g.levelTop > 0
  {
    g.(mem := m', levelTop := g.levelTop - 1)
  }

  lemma AddedTotals(ls: seq<LevelSlot>, l: u32, price: u32, prev: u32, next: u32)
    requires l as int < |ls|
    ensures forall k :: 0 <= k < |ls| ==>
              LevelLinked(ls, l, price, prev, next)[k].totalQty == if k == l as int then 0 else ls[k].totalQty
  {
    var ls' := LevelLinked(ls, l, price, prev, next);
    LinkedLevelLinks(ls, l, price, prev, next);
    forall k | 0 <= k < |ls| ensures ls'[k].totalQty == if k == l as int then 0 else ls[k].totalQty {
      assert Body(ls'[k]) == Body(ls[l := FreshLevel(price, prev, next)][k]);
    }
  }

  lemma AddedSumsHere(ls: seq<LevelSlot>, ls': seq<LevelSlot>, refs: seq<u32>, levels: seq<Level>, i: nat, price: u32,
                      l: u32)
    requires |refs| == |levels| && SumsOk(ls, refs, levels) && i <= |levels| && l !in refs
    requires |ls'| == |ls|
    requires forall k :: 0 <= k < |ls| ==> ls'[k].totalQty == if k == l as int then 0 else ls[k].totalQty
    ensures SumsOk(ls', Inserted(refs, i, l), NewLevels(levels, i, price))
  {
    var refs', levels' := Inserted(refs, i, l), NewLevels(levels, i, price);
    InsertedIndex(levels, i, Level(price, []));
    InsertedIndex(refs, i, l);
    forall k | 0 <= k < |levels'| && refs'[k] as int < |ls'|
      ensures ls'[refs'[k]].totalQty as int == Total(levels'[k].orders) % TWO64
    {
      if k != i {
        var k0 := if k < i then k else k - 1;
        assert refs'[k] == refs[k0] && levels'[k] == levels[k0];
      }
    }
  }

  lemma AddedSums(m: Mem, s: Sides, sd: Side, i: nat, price: u32, l: u32, prev: u32, next: u32, levels: seq<Level>)
    requires Sums(m, s) && levels == s.Get(sd) && i <= |levels| && l as int < |m.ls|
    requires price as int < |m.Map(sd)|
    requires l !in RefsOf(m.bidMap, s.bids) && l !in RefsOf(m.askMap, s.asks)
    requires RefsOf(LevelAdded(m, sd, l, price, prev, next).Map(sd), NewLevels(levels, i, price))
             == Inserted(RefsOf(m.Map(sd), levels), i, l)
    ensures Sums(LevelAdded(m, sd, l, price, prev, next), s.Set(sd, NewLevels(levels, i, price)))
  {
    var m', other := LevelAdded(m, sd, l, price, prev, next), sd.Opposite();
    AddedTotals(m.ls, l, price, prev, next);
    AddedSumsHere(m.ls, m'.ls, RefsOf(m.Map(sd), levels), levels, i, price, l);
    assert SumsSide(m', sd, NewLevels(levels, i, price));
    assert m'.Map(other) == m.Map(other);
    SumsElsewhere(m.ls, m'.ls, RefsOf(m.Map(other), s.Get(other)), s.Get(other), l);
    assert SumsSide(m', other, s.Get(other));
  }

  lemma AddedPools(g: Image, m': Mem, s: Sides, at: Slots, n: nat, limbo: nat, sd: Side, i: nat, price: u32,
                   levels: seq<Level>)
    requires Pools(g, s, at, n, limbo) && levels == s.Get(sd) && i <= |levels| && g.levelTop > 0
    requires RefsOf(m'.Map(sd), NewLevels(levels, i, price))
             == Inserted(RefsOf(g.mem.Map(sd), levels), i, g.levelFree[g.levelTop - 1])
    requires m'.Map(sd.Opposite()) == g.mem.Map(sd.Opposite())
    ensures Pools(LevelSlotUsed(g, m'), s.Set(sd, NewLevels(levels, i, price)), at, n, limbo)
  {
    var here, there := RefsOf(g.mem.Map(sd), levels), RefsOf(g.mem.Map(sd.Opposite()), s.Get(sd.Opposite()));
    CountInserted(levels, i, Level(price, []));
    if sd.Sell? { LevelPoolFlipped(g.levelFree, g.levelTop, there, here); }
    LevelAllocated(g.levelFree, g.levelTop, here, there, i);
    if sd.Sell? {
      LevelPoolFlipped(g.levelFree, g.levelTop - 1, Inserted(here, i, g.levelFree[g.levelTop - 1]), there);
    }
  }

  lemma FreeLevelUnused(g: Image, s: Sides, at: Slots, n: nat, limbo: nat)
    requires Pools(g, s, at, n, limbo) && g.levelTop > 0
    ensures g.levelFree[g.levelTop - 1] as int < MAX_LEVELS
    ensures g.levelFree[g.levelTop - 1] !in RefsOf(g.mem.bidMap, s.bids)
    ensures g.levelFree[g.levelTop - 1] !in RefsOf(g.mem.askMap, s.asks)
  {
    LevelAllocated(g.levelFree, g.levelTop, RefsOf(g.mem.bidMap, s.bids), RefsOf(g.mem.askMap, s.asks), 0);
  }

  lemma AddedNaming(h: Hash, g: Image, m': Mem, s: Sides, index: map<nat, Ref>, at: Slots, sd: Side, i: nat,
                    price: u32, l: u32, levels: seq<Level>)
    requires Naming(h, g, s, index, at) && levels == s.Get(sd) && i <= |levels|
    requires !HasPrice(levels, price) && price as int < |g.mem.Map(sd)|
    requires m'.Map(sd) == g.mem.Map(sd)[price := l]
    requires m'.Map(sd.Opposite()) == g.mem.Map(sd.Opposite())
    ensures Naming(h, g.(mem := m'), s.Set(sd, NewLevels(levels, i, price)), index, at)
  {
    RefsLevelAdded(h, s, index, sd, i, Level(price, []));
    forall k | k in index
      ensures index[k].ticket in at && (index[k].side == sd ==> index[k].price != price)
    {
      var a, b := ResidentPosition(h, s, k, index[k]);
      assert EntryOk(g.index[k], index, k, at, g.mem.bidMap, g.mem.askMap);
    }
    IndexKept(g.index, index, at, g.mem.bidMap, g.mem.askMap, at, m'.bidMap, m'.askMap);
  }

  lemma AddedInv(h: Hash, g: Image, b: Book, at: Slots, n: nat, limbo: nat, sd: Side, i: nat, price: u32, l: u32,
                 prev: u32, next: u32, levels: seq<Level>)
    requires Inv(h, g, b, at, n, limbo)
    requires levels == b.sides.Get(sd) && i <= |levels| && g.levelTop > 0
    requires l == g.levelFree[g.levelTop - 1] && price as int < MAP_SIZE
    requires !HasPrice(levels, price) && Sorted(sd, NewLevels(levels, i, price))
    requires prev == At(RefsOf(g.mem.Map(sd), levels), i - 1) && next == At(RefsOf(g.mem.Map(sd), levels), i)
    ensures l as int < |g.mem.ls| && |g.mem.Map(sd)| == MAP_SIZE
    ensures var m' := LevelAdded(g.mem, sd, l, price, prev, next);
            && Inv(h, LevelSlotUsed(g, m'), b.(sides := b.sides.Set(sd, NewLevels(levels, i, price))), at, n, limbo)
            && MapAt(m'.Map(sd), price) == l
  {
    FreeLevelUnused(g, b.sides, at, n, limbo);
    AddedFacts(g.mem, b.sides, at, sd, i, price, l, prev, next, levels);
    AddedParts(h, g, LevelAdded(g.mem, sd, l, price, prev, next), b, at, n, limbo, sd, i, price, l, prev, next, levels);
  }

  lemma AddedParts(h: Hash, g: Image, m': Mem, b: Book, at: Slots, n: nat, limbo: nat, sd: Side, i: nat, price: u32,
                   l: u32, prev: u32, next: u32, levels: seq<Level>)
    requires Inv(h, g, b, at, n, limbo) && levels == b.sides.Get(sd) && i <= |levels| && g.levelTop > 0
    requires l == g.levelFree[g.levelTop - 1] && l as int < |g.mem.ls| && price as int < |g.mem.Map(sd)| == MAP_SIZE
    requires l !in RefsOf(g.mem.bidMap, b.sides.bids) && l !in RefsOf(g.mem.askMap, b.sides.asks)
    requires !HasPrice(levels, price) && m' == LevelAdded(g.mem, sd, l, price, prev, next)
    requires Layout(m', b.sides.Set(sd, NewLevels(levels, i, price)), at)
    requires RefsOf(m'.Map(sd), NewLevels(levels, i, price)) == Inserted(RefsOf(g.mem.Map(sd), levels), i, l)
    requires m'.Map(sd) == g.mem.Map(sd)[price := l] && m'.Map(sd.Opposite()) == g.mem.Map(sd.Opposite())
    ensures Inv(h, LevelSlotUsed(g, m'), b.(sides := b.sides.Set(sd, NewLevels(levels, i, price))), at, n, limbo)
    ensures MapAt(m'.Map(sd), price) == l
  {
    hide Layout, Sums, Pools, Naming, HasPrice, RefsOf, LevelAdded;
    AddedSums(g.mem, b.sides, sd, i, price, l, prev, next, levels);
    AddedPools(g, m', b.sides, at, n, limbo, sd, i, price, levels);
    AddedNaming(h, g, m', b.sides, b.index, at, sd, i, price, l, levels);
    OlderInserted(levels, n, i, Level(price, []));
    NamingUsed(h, g, m', b.sides.Set(sd, NewLevels(levels, i, price)), b.index, at);
  }

  lemma NamingUsed(h: Hash, g: Image, m': Mem, s: Sides, index: map<nat, Ref>, at: Slots)
    requires Naming(h, g.(mem := m'), s, index, at)
    requires g.levelTop > 0
    ensures Naming(h, LevelSlotUsed(g, m'), s, index, at)
  {
  }

  lemma AddedFacts(m: Mem, s: Sides, at: Slots, sd: Side, i: nat, price: u32, l: u32, prev: u32, next: u32,
                   levels: seq<Level>)
    requires Layout(m, s, at) && levels == s.Get(sd) && i <= |levels|
    requires l as int < MAX_LEVELS && l !in RefsOf(m.bidMap, s.bids) && l !in RefsOf(m.askMap, s.asks)
    requires price as int < MAP_SIZE && !HasPrice(levels, price) && Sorted(sd, NewLevels(levels, i, price))
    requires prev == At(RefsOf(m.Map(sd), levels), i - 1) && next == At(RefsOf(m.Map(sd), levels), i)
    ensures |m.ls| == MAX_LEVELS && |m.Map(sd)| == MAP_SIZE
    ensures var m' := LevelAdded(m, sd, l, price, prev, next);
            && Layout(m', s.Set(sd, NewLevels(levels, i, price)), at)
            && RefsOf(m'.Map(sd), NewLevels(levels, i, price)) == Inserted(RefsOf(m.Map(sd), levels), i, l)
            && m'.Map(sd) == m.Map(sd)[price := l]
            && m'.Map(sd.Opposite()) == m.Map(sd.Opposite())
  {
    LayoutSplit(m, s, at, sd);
    AddedLayout(m, s, at, sd, i, price, l);
  }

  // ----- a free order slot is taken and written

  function OrderSlotUsed(g: Image, x: u32, v: OrderSlot): Image
    requires g.orderTop > 0 && x as int < |g.mem.os|
  {
    g.(mem := g.mem.(os := g.mem.os[x := v]), orderTop := g.orderTop - 1)
  }

  lemma UsedUnseen(levels: seq<Level>, at: Slots, at': Slots, x: u32, t: nat)
    requires forall i :: 0 <= i < |levels| ==> NotQueued(levels[i].orders, t)
    requires at' == at[t := x] && x != INVALID && forall u :: u in at ==> at[u] != x
    ensures UnusedBy(levels, at', x)
  {
    forall i | 0 <= i < |levels| ensures x !in SlotsOf(levels[i].orders, at') {
      forall j | 0 <= j < |levels[i].orders| ensures SlotOf(at', levels[i].orders[j]) != x {
        assert NotQueued(levels[i].orders, t);
      }
    }
  }

  lemma UsedLayout(m: Mem, s: Sides, at: Slots, x: u32, v: OrderSlot, t: nat)
    requires Layout(m, s, at) && Absent(s, t) && x as int < MAX_ORDERS
    requires forall u :: u in at ==> at[u] != x
    ensures |m.os| == MAX_ORDERS && Layout(m.(os := m.os[x := v]), s, at[t := x])
  {
    var at' := at[t := x];
    LayoutReassigned(m, s, at, at', t);
    UsedUnseen(s.bids, at, at', x, t);
    UsedUnseen(s.asks, at, at', x, t);
    LayoutOverwritten(m, s, at', x, v);
  }

  lemma UsedNaming(h: Hash, g: Image, s: Sides, index: map<nat, Ref>, at: Slots, n: nat, x: u32, g': Image)
    requires Naming(h, g, s, index, at) && Absent(s, n)
    requires g'.index == g.index && g'.mem.bidMap == g.mem.bidMap && g'.mem.askMap == g.mem.askMap
    ensures Naming(h, g', s, index, at[n := x])
  {
    forall k | k in index ensures index[k].ticket in at && index[k].ticket != n {
      ResidentPresent(h, s, k, index[k], n);
      assert EntryOk(g.index[k], index, k, at, g.mem.bidMap, g.mem.askMap);
    }
    IndexKept(g.index, index, at, g.mem.bidMap, g.mem.askMap, at[n := x], g.mem.bidMap, g.mem.askMap);
  }

  lemma UsedPools(g: Image, s: Sides, at: Slots, n: nat, x: u32, v: OrderSlot)
    requires Pools(g, s, at, n, 0) && g.orderTop > 0 && x == g.orderFree[g.orderTop - 1] && |g.mem.os| == MAX_ORDERS
    ensures x as int < MAX_ORDERS && forall u :: u in at ==> at[u] != x
    ensures Pools(OrderSlotUsed(g, x, v), s, at[n := x], n + 1, 1)
  {
    OrderAllocated(g.orderFree, g.orderTop, at, n, n);
  }

  lemma UsedInv(h: Hash, g: Image, b: Book, at: Slots, n: nat, x: u32, v: OrderSlot)
    requires Inv(h, g, b, at, n, 0) && g.orderTop > 0 && x == g.orderFree[g.orderTop - 1]
    ensures x as int < |g.mem.os| == MAX_ORDERS && Absent(b.sides, n)
    ensures Inv(h, OrderSlotUsed(g, x, v), b, at[n := x], n + 1, 1)
  {
    OlderIsAbsent(b.sides, n);
    OlderMonotone(b.sides, n, n + 1);
    UsedPools(g, b.sides, at, n, x, v);
    UsedLayout(g.mem, b.sides, at, x, v, n);
    UsedNaming(h, g, b.sides, b.index, at, n, x, OrderSlotUsed(g, x, v));
  }

  // ----- a written order joins its queue and its bucket names it

  function BucketSet(g: Image, m': Mem, k: nat, e: IndexEntry): Image
    requires k < |g.index|
  {
    g.(mem := m', index := g.index[k := e])
  }

  lemma JoinedNaming(h: Hash, g: Image, s: Sides, index: map<nat, Ref>, at: Slots, sd: Side, i: nat, o: Order, l: u32)
    requires Naming(h, g, s, index, at) && i < |s.Get(sd)| && o.ticket in at && at[o.ticket] != INVALID
    requires l == MapAt(g.mem.Map(sd), s.Get(sd)[i].price)
    ensures var k := Bucket(h, o.id);
            var r := Ref(sd, s.Get(sd)[i].price, o.ticket);
            && |g.index| == MAX_ORDERS
            && RefsOk(h, s.Set(sd, Append(s.Get(sd), i, o)), index[k := r])
            && IndexOk(g.index[k := IndexEntry(at[o.ticket], l, sd)], index[k := r], at, g.mem.bidMap, g.mem.askMap)
  {
    var levels := s.Get(sd);
    var k, r := Bucket(h, o.id), Ref(sd, levels[i].price, o.ticket);
    var s' := s.Set(sd, Append(levels, i, o));
    RefsReplaced(h, s, index, sd, i, Append(levels, i, o)[i]);
    ShowResident(h, s', k, r, i, |levels[i].orders|);
    IndexSet(g.index, index, at, g.mem.bidMap, g.mem.askMap, k, r, IndexEntry(at[o.ticket], l, sd));
  }

  lemma JoinedPools(g: Image, m': Mem, s: Sides, at: Slots, n: nat, sd: Side, i: nat, o: Order, k: nat, e: IndexEntry,
                    levels: seq<Level>, levels': seq<Level>)
    requires Pools(g, s, at, n, 1) && k < |g.index| && levels == s.Get(sd) && i < |levels|
    requires levels' == Append(levels, i, o)
    requires m'.bidMap == g.mem.bidMap && m'.askMap == g.mem.askMap
    ensures Pools(BucketSet(g, m', k, e), s.Set(sd, levels'), at, n, 0)
  {
    LiveReplaced(s, sd, i, levels'[i]);
    assert levels' == levels[i := levels'[i]];
    var s' := s.Set(sd, levels');
    assert RefsOf(m'.bidMap, s'.bids) == RefsOf(g.mem.bidMap, s.bids);
    assert RefsOf(m'.askMap, s'.asks) == RefsOf(g.mem.askMap, s.asks);
  }

  lemma JoinedInv(h: Hash, g: Image, m': Mem, b: Book, at: Slots, n: nat, sd: Side, i: nat, o: Order,
                  l: u32, levels: seq<Level>, levels': seq<Level>)
    requires Inv(h, g, b, at, n, 1)
    requires levels == b.sides.Get(sd) && i < |levels| && levels' == Append(levels, i, o)
    requires o.ticket in at && o.ticket < n && at[o.ticket] != INVALID
    requires Layout(m', b.sides.Set(sd, levels'), at)
    requires l == RefsOf(g.mem.Map(sd), levels)[i] && OneTotal(g.mem, m', l, levels'[i])
    requires m'.bidMap == g.mem.bidMap && m'.askMap == g.mem.askMap
    ensures |g.index| == MAX_ORDERS
    ensures Inv(h, BucketSet(g, m', Bucket(h, o.id), IndexEntry(at[o.ticket], l, sd)),
                b.(sides := b.sides.Set(sd, levels'),
                   index := b.index[Bucket(h, o.id) := Ref(sd, levels[i].price, o.ticket)]), at, n, 0)
  {
    var s := b.sides;
    JoinedNaming(h, g, s, b.index, at, sd, i, o, l);
    JoinedPools(g, m', s, at, n, sd, i, o, Bucket(h, o.id), IndexEntry(at[o.ticket], l, sd), levels, levels');
    QueueSums(g.mem, m', s, at, sd, i, l, levels, levels');
    assert OlderQueue(levels'[i].orders, n) by { assert OlderQueue(levels[i].orders, n); }
    OlderQueueReplaced(s, n, sd, i, levels'[i]);
  }

  // ----- dequeue, clear the bucket, free the slot, all in one

  lemma SameReduced(levels: seq<Level>, i: nat, j: nat)
    requires i < |levels| && j < |levels[i].orders|
    ensures Reduced(levels, i, j, levels[i].orders[j].remaining) == levels
  {
    var q := levels[i].orders;
    assert q[j := q[j].(remaining := q[j].remaining)] == q;
  }

  lemma TotalWritten(m: Mem, s: Sides, at: Slots, sd: Side, i: nat, j: nat, w: u64, l: u32, x: u32, levels: seq<Level>)
    requires Layout(m, s, at) && Located(m, s, at, sd, i, j, l, x) && levels == s.Get(sd)
    ensures Layout(MemReduced(m, l, x, levels[i].orders[j].remaining, w), s, at)
    ensures m.os[x].remaining == levels[i].orders[j].remaining
  {
    Locate(m, s, at, sd, i, j);
    ReducedLayout(m, s, at, sd, i, j, levels[i].orders[j].remaining, w);
    SameReduced(levels, i, j);
    assert s.Set(sd, levels) == s;
  }

  lemma TakenOneTotal(m: Mem, m1: Mem, m': Mem, l: u32, x: u32, v: u64, w: u64, lv: Level)
    requires l as int < |m.ls| && x as int < |m.os| && m1 == MemReduced(m, l, x, v, w)
    requires m' == Dequeued(m1, l, x) && w as int == Total(lv.orders) % TWO64
    ensures OneTotal(m, m', l, lv) && m'.bidMap == m.bidMap && m'.askMap == m.askMap
  {
  }

  lemma TakeOutInv(h: Hash, g: Image, m1: Mem, m': Mem, b: Book, at: Slots, n: nat, sd: Side, i: nat, j: nat,
                   l: u32, x: u32, w: u64, levels: seq<Level>, levels': seq<Level>, o: Order)
    requires Inv(h, g, b, at, n, 0) && Located(g.mem, b.sides, at, sd, i, j, l, x)
    requires levels == b.sides.Get(sd) && levels' == Taken(levels, i, j) && o == levels[i].orders[j]
    requires m1 == MemReduced(g.mem, l, x, o.remaining, w) && w as int == Total(levels'[i].orders) % TWO64
    requires m' == Dequeued(m1, l, x)
    ensures o.ticket in at && at[o.ticket] == x && g.orderTop as int < |g.orderFree| < TWO32 && |g.index| == MAX_ORDERS
    ensures Inv(h, OrderSlotFreed(g, m', Bucket(h, o.id), x),
                b.(sides := b.sides.Set(sd, levels'), index := b.index - {Bucket(h, o.id)}), at - {o.ticket}, n, 0)
  {
    Locate(g.mem, b.sides, at, sd, i, j);
    TotalWritten(g.mem, b.sides, at, sd, i, j, w, l, x, levels);
    DequeuedLayout(m1, b.sides, at, sd, i, j);
    TakenOneTotal(g.mem, m1, m', l, x, o.remaining, w, levels'[i]);
    TakenInv(h, g, m', b, at, n, sd, i, j, l, levels, levels', o);
  }

  // ----- ranges of neighbours, for bounds checks

  lemma NeighboursInRange(m: Mem, s: Sides, at: Slots, sd: Side, i: nat, j: nat)
    requires Layout(m, s, at) && i < |s.Get(sd)| && j < |s.Get(sd)[i].orders|
    ensures var x := SlotOf(at, s.Get(sd)[i].orders[j]);
            && x as int < |m.os|
            && (m.os[x].prev == INVALID || m.os[x].prev as int < |m.os|)
            && (m.os[x].next == INVALID || m.os[x].next as int < |m.os|)
            && m.os[x].prev != x && m.os[x].next != x
  {
    LayoutSplit(m, s, at, sd);
    var lv := s.Get(sd)[i];
    assert QueueOk(m.os, sd, lv, at);
    var xs := SlotsOf(lv.orders, at);
    SlotsDistinct(lv.orders, at) by {
      forall k | 0 <= k < |xs| ensures lv.orders[k].ticket in at { assert Held(m.os, sd, lv.price, lv.orders[k], at); }
    }
    assert Node(OrderLinks(m.os), xs, j);
    if j > 0 { assert Node(OrderLinks(m.os), xs, j - 1); }
    if j + 1 < |xs| { assert Node(OrderLinks(m.os), xs, j + 1); }
  }

  lemma LevelNeighbours(m: Mem, s: Sides, at: Slots, sd: Side, i: nat)
    requires Layout(m, s, at) && i < |s.Get(sd)|
    ensures var l := RefsOf(m.Map(sd), s.Get(sd))[i];
            && l as int < |m.ls|
            && (m.ls[l].prevLevel == INVALID || m.ls[l].prevLevel as int < |m.ls|)
            && (m.ls[l].nextLevel == INVALID || m.ls[l].nextLevel as int < |m.ls|)
            && m.ls[l].prevLevel != l && m.ls[l].nextLevel != l
            && m.Head(sd) as int < |m.ls|
  {
    LayoutSplit(m, s, at, sd);
    var refs := RefsOf(m.Map(sd), s.Get(sd));
    RefsDistinct(m.ls, m.Map(sd), sd, s.Get(sd), at);
    assert Node(LevelLinks(m.ls), refs, 0);
    assert Node(LevelLinks(m.ls), refs, i);
    if i > 0 { assert Node(LevelLinks(m.ls), refs, i - 1); }
    if i + 1 < |refs| { assert Node(LevelLinks(m.ls), refs, i + 1); }
  }

  /** The head of a side, its price and whether its queue is empty, as the engine reads them. */
  lemma HeadFacts(m: Mem, s: Sides, at: Slots, sd: Side)
    requires Layout(m, s, at)
    ensures (m.Head(sd) == INVALID) == (s.Get(sd) == [])
    ensures s.Get(sd) != [] ==>
              var l := m.Head(sd);
              var q := s.Get(sd)[0].orders;
              && l == RefsOf(m.Map(sd), s.Get(sd))[0] && l as int < |m.ls|
              && m.ls[l].price == s.Get(sd)[0].price
              && (m.ls[l].head == INVALID) == (q == [])
              && (q != [] ==> Located(m, s, at, sd, 0, 0, l, m.ls[l].head))
  {
    LayoutSplit(m, s, at, sd);
    if s.Get(sd) != [] {
      LocateLevel(m, s, at, sd, 0);
      if s.Get(sd)[0].orders != [] { Locate(m, s, at, sd, 0, 0); }
    }
  }

  // ----- an empty level leaves and the best price is read off the new head

  function BestPrice(m: Mem, sd: Side): u32 {
    if m.Head(sd) as int < |m.ls| then m.ls[m.Head(sd)].price else if sd.Buy? then 0 else 10001
  }

  function LevelGone(g: Image, sd: Side, l: u32): Image
    requires l as int < |g.mem.ls| && g.mem.ls[l].price as int < |g.mem.Map(sd)|
    requires g.levelTop as int < |g.levelFree| < TWO32
  {
    var g' := LevelSlotFreed(g, LevelRemoved(g.mem, sd, l), l);
    if sd.Buy? then g'.(bestBid := BestPrice(g'.mem, sd)) else g'.(bestAsk := BestPrice(g'.mem, sd))
  }

  lemma InvBest(h: Hash, g: Image, b: Book, at: Slots, n: nat, limbo: nat, bid: u32, ask: u32)
    requires Inv(h, g, b, at, n, limbo)
    ensures Inv(h, g.(bestBid := bid, bestAsk := ask), b, at, n, limbo)
  {
  }

  /** Bounds of the slots that removing level i reads and writes. */
  lemma GoneInRange(h: Hash, g: Image, b: Book, at: Slots, n: nat, sd: Side, i: nat, l: u32)
    requires Good(h, g, b, at, n) && i < |b.sides.Get(sd)| && l == RefsOf(g.mem.Map(sd), b.sides.Get(sd))[i]
    ensures l as int < |g.mem.ls|
    ensures g.mem.ls[l].prevLevel == INVALID || g.mem.ls[l].prevLevel as int < |g.mem.ls|
    ensures g.mem.ls[l].nextLevel == INVALID || g.mem.ls[l].nextLevel as int < |g.mem.ls|
    ensures g.mem.ls[l].prevLevel != l && g.mem.ls[l].nextLevel != l && g.mem.Head(sd) as int < |g.mem.ls|
  {
    LevelNeighbours(g.mem, b.sides, at, sd, i);
  }

  lemma GoneGood(h: Hash, g: Image, b: Book, at: Slots, n: nat, sd: Side, i: nat, l: u32, levels: seq<Level>)
    requires Good(h, g, b, at, n)
    requires levels == b.sides.Get(sd) && i < |levels| && levels[i].orders == []
    requires l == RefsOf(g.mem.Map(sd), levels)[i]
    ensures g.levelTop as int < |g.levelFree| < TWO32 && l as int < |g.mem.ls|
    ensures g.mem.ls[l].price as int < |g.mem.Map(sd)|
    ensures Good(h, LevelGone(g, sd, l), b.(sides := b.sides.Set(sd, Without(levels, i))), at, n)
  {
    RemovedInv(h, g, b, at, n, 0, sd, i, l, levels);
    var g', g'' := LevelSlotFreed(g, LevelRemoved(g.mem, sd, l), l), LevelGone(g, sd, l);
    var b' := b.(sides := b.sides.Set(sd, Without(levels, i)));
    InvBest(h, g', b', at, n, 0, g''.bestBid, g''.bestAsk);
    assert g'' == g'.(bestBid := g''.bestBid, bestAsk := g''.bestAsk);
    assert Layout(g'.mem, b'.sides, at);
    RemovedBest(g'.mem, b'.sides, at, sd);
  }

  // ----- the front order of a side trades

  /** What the engine reads at the head of side sd. */
  lemma GoodHead(h: Hash, g: Image, b: Book, at: Slots, n: nat, sd: Side)
    requires Good(h, g, b, at, n)
    ensures (g.mem.Head(sd) == INVALID) == (b.sides.Get(sd) == [])
    ensures b.sides.Get(sd) != [] ==>
              var l := g.mem.Head(sd);
              var lv := b.sides.Get(sd)[0];
              && l == RefsOf(g.mem.Map(sd), b.sides.Get(sd))[0] && l as int < |g.mem.ls|
              && g.mem.ls[l].price == lv.price
              && (g.mem.ls[l].head == INVALID) == (lv.orders == [])
  {
    HeadFacts(g.mem, b.sides, at, sd);
  }

  lemma GoodFront(h: Hash, g: Image, b: Book, at: Slots, n: nat, sd: Side, l: u32, x: u32)
    requires Good(h, g, b, at, n) && b.sides.Get(sd) != [] && b.sides.Get(sd)[0].orders != []
    requires l == g.mem.Head(sd) && l as int < |g.mem.ls| && x == g.mem.ls[l].head
    ensures Located(g.mem, b.sides, at, sd, 0, 0, l, x)
    ensures Contents(g.mem.os[x]) == ContentsFor(sd, b.sides.Get(sd)[0].price, b.sides.Get(sd)[0].orders[0])
    ensures g.mem.ls[l].count > 0 && g.orderTop as int <= MAX_ORDERS
    ensures g.mem.os[x].prev == INVALID || g.mem.os[x].prev as int < |g.mem.os|
    ensures g.mem.os[x].next == INVALID || g.mem.os[x].next as int < |g.mem.os|
    ensures g.mem.os[x].prev != x && g.mem.os[x].next != x
  {
    HeadFacts(g.mem, b.sides, at, sd);
    Locate(g.mem, b.sides, at, sd, 0, 0);
    NeighboursInRange(g.mem, b.sides, at, sd, 0, 0);
  }

  function Traded(g: Image, l: u32, x: u32, d: u64): Image
    requires l as int < |g.mem.ls| && x as int < |g.mem.os| && d <= g.mem.os[x].remaining
  {
    g.(mem := MemReduced(g.mem, l, x, g.mem.os[x].remaining - d, WrapSub(g.mem.ls[l].totalQty, d)))
  }

  /** A fill is numbered. */
  lemma CountedGood(h: Hash, g: Image, b: Book, at: Slots, n: nat)
    requires Good(h, g, b, at, n)
    ensures WrapAdd(g.fillSequence, 1) == (b.fillCount + 1) % TWO64
    ensures Good(h, g.(fillSequence := WrapAdd(g.fillSequence, 1)), b.(fillCount := b.fillCount + 1), at, n)
  {
    WrapAddMod(b.fillCount, 1);
  }

  lemma FrontRemaining(h: Hash, g: Image, b: Book, at: Slots, n: nat, sd: Side, l: u32, x: u32)
    requires Inv(h, g, b, at, n, 0) && Located(g.mem, b.sides, at, sd, 0, 0, l, x)
    ensures g.mem.os[x].remaining == b.sides.Get(sd)[0].orders[0].remaining
    ensures g.mem.ls[l].totalQty as int == Total(b.sides.Get(sd)[0].orders) % TWO64
  {
    Locate(g.mem, b.sides, at, sd, 0, 0);
    assert g.mem.os[x].remaining == Contents(g.mem.os[x]).remaining;
    SumsAt(g.mem, b.sides, sd, 0);
  }

  lemma FrontReducedTotal(h: Hash, g: Image, b: Book, at: Slots, n: nat, sd: Side, l: u32, x: u32, d: u64)
    requires Inv(h, g, b, at, n, 0) && Located(g.mem, b.sides, at, sd, 0, 0, l, x)
    requires d <= b.sides.Get(sd)[0].orders[0].remaining
    ensures WrapSub(g.mem.ls[l].totalQty, d) ==
            Total(Reduced(b.sides.Get(sd), 0, 0, b.sides.Get(sd)[0].orders[0].remaining - d)[0].orders) % TWO64
  {
    hide Layout, Pools, Naming, Counters, Total, Reduced, RefsOf;
    ReducedTotal(g.mem, b.sides, sd, 0, 0, d, l);
  }

  lemma TradedGood(h: Hash, g: Image, b: Book, at: Slots, n: nat, sd: Side, l: u32, x: u32, d: u64,
                   levels: seq<Level>, levels': seq<Level>, v: u64)
    requires Good(h, g, b, at, n) && Located(g.mem, b.sides, at, sd, 0, 0, l, x)
    requires levels == b.sides.Get(sd) && d <= levels[0].orders[0].remaining && d <= g.mem.os[x].remaining
    requires v == levels[0].orders[0].remaining - d && levels' == Reduced(levels, 0, 0, v)
    ensures Good(h, Traded(g, l, x, d), b.(sides := b.sides.Set(sd, levels')), at, n)
  {
    hide Inv;
    var w := WrapSub(g.mem.ls[l].totalQty, d);
    var m' := MemReduced(g.mem, l, x, v, w);
    var b' := b.(sides := b.sides.Set(sd, levels'));
    FrontRemaining(h, g, b, at, n, sd, l, x);
    FrontReducedTotal(h, g, b, at, n, sd, l, x, d);
    ReducedInv(h, g, m', b, at, n, 0, sd, 0, 0, l, x, levels, levels', v, w);
    BestReplaced(g.bestBid, g.bestAsk, b.sides, sd, 0, levels'[0]);
    assert levels' == levels[0 := levels'[0]];
  }

  function Retired(g: Image, l: u32, x: u32, k: nat): Image
    requires l as int < |g.mem.ls| && x as int < |g.mem.os|
    requires g.orderTop as int < |g.orderFree| < TWO32 && k < |g.index|
  {
    OrderSlotFreed(g, Dequeued(g.mem, l, x), k, x)
  }

  lemma RetiredGood(h: Hash, g: Image, b: Book, at: Slots, n: nat, sd: Side, l: u32, x: u32,
                    levels: seq<Level>, levels': seq<Level>, o: Order)
    requires Good(h, g, b, at, n) && Located(g.mem, b.sides, at, sd, 0, 0, l, x)
    requires levels == b.sides.Get(sd) && o == levels[0].orders[0] && o.remaining == 0 && levels' == Taken(levels, 0, 0)
    ensures o.ticket in at && g.orderTop as int < |g.orderFree| < TWO32 && |g.index| == MAX_ORDERS
    ensures Good(h, Retired(g, l, x, Bucket(h, o.id)),
                 b.(sides := b.sides.Set(sd, levels'), index := b.index - {Bucket(h, o.id)}), at - {o.ticket}, n)
  {
    hide Inv;
    var w := g.mem.ls[l].totalQty;
    FrontRemaining(h, g, b, at, n, sd, l, x);
    var m1 := MemReduced(g.mem, l, x, o.remaining, w);
    assert m1 == g.mem by { assert m1.os == g.mem.os && m1.ls == g.mem.ls; }
    TotalWithout(levels[0].orders, 0);
    TakeOutInv(h, g, m1, Dequeued(g.mem, l, x), b, at, n, sd, 0, 0, l, x, w, levels, levels', o);
    BestReplaced(g.bestBid, g.bestAsk, b.sides, sd, 0, levels'[0]);
    assert levels' == levels[0 := levels'[0]];
  }

  /** One turn of the matching loop is a trade, then, if the maker is done, its retirement. */
  lemma FillFrontInSteps(h: Hash, t: Taker, m: MatchState, levels: seq<Level>, qty: u64, v: u64)
    requires levels == RestingSide(t, m) && levels != [] && levels[0].orders != []
    requires qty == Min(m.rem, levels[0].orders[0].remaining) && v == levels[0].orders[0].remaining - qty
    ensures var sd := t.side.Opposite();
            var maker := levels[0].orders[0];
            var traded := m.book.(sides := m.book.sides.Set(sd, Reduced(levels, 0, 0, v)),
                                  fillCount := m.book.fillCount + 1);
            var book := if v > 0 then traded
                        else traded.(sides := traded.sides.Set(sd, Taken(Reduced(levels, 0, 0, v), 0, 0)),
                                     index := m.book.index - {Bucket(h, maker.id)});
            FillFront(h, t, m) ==
              MatchState(book, m.rem - qty,
                         m.trades + [Trade(maker.ticket, t.ticket,
                                           FillOf(t, levels[0].price, maker, qty, m.book.fillCount + 1))])
  {
    var q := levels[0].orders;
    var q1 := q[0 := q[0].(remaining := v)];
    assert Without(q1, 0) == q[1..];
    if v == 0 {
      assert Taken(Reduced(levels, 0, 0, v), 0, 0) == levels[0 := levels[0].(orders := q[1..])];
    }
  }

  /** Everything the engine reads off the front order of side sd. */
  lemma GoodMaker(h: Hash, g: Image, b: Book, at: Slots, n: nat, sd: Side)
    requires Good(h, g, b, at, n) && b.sides.Get(sd) != [] && b.sides.Get(sd)[0].orders != []
    ensures var l := g.mem.Head(sd);
            var lv := b.sides.Get(sd)[0];
            var maker := lv.orders[0];
            && l as int < |g.mem.ls| && g.mem.ls[l].price == lv.price
            && var x := g.mem.ls[l].head;
               && Located(g.mem, b.sides, at, sd, 0, 0, l, x)
               && g.mem.os[x].remaining == maker.remaining && g.mem.os[x].orderId == maker.id
               && g.mem.os[x].userId == maker.user
  {
    GoodHead(h, g, b, at, n, sd);
    var l := g.mem.Head(sd);
    GoodFront(h, g, b, at, n, sd, l, g.mem.ls[l].head);
    assert Contents(g.mem.os[g.mem.ls[l].head])
           == ContentsFor(sd, b.sides.Get(sd)[0].price, b.sides.Get(sd)[0].orders[0]);
  }

  /** Matching stops exactly where the engine's loop stops. */
  lemma MatchStops(h: Hash, t: Taker, m: MatchState)
    requires Filled(RestingSide(t, m))
    requires m.rem == 0 || RestingSide(t, m) == [] || !Crosses(t, RestingSide(t, m)[0].price)
    ensures MatchFrom(h, t, m) == m
  {
  }

  /** One turn of the inner loop is one step of MatchFrom and brings it closer to its end. */
  lemma MatchTrades(h: Hash, t: Taker, m: MatchState)
    requires RestingSide(t, m) != [] && RestingSide(t, m)[0].orders != [] && FilledTail(RestingSide(t, m))
    requires m.rem > 0 && Crosses(t, RestingSide(t, m)[0].price)
    ensures MatchFrom(h, t, FillFront(h, t, m)) == MatchFrom(h, t, m)
    ensures var before, after := RestingSide(t, m), RestingSide(t, FillFront(h, t, m));
            && FilledTail(after) && |after| == |before| && after[0].price == before[0].price
            && (OrderCount(after) < OrderCount(before)
                || (FillFront(h, t, m).rem == 0 && OrderCount(after) <= OrderCount(before)))
  {
    var levels := RestingSide(t, m);
    var q := levels[0].orders;
    CountReplaced(levels, 0, levels[0].(orders := FrontTraded(q, Min(m.rem, q[0].remaining))));
  }

  lemma MatchDrops(h: Hash, t: Taker, m: MatchState)
    requires RestingSide(t, m) != [] && RestingSide(t, m)[0].orders == [] && FilledTail(RestingSide(t, m))
    ensures var m' := m.(book := m.book.(sides := m.book.sides.Set(t.side.Opposite(), Without(RestingSide(t, m), 0))));
            MatchFrom(h, t, m') == MatchFrom(h, t, m) && Filled(RestingSide(t, m'))
  {
    assert Without(RestingSide(t, m), 0) == RestingSide(t, m)[1..];
  }

  // ----- resting the remainder of a limit order

  lemma ArriveGood(h: Hash, g: Image, b: Book, at: Slots, n: nat, sequence: u64)
    requires Good(h, g, b, at, n)
    ensures Good(h, g.(sequence := sequence), Arrive(b, sequence), at, n)
  {
  }

  lemma GoodMonotone(h: Hash, g: Image, b: Book, at: Slots, n: nat, m: nat)
    requires Good(h, g, b, at, n) && n <= m
    ensures Good(h, g, b, at, m)
  {
    OlderMonotone(b.sides, n, m);
  }

  /** The order pool is empty exactly when as many orders rest as the pool has slots. */
  lemma GoodPool(h: Hash, g: Image, b: Book, at: Slots, n: nat)
    requires Good(h, g, b, at, n)
    ensures g.orderTop as int == MAX_ORDERS - Live(b.sides)
    ensures |g.orderFree| == MAX_ORDERS && |g.mem.os| == MAX_ORDERS
    ensures g.orderTop > 0 ==> g.orderFree[g.orderTop - 1] as int < MAX_ORDERS
  {
  }

  /** An order slot is taken but its order is not in a queue yet. */
  ghost predicate Pending(h: Hash, g: Image, b: Book, at: Slots, n: nat) {
    Inv(h, g, b, at, n, 1)
  }

  lemma UsedPending(h: Hash, g: Image, b: Book, at: Slots, n: nat, x: u32, v: OrderSlot)
    requires Good(h, g, b, at, n) && g.orderTop > 0 && x == g.orderFree[g.orderTop - 1]
    ensures x as int < |g.mem.os|
    ensures Pending(h, OrderSlotUsed(g, x, v), b, at[n := x], n + 1)
  {
    UsedInv(h, g, b, at, n, x, v);
  }

  /** The price map answers whether a price has a level, and which. */
  lemma MapNames(ls: seq<LevelSlot>, pm: seq<u32>, sd: Side, levels: seq<Level>, at: Slots, price: u32)
    requires Sorted(sd, levels) && MapExact(pm, levels) && Headers(ls, RefsOf(pm, levels), levels, at)
    requires |ls| == MAX_LEVELS && price as int < MAP_SIZE
    ensures pm[price] == INVALID <==> !HasLevelAt(levels, Position(sd, levels, price), price)
    ensures pm[price] != INVALID ==> pm[price] == RefsOf(pm, levels)[Position(sd, levels, price)]
  {
    if pm[price] != INVALID {
      var k :| 0 <= k < |levels| && levels[k].price == price;
      PositionOfPrice(sd, levels, k);
    }
  }

  /** What find_or_create_level reads before it walks the level list. */
  lemma PendingWalk(h: Hash, g: Image, b: Book, at: Slots, n: nat, sd: Side, price: u32)
    requires Pending(h, g, b, at, n) && price as int < MAP_SIZE
    ensures var levels := b.sides.Get(sd);
            var refs := RefsOf(g.mem.Map(sd), levels);
            var i := Position(sd, levels, price);
            && |g.mem.Map(sd)| == MAP_SIZE
            && g.mem.Head(sd) == At(refs, 0)
            && (g.mem.Map(sd)[price] == INVALID <==> !HasLevelAt(levels, i, price))
            && (g.mem.Map(sd)[price] != INVALID ==> g.mem.Map(sd)[price] == refs[i])
    ensures |g.levelFree| == MAX_LEVELS >= g.levelTop as int
    ensures g.levelTop > 0 ==> g.levelFree[g.levelTop - 1] as int < MAX_LEVELS
  {
    LayoutSplit(g.mem, b.sides, at, sd);
    MapNames(g.mem.ls, g.mem.Map(sd), sd, b.sides.Get(sd), at, price);
  }

  lemma PendingStep(h: Hash, g: Image, b: Book, at: Slots, n: nat, sd: Side, c: nat)
    requires Pending(h, g, b, at, n) && c < |b.sides.Get(sd)|
    ensures var refs := RefsOf(g.mem.Map(sd), b.sides.Get(sd));
            && refs[c] as int < |g.mem.ls| && refs[c] != INVALID
            && g.mem.ls[refs[c]].price == b.sides.Get(sd)[c].price
            && g.mem.ls[refs[c]].nextLevel == At(refs, c + 1)
            && (g.levelTop > 0 ==> |g.levelFree| == MAX_LEVELS && refs[c] != g.levelFree[g.levelTop - 1])
  {
    var refs := RefsOf(g.mem.Map(sd), b.sides.Get(sd));
    LayoutSplit(g.mem, b.sides, at, sd);
    LocateLevel(g.mem, b.sides, at, sd, c);
    assert Node(LevelLinks(g.mem.ls), refs, c);
    if g.levelTop > 0 {
      FreeLevelUnused(g, b.sides, at, n, 1);
      assert refs[c] in refs;
    }
  }

  /** The distance to prev is in range too: both neighbours of the new level exist or are absent. */
  lemma PendingEnds(h: Hash, g: Image, b: Book, at: Slots, n: nat, sd: Side, c: nat)
    requires Pending(h, g, b, at, n) && c <= |b.sides.Get(sd)|
    ensures var refs := RefsOf(g.mem.Map(sd), b.sides.Get(sd));
            && (At(refs, c) == INVALID <==> c == |b.sides.Get(sd)|)
            && (At(refs, c - 1) == INVALID <==> c == 0)
            && (At(refs, c) != INVALID ==> At(refs, c) as int < MAX_LEVELS)
            && (At(refs, c - 1) != INVALID ==> At(refs, c - 1) as int < MAX_LEVELS)
  {
    if c < |b.sides.Get(sd)| { PendingStep(h, g, b, at, n, sd, c); }
    if c > 0 { PendingStep(h, g, b, at, n, sd, c - 1); }
  }

  /** The level pool never runs dry: an uncrossed book has fewer than ten thousand levels. */
  lemma PendingLevelPool(h: Hash, g: Image, b: Book, at: Slots, n: nat)
    requires Pending(h, g, b, at, n) && Uncrossed(b.sides)
    ensures g.levelTop > 0
  {
    LayoutSplit(g.mem, b.sides, at, Buy);
    LayoutSplit(g.mem, b.sides, at, Sell);
    LevelsBounded(b.sides);
  }

  lemma PendingAdded(h: Hash, g: Image, b: Book, at: Slots, n: nat, sd: Side, price: u32, l: u32, levels: seq<Level>,
                     i: nat)
    requires Pending(h, g, b, at, n) && g.levelTop as int > 0 && |g.levelFree| == MAX_LEVELS >= g.levelTop as int
    requires l == g.levelFree[g.levelTop - 1] && 0 < price < MAX_PRICE
    requires levels == b.sides.Get(sd) && i == Position(sd, levels, price) && !HasLevelAt(levels, i, price)
    ensures l as int < |g.mem.ls| && |g.mem.Map(sd)| == MAP_SIZE
    ensures var refs := RefsOf(g.mem.Map(sd), levels);
            var m' := LevelAdded(g.mem, sd, l, price, At(refs, i - 1), At(refs, i));
            && Pending(h, LevelSlotUsed(g, m'), b.(sides := b.sides.Set(sd, WithLevel(sd, levels, price))), at, n)
            && MapAt(m'.Map(sd), price) == l
  {
    LayoutSplit(g.mem, b.sides, at, sd);
    NewLevelSorted(sd, levels, price);
    var refs := RefsOf(g.mem.Map(sd), levels);
    AddedInv(h, g, b, at, n, 1, sd, i, price, l, At(refs, i - 1), At(refs, i), levels);
  }

  // ----- the written order joins its level

  /** Order o is written in its slot, is in no queue, and is newer than every resting order. */
  ghost predicate Waiting(g: Image, b: Book, at: Slots, n: nat, sd: Side, price: u32, o: Order) {
    && Held(g.mem.os, sd, price, o, at)
    && n == o.ticket + 1
    && OlderSides(b.sides, o.ticket)
  }

  lemma UsedWaiting(g: Image, b: Book, at: Slots, sd: Side, price: u32, o: Order, x: u32, v: OrderSlot)
    requires g.orderTop > 0 && x as int < |g.mem.os| && OlderSides(b.sides, o.ticket)
    requires Contents(v) == ContentsFor(sd, price, o)
    ensures Waiting(OrderSlotUsed(g, x, v), b, at[o.ticket := x], o.ticket + 1, sd, price, o)
  {
  }

  lemma WithLevelOlder(s: Sides, n: nat, sd: Side, price: u32)
    requires OlderSides(s, n)
    ensures OlderSides(s.Set(sd, WithLevel(sd, s.Get(sd), price)), n)
  {
    var levels := s.Get(sd);
    OlderInserted(levels, n, Position(sd, levels, price), Level(price, []));
  }

  function Joined(g: Image, l: u32, x: u32, w: u64, k: nat, sd: Side): Image
    requires l as int < |g.mem.ls| && x as int < |g.mem.os| && k < |g.index|
  {
    BucketSet(g, Enqueued(g.mem, l, x, w), k, IndexEntry(x, l, sd))
  }

  lemma JoinInRange(h: Hash, g: Image, b: Book, at: Slots, n: nat, sd: Side, i: nat, l: u32)
    requires Pending(h, g, b, at, n) && i < |b.sides.Get(sd)| && l == RefsOf(g.mem.Map(sd), b.sides.Get(sd))[i]
    ensures l as int < |g.mem.ls| == MAX_LEVELS && g.mem.ls[l].count as int < MAX_ORDERS
    ensures g.mem.ls[l].tail == INVALID || g.mem.ls[l].tail as int < MAX_ORDERS
    ensures g.mem.ls[l].totalQty as int == Total(b.sides.Get(sd)[i].orders) % TWO64
    ensures |b.sides.Get(sd)[i].orders| < MAX_ORDERS
  {
    var lv := b.sides.Get(sd)[i];
    LocateLevel(g.mem, b.sides, at, sd, i);
    LiveReplaced(b.sides, sd, i, lv);
    SumsAt(g.mem, b.sides, sd, i);
    if lv.orders != [] { Locate(g.mem, b.sides, at, sd, i, |lv.orders| - 1); }
  }

  lemma JoinLayout(h: Hash, g: Image, b: Book, at: Slots, n: nat, sd: Side, i: nat, o: Order, l: u32, w: u64,
                   levels: seq<Level>, levels': seq<Level>)
    requires Pending(h, g, b, at, n)
    requires levels == b.sides.Get(sd) && i < |levels| && levels' == Append(levels, i, o)
    requires |levels[i].orders| < MAX_ORDERS && l == RefsOf(g.mem.Map(sd), levels)[i]
    requires Waiting(g, b, at, n, sd, levels[i].price, o)
    ensures l as int < |g.mem.ls| && at[o.ticket] as int < |g.mem.os| == MAX_ORDERS
    ensures Layout(Enqueued(g.mem, l, at[o.ticket], w), b.sides.Set(sd, levels'), at)
  {
    OlderIsAbsent(b.sides, o.ticket);
    assert OlderQueue(levels[i].orders, o.ticket);
    EnqueuedLayout(g.mem, b.sides, at, sd, i, o, w);
  }

  lemma JoinTotal(m: Mem, l: u32, x: u32, lv: Level, o: Order)
    requires l as int < |m.ls| && x as int < |m.os| && m.ls[l].totalQty as int == Total(lv.orders) % TWO64
    ensures OneTotal(m, Enqueued(m, l, x, WrapAdd(m.ls[l].totalQty, o.remaining)), l, lv.(orders := lv.orders + [o]))
  {
    TotalAppend(lv.orders, o);
    WrapAddMod(Total(lv.orders), o.remaining);
  }

  lemma JoinInv(h: Hash, g: Image, b: Book, at: Slots, n: nat, sd: Side, i: nat, o: Order, l: u32,
                levels: seq<Level>, levels': seq<Level>)
    requires Pending(h, g, b, at, n)
    requires levels == b.sides.Get(sd) && i < |levels| && levels' == Append(levels, i, o)
    requires l == RefsOf(g.mem.Map(sd), levels)[i]
    requires Waiting(g, b, at, n, sd, levels[i].price, o)
    ensures l as int < |g.mem.ls| && at[o.ticket] as int < |g.mem.os| == MAX_ORDERS && |g.index| == MAX_ORDERS
    ensures Inv(h, Joined(g, l, at[o.ticket], WrapAdd(g.mem.ls[l].totalQty, o.remaining), Bucket(h, o.id), sd),
                b.(sides := b.sides.Set(sd, levels'),
                   index := b.index[Bucket(h, o.id) := Ref(sd, levels[i].price, o.ticket)]), at, n, 0)
  {
    hide Inv;
    JoinInRange(h, g, b, at, n, sd, i, l);
    var w := WrapAdd(g.mem.ls[l].totalQty, o.remaining);
    JoinLayout(h, g, b, at, n, sd, i, o, l, w, levels, levels');
    var m' := Enqueued(g.mem, l, at[o.ticket], w);
    JoinTotal(g.mem, l, at[o.ticket], levels[i], o);
    JoinedInv(h, g, m', b, at, n, sd, i, o, l, levels, levels');
  }

  lemma BestRested(bestBid: u32, bestAsk: u32, s: Sides, sd: Side, p: u32, o: Order)
    requires BestOk(bestBid, bestAsk, s) && 0 < p < MAX_PRICE
    ensures BestOk(if sd.Buy? && p > bestBid then p else bestBid, if sd.Sell? && p < bestAsk then p else bestAsk,
                   s.Set(sd, Rested(sd, s.Get(sd), p, o)))
  {
    var levels := s.Get(sd);
    PositionFacts(sd, levels, p);
    InsertedIndex(levels, Position(sd, levels, p), Level(p, []));
  }

  lemma GoodOlder(h: Hash, g: Image, b: Book, at: Slots, n: nat)
    requires Good(h, g, b, at, n)
    ensures OlderSides(b.sides, n)
  {
  }

  lemma GoodBest(h: Hash, g: Image, b: Book, at: Slots, n: nat)
    requires Good(h, g, b, at, n)
    ensures BestOk(g.bestBid, g.bestAsk, b.sides)
  {
  }

  /** The level an order rests at is at the position the price list gives it. */
  lemma WaitingKept(g: Image, g': Image, b: Book, at: Slots, n: nat, sd: Side, price: u32, o: Order)
    requires Waiting(g, b, at, n, sd, price, o) && g'.mem.os == g.mem.os
    ensures Waiting(g', b.(sides := b.sides.Set(sd, WithLevel(sd, b.sides.Get(sd), price))), at, n, sd, price, o)
  {
    WithLevelOlder(b.sides, o.ticket, sd, price);
  }

  function BestMoved(g: Image, sd: Side, p: u32): Image {
    if sd.Buy? then g.(bestBid := if p > g.bestBid then p else g.bestBid)
    else g.(bestAsk := if p < g.bestAsk then p else g.bestAsk)
  }

  lemma JoinGood(h: Hash, g: Image, b: Book, at: Slots, n: nat, sd: Side, i: nat, o: Order, l: u32,
                 levels: seq<Level>, levels': seq<Level>, s0: Sides, p: u32)
    requires Pending(h, g, b, at, n)
    requires levels == b.sides.Get(sd) && i < |levels| && levels' == Append(levels, i, o) && levels[i].price == p
    requires l == RefsOf(g.mem.Map(sd), levels)[i] && Waiting(g, b, at, n, sd, p, o)
    requires BestOk(g.bestBid, g.bestAsk, s0) && 0 < p < MAX_PRICE
    requires b.sides.Set(sd, levels') == s0.Set(sd, Rested(sd, s0.Get(sd), p, o))
    ensures l as int < |g.mem.ls| && at[o.ticket] as int < |g.mem.os| == MAX_ORDERS && |g.index| == MAX_ORDERS
    ensures var g' := Joined(g, l, at[o.ticket], WrapAdd(g.mem.ls[l].totalQty, o.remaining), Bucket(h, o.id), sd);
            Good(h, BestMoved(g', sd, p),
                 b.(sides := b.sides.Set(sd, levels'), index := b.index[Bucket(h, o.id) := Ref(sd, p, o.ticket)]),
                 at, n)
  {
    hide Inv, BestOk, Pending;
    JoinInv(h, g, b, at, n, sd, i, o, l, levels, levels');
    BestRested(g.bestBid, g.bestAsk, s0, sd, p, o);
    var g' := Joined(g, l, at[o.ticket], WrapAdd(g.mem.ls[l].totalQty, o.remaining), Bucket(h, o.id), sd);
    var b' := b.(sides := b.sides.Set(sd, levels'), index := b.index[Bucket(h, o.id) := Ref(sd, p, o.ticket)]);
    var g'' := BestMoved(g', sd, p);
    InvBest(h, g', b', at, n, 0, g''.bestBid, g''.bestAsk);
    assert g'' == g'.(bestBid := g''.bestBid, bestAsk := g''.bestAsk);
  }

  // ----- cancelling

  /** What cancel_order reads in the bucket of the id, and where it leads. */
  lemma GoodBucket(h: Hash, g: Image, b: Book, at: Slots, n: nat, k: nat)
    requires Good(h, g, b, at, n) && k < MAX_ORDERS
    ensures |g.index| == MAX_ORDERS && (g.index[k].slot == INVALID <==> k !in b.index)
    ensures k in b.index ==>
              var r := b.index[k];
              && r.ticket in at && g.index[k].slot == at[r.ticket] && g.index[k].side == r.side
              && g.index[k].levelSlot == MapAt(g.mem.Map(r.side), r.price)
  {
    assert EntryOk(g.index[k], b.index, k, at, g.mem.bidMap, g.mem.askMap);
  }

  /** Bounds of everything that taking out order j of level i reads and writes. */
  lemma GoodLocated(h: Hash, g: Image, b: Book, at: Slots, n: nat, sd: Side, i: nat, j: nat, l: u32, x: u32)
    requires Good(h, g, b, at, n)
    requires i < |b.sides.Get(sd)| && j < |b.sides.Get(sd)[i].orders|
    requires l == MapAt(g.mem.Map(sd), b.sides.Get(sd)[i].price) && b.sides.Get(sd)[i].orders[j].ticket in at
    requires x == at[b.sides.Get(sd)[i].orders[j].ticket]
    ensures Located(g.mem, b.sides, at, sd, i, j, l, x)
    ensures g.mem.os[x].remaining == b.sides.Get(sd)[i].orders[j].remaining
    ensures g.mem.os[x].orderId == b.sides.Get(sd)[i].orders[j].id
    ensures g.mem.ls[l].count > 0 && |g.mem.os| == MAX_ORDERS && |g.mem.ls| == MAX_LEVELS
    ensures g.mem.os[x].prev == INVALID || g.mem.os[x].prev as int < |g.mem.os|
    ensures g.mem.os[x].next == INVALID || g.mem.os[x].next as int < |g.mem.os|
    ensures g.mem.os[x].prev != x && g.mem.os[x].next != x
    ensures g.mem.ls[l].totalQty as int == Total(b.sides.Get(sd)[i].orders) % TWO64
  {
    Locate(g.mem, b.sides, at, sd, i, j);
    NeighboursInRange(g.mem, b.sides, at, sd, i, j);
    SumsAt(g.mem, b.sides, sd, i);
    assert Contents(g.mem.os[x]) == ContentsFor(sd, b.sides.Get(sd)[i].price, b.sides.Get(sd)[i].orders[j]);
  }

  /** Level slot l shows total w; nothing else changes. */
  function Totalled(g: Image, l: u32, w: u64): Image
    requires l as int < |g.mem.ls|
  {
    g.(mem := g.mem.(ls := g.mem.ls[l := g.mem.ls[l].(totalQty := w)]))
  }

  lemma TotalledIsReduced(m: Mem, l: u32, x: u32, w: u64)
    requires l as int < |m.ls| && x as int < |m.os|
    ensures MemReduced(m, l, x, m.os[x].remaining, w) == m.(ls := m.ls[l := m.ls[l].(totalQty := w)])
  {
    assert m.os[x := m.os[x].(remaining := m.os[x].remaining)] == m.os;
  }

  lemma CancelTotal(total: u64, q: seq<Order>, j: nat)
    requires j < |q| && total as int == Total(q) % TWO64
    ensures WrapSub(total, q[j].remaining) == Total(Without(q, j)) % TWO64
  {
    TotalWithout(q, j);
    WrapSubMod(Total(q), q[j].remaining);
  }

  lemma TakeOutGood(h: Hash, g: Image, b: Book, at: Slots, n: nat, sd: Side, i: nat, j: nat, l: u32, x: u32,
                    w: u64, levels: seq<Level>, levels': seq<Level>, o: Order)
    requires Good(h, g, b, at, n) && Located(g.mem, b.sides, at, sd, i, j, l, x)
    requires levels == b.sides.Get(sd) && o == levels[i].orders[j] && levels' == Taken(levels, i, j)
    requires g.mem.os[x].remaining == o.remaining && w as int == Total(levels'[i].orders) % TWO64
    ensures o.ticket in at && at[o.ticket] == x && g.orderTop as int < |g.orderFree| < TWO32 && |g.index| == MAX_ORDERS
    ensures Good(h, Retired(Totalled(g, l, w), l, x, Bucket(h, o.id)),
                 b.(sides := b.sides.Set(sd, levels'), index := b.index - {Bucket(h, o.id)}), at - {o.ticket}, n)
  {
    hide Inv;
    var m1 := Totalled(g, l, w).mem;
    TotalledIsReduced(g.mem, l, x, w);
    TakeOutInv(h, g, m1, Dequeued(m1, l, x), b, at, n, sd, i, j, l, x, w, levels, levels', o);
    BestReplaced(g.bestBid, g.bestAsk, b.sides, sd, i, levels'[i]);
    assert levels' == levels[i := levels'[i]];
  }

  /** A level's queue is empty exactly when its header has no head. */
  lemma GoodLevel(h: Hash, g: Image, b: Book, at: Slots, n: nat, sd: Side, i: nat, l: u32)
    requires Good(h, g, b, at, n) && i < |b.sides.Get(sd)|
    requires l == MapAt(g.mem.Map(sd), b.sides.Get(sd)[i].price)
    ensures l as int < |g.mem.ls| && (g.mem.ls[l].head == INVALID <==> b.sides.Get(sd)[i].orders == [])
  {
    LocateLevel(g.mem, b.sides, at, sd, i);
    if b.sides.Get(sd)[i].orders != [] { Locate(g.mem, b.sides, at, sd, i, 0); }
  }

  // ----- reading the book

  /** Level c of side sd as the depth walk reads it. */
  lemma GoodWalk(h: Hash, g: Image, b: Book, at: Slots, n: nat, sd: Side, c: nat)
    requires Good(h, g, b, at, n) && c <= |b.sides.Get(sd)|
    ensures var levels := b.sides.Get(sd);
            var refs := RefsOf(g.mem.Map(sd), levels);
            && g.mem.Head(sd) == At(refs, 0)
            && (At(refs, c) == INVALID <==> c == |levels|)
            && (c < |levels| ==>
                  && refs[c] as int < |g.mem.ls|
                  && g.mem.ls[refs[c]].price == levels[c].price
                  && g.mem.ls[refs[c]].totalQty as int == Total(levels[c].orders) % TWO64
                  && g.mem.ls[refs[c]].count as int == |levels[c].orders|
                  && g.mem.ls[refs[c]].nextLevel == At(refs, c + 1))
  {
    LayoutSplit(g.mem, b.sides, at, sd);
    if c < |b.sides.Get(sd)| {
      LocateLevel(g.mem, b.sides, at, sd, c);
      SumsAt(g.mem, b.sides, sd, c);
      assert Node(LevelLinks(g.mem.ls), RefsOf(g.mem.Map(sd), b.sides.Get(sd)), c);
    }
  }

  // ----- a new book

  ghost predicate Countdown(s: seq<u32>, size: nat) {
    |s| == size && forall k :: 0 <= k < size ==> s[k] as int == size - 1 - k
  }

  lemma CountdownFree(s: seq<u32>, size: nat)
    requires Countdown(s, size) && size < INVALID
    ensures FreeStack(s, size, size)
  {
  }

  lemma EmptyGood(h: Hash, g: Image)
    requires |g.mem.os| == MAX_ORDERS && |g.mem.ls| == MAX_LEVELS
    requires |g.mem.bidMap| == |g.mem.askMap| == MAP_SIZE
    requires forall p :: 0 <= p < MAP_SIZE ==> g.mem.bidMap[p] == INVALID && g.mem.askMap[p] == INVALID
    requires g.mem.bidHead == INVALID && g.mem.askHead == INVALID && g.bestBid == 0 && g.bestAsk == 10001
    requires Countdown(g.orderFree, MAX_ORDERS) && g.orderTop as int == MAX_ORDERS
    requires Countdown(g.levelFree, MAX_LEVELS) && g.levelTop as int == MAX_LEVELS
    requires |g.index| == MAX_ORDERS && forall k :: 0 <= k < MAX_ORDERS ==> g.index[k].slot == INVALID
    requires g.fillSequence == 0 && g.sequence == 0
    ensures Good(h, g, EmptyBook, map[], 0) && WellFormed(h, EmptyBook)
  {
    CountdownFree(g.orderFree, MAX_ORDERS);
    CountdownFree(g.levelFree, MAX_LEVELS);
    var at: Slots := map[];
    forall sd: Side ensures SideOk(g.mem, sd, EmptyBook.sides.Get(sd), at) {
      assert EmptyBook.sides.Get(sd) == [];
    }
    forall k | 0 <= k < |g.index| ensures EntryOk(g.index[k], map[], k, at, g.mem.bidMap, g.mem.askMap) {
    }
  }
}
