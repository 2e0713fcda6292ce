/** What taking an order out of a queue and putting one at its tail do to the layout of
    the book in memory: the array writes of `dequeue` and `enqueue` in order_book.cpp. */
module QueueUpdates {
  import opened Types
  import opened BookSpec
  import opened LinkedLists
  import opened BookMemory
  import opened BookInvariants

  // ----- level headers

  /** One level's header and queue change; its price and its place in the list do not. */
  lemma HeaderReplaced(ls: seq<LevelSlot>, pm: seq<u32>, head: u32, sd: Side, levels: seq<Level>, at: Slots,
                       i: nat, x: LevelSlot, lv: Level)
    requires Sorted(sd, levels) && LevelsOk(ls, pm, head, levels, at) && i < |levels|
    requires lv.price == levels[i].price && Header(x, lv, at)
    requires var l := RefsOf(pm, levels)[i];
             l as int < |ls| ==> x.nextLevel == ls[l].nextLevel && x.prevLevel == ls[l].prevLevel
    ensures var l := RefsOf(pm, levels)[i];
            && l as int < |ls|
            && RefsOf(pm, levels[i := lv]) == RefsOf(pm, levels)
            && LevelsOk(ls[l := x], pm, head, levels[i := lv], at)
  {
    var refs := RefsOf(pm, levels);
    var levels' := levels[i := lv];
    RefsDistinct(ls, pm, sd, levels, at);
    assert RefsOf(pm, levels') == refs;
    var ls' := ls[refs[i] := x];
    assert LevelLinks(ls') == LevelLinks(ls);
    forall k | 0 <= k < |levels'| ensures refs[k] as int < |ls'| && Header(ls'[refs[k]], levels'[k], at) {
      assert Header(ls[refs[k]], levels[k], at);
    }
    forall p | 0 <= p < |pm| && pm[p] != INVALID ensures HasPrice(levels', p) {
      var k :| 0 <= k < |levels| && levels[k].price == p;
      assert levels'[k].price == p;
    }
  }

  /** A level slot of the other side is written; this side does not see it. */
  lemma LevelsElsewhere(ls: seq<LevelSlot>, pm: seq<u32>, head: u32, levels: seq<Level>, at: Slots, l: u32,
                        x: LevelSlot)
    requires LevelsOk(ls, pm, head, levels, at)
    requires l as int < |ls| && l !in RefsOf(pm, levels)
    requires x.nextLevel == ls[l].nextLevel && x.prevLevel == ls[l].prevLevel
    ensures LevelsOk(ls[l := x], pm, head, levels, at)
  {
    var refs := RefsOf(pm, levels);
    var ls' := ls[l := x];
    assert LevelLinks(ls') == LevelLinks(ls);
    forall k | 0 <= k < |levels| ensures refs[k] as int < |ls'| && Header(ls'[refs[k]], levels[k], at) {
      assert Header(ls[refs[k]], levels[k], at);
    }
  }

  // ----- dequeue

  function OrdersDequeued(os: seq<OrderSlot>, s: u32): (r: seq<OrderSlot>)
    requires s as int < |os|
    ensures |r| == |os|
  {
    PrevSet(NextSet(os, os[s].prev, os[s].next), os[s].next, os[s].prev)
  }

  function HeaderDequeued(x: LevelSlot, o: OrderSlot): LevelSlot {
    x.(head := if o.prev == INVALID then o.next else x.head,
       tail := if o.next == INVALID then o.prev else x.tail,
       count := if x.count > 0 then x.count - 1 else TWO32 - 1)
  }

  lemma DequeuedLinks(os: seq<OrderSlot>, s: u32)
    requires s as int < |os|
    ensures OrderLinks(OrdersDequeued(os, s)) == Unlink(OrderLinks(os), s)
    ensures SameContents(os, OrdersDequeued(os, s))
  {
    NextSetLinks(os, os[s].prev, os[s].next);
    PrevSetLinks(NextSet(os, os[s].prev, os[s].next), os[s].next, os[s].prev);
  }

  lemma SlotsWithout(q: seq<Order>, at: Slots, j: nat)
    requires j < |q|
    ensures SlotsOf(Without(q, j), at) == Without(SlotsOf(q, at), j)
  {
  }

  lemma DequeuedHere(os: seq<OrderSlot>, sd: Side, lv: Level, at: Slots, j: nat)
    requires QueueOk(os, sd, lv, at) && Fifo(lv.orders) && Injective(at) && j < |lv.orders|
    ensures var s := SlotOf(at, lv.orders[j]);
            && s as int < |os|
            && QueueOk(OrdersDequeued(os, s), sd, lv.(orders := Without(lv.orders, j)), at)
  {
    var q := lv.orders;
    assert Held(os, sd, lv.price, q[j], at);
    var s := SlotOf(at, q[j]);
    var os' := OrdersDequeued(os, s);
    DequeuedLinks(os, s);
    SlotsDistinct(q, at) by {
      forall k | 0 <= k < |q| ensures q[k].ticket in at { assert Held(os, sd, lv.price, q[k], at); }
    }
    UnlinkChain(OrderLinks(os), SlotsOf(q, at), j);
    SlotsWithout(q, at, j);
    HeldFrame(os, os', sd, lv, at);
    hide Held, OrderLinks, SlotsOf, OrdersDequeued, Chain;
    HeldWithout(os', sd, lv, at, j);
  }

  lemma HeldWithout(os: seq<OrderSlot>, sd: Side, lv: Level, at: Slots, j: nat)
    requires AllHeld(os, sd, lv, at) && j < |lv.orders|
    ensures AllHeld(os, sd, lv.(orders := Without(lv.orders, j)), at)
  {
    hide Held;
    var q' := Without(lv.orders, j);
    forall k | 0 <= k < |q'| ensures Held(os, sd, lv.price, q'[k], at) {
      assert q'[k] == lv.orders[if k < j then k else k + 1];
    }
  }

  lemma DequeuedThere(os: seq<OrderSlot>, sd: Side, lv: Level, at: Slots, j: nat, sd2: Side, lv2: Level)
    requires QueueOk(os, sd, lv, at) && QueueOk(os, sd2, lv2, at) && j < |lv.orders|
    requires sd != sd2 || lv.price != lv2.price
    ensures var s := SlotOf(at, lv.orders[j]);
            s as int < |os| && QueueOk(OrdersDequeued(os, s), sd2, lv2, at)
  {
    assert Held(os, sd, lv.price, lv.orders[j], at);
    var s := SlotOf(at, lv.orders[j]);
    DequeuedLinks(os, s);
    SlotsApart(os, sd, lv, sd2, lv2, at);
    UnlinkApart(OrderLinks(os), SlotsOf(lv.orders, at), j, SlotsOf(lv2.orders, at));
    HeldFrame(os, OrdersDequeued(os, s), sd2, lv2, at);
  }

  lemma DequeuedHeader(ln: seq<Link>, x: LevelSlot, o: OrderSlot, lv: Level, at: Slots, j: nat)
    requires Header(x, lv, at) && j < |lv.orders|
    requires Chain(ln, SlotsOf(lv.orders, at))
    requires var s := SlotsOf(lv.orders, at)[j]; s as int < |ln| ==> ln[s] == Link(o.next, o.prev)
    ensures Header(HeaderDequeued(x, o), lv.(orders := Without(lv.orders, j)), at)
  {
    var xs := SlotsOf(lv.orders, at);
    assert Node(ln, xs, j);
    SlotsWithout(lv.orders, at, j);
    if j > 0 { assert Node(ln, xs, j - 1); }
    if j + 1 < |xs| { assert Node(ln, xs, j + 1); }
  }

  function Dequeued(m: Mem, l: u32, s: u32): Mem
    requires l as int < |m.ls| && s as int < |m.os|
  {
    m.(os := OrdersDequeued(m.os, s), ls := m.ls[l := HeaderDequeued(m.ls[l], m.os[s])])
  }

  /** The levels of a side after order j of level i has left; an emptied level stays. */
  function Taken(levels: seq<Level>, i: nat, j: nat): seq<Level>
    requires i < |levels| && j < |levels[i].orders|
  {
    levels[i := levels[i].(orders := Without(levels[i].orders, j))]
  }

  lemma FifoWithout(q: seq<Order>, j: nat)
    requires Fifo(q) && j < |q|
    ensures Fifo(Without(q, j))
  {
    var r := Without(q, j);
    forall a, b | 0 <= a < b < |r| ensures r[a].ticket < r[b].ticket {
      assert r[a] == q[if a < j then a else a + 1] && r[b] == q[if b < j then b else b + 1];
    }
  }

  lemma TakenSide(m: Mem, sd: Side, levels: seq<Level>, at: Slots, i: nat, j: nat)
    requires SideOk(m, sd, levels, at) && Injective(at)
    requires i < |levels| && j < |levels[i].orders|
    ensures var l := RefsOf(m.Map(sd), levels)[i];
            var s := SlotOf(at, levels[i].orders[j]);
            && l as int < |m.ls| && s as int < |m.os| && m.ls[l].count > 0
            && SideOk(Dequeued(m, l, s), sd, Taken(levels, i, j), at)
            && RefsOf(m.Map(sd), Taken(levels, i, j)) == RefsOf(m.Map(sd), levels)
  {
    var lv := levels[i];
    var levels' := Taken(levels, i, j);
    var l := RefsOf(m.Map(sd), levels)[i];
    var s := SlotOf(at, lv.orders[j]);
    assert QueueOk(m.os, sd, lv, at);
    assert Header(m.ls[l], lv, at);
    DequeuedHere(m.os, sd, lv, at, j);
    DequeuedHeader(OrderLinks(m.os), m.ls[l], m.os[s], lv, at, j);
    HeaderReplaced(m.ls, m.Map(sd), m.Head(sd), sd, levels, at, i, HeaderDequeued(m.ls[l], m.os[s]), levels'[i]);
    forall k | 0 <= k < |levels'| ensures QueueOk(OrdersDequeued(m.os, s), sd, levels'[k], at) {
      if k != i {
        assert levels[k].price != levels[i].price by {
          if k < i { assert Better(sd, levels[k].price, levels[i].price); }
          else { assert Better(sd, levels[i].price, levels[k].price); }
        }
        DequeuedThere(m.os, sd, lv, at, j, sd, levels[k]);
      }
    }
    FifoWithout(lv.orders, j);
    OrderedReplaced(sd, levels, i, levels'[i]);
  }

  lemma TakenElsewhere(m: Mem, sd: Side, levels: seq<Level>, at: Slots, i: nat, j: nat, sd2: Side, levels2: seq<Level>)
    requires SideOk(m, sd, levels, at) && SideOk(m, sd2, levels2, at) && sd != sd2
    requires i < |levels| && j < |levels[i].orders|
    requires RefsOf(m.Map(sd), levels)[i] !in RefsOf(m.Map(sd2), levels2)
    ensures var l := RefsOf(m.Map(sd), levels)[i];
            var s := SlotOf(at, levels[i].orders[j]);
            && l as int < |m.ls| && s as int < |m.os|
            && SideOk(Dequeued(m, l, s), sd2, levels2, at)
  {
    var lv := levels[i];
    var l := RefsOf(m.Map(sd), levels)[i];
    var s := SlotOf(at, lv.orders[j]);
    assert QueueOk(m.os, sd, lv, at);
    assert Header(m.ls[l], lv, at);
    assert Held(m.os, sd, lv.price, lv.orders[j], at);
    LevelsElsewhere(m.ls, m.Map(sd2), m.Head(sd2), levels2, at, l, HeaderDequeued(m.ls[l], m.os[s]));
    forall k | 0 <= k < |levels2| ensures QueueOk(OrdersDequeued(m.os, s), sd2, levels2[k], at) {
      DequeuedThere(m.os, sd, lv, at, j, sd2, levels2[k]);
    }
  }

  lemma DequeuedLayout(m: Mem, s: Sides, at: Slots, sd: Side, i: nat, j: nat)
    requires Layout(m, s, at)
    requires i < |s.Get(sd)| && j < |s.Get(sd)[i].orders|
    ensures var l := RefsOf(m.Map(sd), s.Get(sd))[i];
            var x := SlotOf(at, s.Get(sd)[i].orders[j]);
            && l as int < |m.ls| && x as int < |m.os| && m.ls[l].count > 0
            && Layout(Dequeued(m, l, x), s.Set(sd, Taken(s.Get(sd), i, j)), at)
            && RefsOf(m.Map(sd), Taken(s.Get(sd), i, j)) == RefsOf(m.Map(sd), s.Get(sd))
  {
    var other, levels := sd.Opposite(), s.Get(sd);
    var levels' := Taken(levels, i, j);
    LayoutSplit(m, s, at, sd);
    LayoutSplit(m, s, at, other);
    ApartAt(RefsOf(m.Map(sd), levels), RefsOf(m.Map(other), s.Get(other)), i);
    TakenSide(m, sd, levels, at, i, j);
    TakenElsewhere(m, sd, levels, at, i, j, other, s.Get(other));
    var m' := Dequeued(m, RefsOf(m.Map(sd), levels)[i], SlotOf(at, levels[i].orders[j]));
    LayoutJoin(m', s, at, sd, levels');
  }

  // ----- a resting order trades part of its quantity

  function Reduced(levels: seq<Level>, i: nat, j: nat, v: u64): seq<Level>
    requires i < |levels| && j < |levels[i].orders|
  {
    levels[i := levels[i].(orders := levels[i].orders[j := levels[i].orders[j].(remaining := v)])]
  }

  /** Order slot x now has v remaining; level slot l shows total w. */
  function MemReduced(m: Mem, l: u32, x: u32, v: u64, w: u64): Mem
    requires l as int < |m.ls| && x as int < |m.os|
  {
    m.(os := m.os[x := m.os[x].(remaining := v)], ls := m.ls[l := m.ls[l].(totalQty := w)])
  }

  lemma ReducedHere(os: seq<OrderSlot>, sd: Side, lv: Level, at: Slots, j: nat, v: u64)
    requires QueueOk(os, sd, lv, at) && Fifo(lv.orders) && Injective(at) && j < |lv.orders|
    ensures var x := SlotOf(at, lv.orders[j]);
            && x as int < |os|
            && QueueOk(os[x := os[x].(remaining := v)], sd,
                       lv.(orders := lv.orders[j := lv.orders[j].(remaining := v)]), at)
            && SlotsOf(lv.orders[j := lv.orders[j].(remaining := v)], at) == SlotsOf(lv.orders, at)
  {
    var q := lv.orders;
    assert Held(os, sd, lv.price, q[j], at);
    var x := SlotOf(at, q[j]);
    var os' := os[x := os[x].(remaining := v)];
    var q' := q[j := q[j].(remaining := v)];
    assert SlotsOf(q', at) == SlotsOf(q, at);
    assert OrderLinks(os') == OrderLinks(os);
    forall k | 0 <= k < |q| ensures Held(os', sd, lv.price, q'[k], at) {
      assert Held(os, sd, lv.price, q[k], at);
    }
  }

  lemma ReducedThere(os: seq<OrderSlot>, sd: Side, lv: Level, at: Slots, j: nat, v: u64, sd2: Side, lv2: Level)
    requires QueueOk(os, sd, lv, at) && QueueOk(os, sd2, lv2, at) && j < |lv.orders|
    requires sd != sd2 || lv.price != lv2.price
    ensures var x := SlotOf(at, lv.orders[j]);
            x as int < |os| && QueueOk(os[x := os[x].(remaining := v)], sd2, lv2, at)
  {
    assert Held(os, sd, lv.price, lv.orders[j], at);
    var x := SlotOf(at, lv.orders[j]);
    var os' := os[x := os[x].(remaining := v)];
    SlotsApart(os, sd, lv, sd2, lv2, at);
    ApartAt(SlotsOf(lv.orders, at), SlotsOf(lv2.orders, at), j);
    assert OrderLinks(os') == OrderLinks(os);
    forall k | 0 <= k < |lv2.orders| ensures Held(os', sd2, lv2.price, lv2.orders[k], at) {
      assert Held(os, sd2, lv2.price, lv2.orders[k], at);
      assert SlotsOf(lv2.orders, at)[k] in SlotsOf(lv2.orders, at);
    }
  }

  lemma ReducedSide(m: Mem, sd: Side, levels: seq<Level>, at: Slots, i: nat, j: nat, v: u64, w: u64)
    requires SideOk(m, sd, levels, at) && Injective(at)
    requires i < |levels| && j < |levels[i].orders|
    ensures var l := RefsOf(m.Map(sd), levels)[i];
            var x := SlotOf(at, levels[i].orders[j]);
            && l as int < |m.ls| && x as int < |m.os|
            && SideOk(MemReduced(m, l, x, v, w), sd, Reduced(levels, i, j, v), at)
            && RefsOf(m.Map(sd), Reduced(levels, i, j, v)) == RefsOf(m.Map(sd), levels)
  {
    var lv := levels[i];
    var levels' := Reduced(levels, i, j, v);
    var l := RefsOf(m.Map(sd), levels)[i];
    var x := SlotOf(at, lv.orders[j]);
    assert QueueOk(m.os, sd, lv, at);
    assert Header(m.ls[l], lv, at);
    ReducedHere(m.os, sd, lv, at, j, v);
    HeaderReplaced(m.ls, m.Map(sd), m.Head(sd), sd, levels, at, i, m.ls[l].(totalQty := w), levels'[i]);
    var os' := MemReduced(m, l, x, v, w).os;
    forall k | 0 <= k < |levels'| ensures QueueOk(os', sd, levels'[k], at) {
      if k != i {
        assert levels[k].price != levels[i].price by {
          if k < i { assert Better(sd, levels[k].price, levels[i].price); }
          else { assert Better(sd, levels[i].price, levels[k].price); }
        }
        ReducedThere(m.os, sd, lv, at, j, v, sd, levels[k]);
      }
    }
    OrderedReplaced(sd, levels, i, levels'[i]);
  }

  lemma ReducedElsewhere(m: Mem, sd: Side, levels: seq<Level>, at: Slots, i: nat, j: nat, v: u64, w: u64,
                         sd2: Side, levels2: seq<Level>)
    requires SideOk(m, sd, levels, at) && SideOk(m, sd2, levels2, at) && sd != sd2
    requires i < |levels| && j < |levels[i].orders|
    requires RefsOf(m.Map(sd), levels)[i] !in RefsOf(m.Map(sd2), levels2)
    ensures var l := RefsOf(m.Map(sd), levels)[i];
            var x := SlotOf(at, levels[i].orders[j]);
            && l as int < |m.ls| && x as int < |m.os|
            && SideOk(MemReduced(m, l, x, v, w), sd2, levels2, at)
  {
    var lv := levels[i];
    var l := RefsOf(m.Map(sd), levels)[i];
    var x := SlotOf(at, lv.orders[j]);
    assert QueueOk(m.os, sd, lv, at);
    assert Header(m.ls[l], lv, at);
    assert Held(m.os, sd, lv.price, lv.orders[j], at);
    LevelsElsewhere(m.ls, m.Map(sd2), m.Head(sd2), levels2, at, l, m.ls[l].(totalQty := w));
    var os' := MemReduced(m, l, x, v, w).os;
    forall k | 0 <= k < |levels2| ensures QueueOk(os', sd2, levels2[k], at) {
      ReducedThere(m.os, sd, lv, at, j, v, sd2, levels2[k]);
    }
  }

  lemma ReducedLayout(m: Mem, s: Sides, at: Slots, sd: Side, i: nat, j: nat, v: u64, w: u64)
    requires Layout(m, s, at)
    requires i < |s.Get(sd)| && j < |s.Get(sd)[i].orders|
    ensures var l := RefsOf(m.Map(sd), s.Get(sd))[i];
            var x := SlotOf(at, s.Get(sd)[i].orders[j]);
            && l as int < |m.ls| && x as int < |m.os|
            && Layout(MemReduced(m, l, x, v, w), s.Set(sd, Reduced(s.Get(sd), i, j, v)), at)
            && RefsOf(m.Map(sd), Reduced(s.Get(sd), i, j, v)) == RefsOf(m.Map(sd), s.Get(sd))
  {
    var other, levels := sd.Opposite(), s.Get(sd);
    var levels' := Reduced(levels, i, j, v);
    LayoutSplit(m, s, at, sd);
    LayoutSplit(m, s, at, other);
    ApartAt(RefsOf(m.Map(sd), levels), RefsOf(m.Map(other), s.Get(other)), i);
    ReducedSide(m, sd, levels, at, i, j, v, w);
    ReducedElsewhere(m, sd, levels, at, i, j, v, w, other, s.Get(other));
    var m' := MemReduced(m, RefsOf(m.Map(sd), levels)[i], SlotOf(at, levels[i].orders[j]), v, w);
    LayoutJoin(m', s, at, sd, levels');
  }

  // ----- enqueue

  function OrdersEnqueued(os: seq<OrderSlot>, s: u32, tail: u32): (r: seq<OrderSlot>)
    requires s as int < |os|
    ensures |r| == |os|
  {
    NextSet(os[s := os[s].(next := INVALID, prev := tail)], tail, s)
  }

  function HeaderEnqueued(x: LevelSlot, s: u32, w: u64): LevelSlot {
    x.(totalQty := w,
       head := if x.tail == INVALID then s else x.head,
       tail := s,
       count := if x.count < TWO32 - 1 then x.count + 1 else 0)
  }

  /** Order slot s joins the tail of level slot l, which now shows total w. */
  function Enqueued(m: Mem, l: u32, s: u32, w: u64): Mem
    requires l as int < |m.ls| && s as int < |m.os|
  {
    m.(os := OrdersEnqueued(m.os, s, m.ls[l].tail), ls := m.ls[l := HeaderEnqueued(m.ls[l], s, w)])
  }

  lemma EnqueuedLinks(os: seq<OrderSlot>, xs: seq<u32>, s: u32)
    requires s as int < |os| <= INVALID
    ensures OrderLinks(OrdersEnqueued(os, s, Last(xs))) == LinkIn(OrderLinks(os), s, At(xs, |xs| - 1), At(xs, |xs|))
    ensures SameContents(os, OrdersEnqueued(os, s, Last(xs)))
  {
    var os1 := os[s := os[s].(next := INVALID, prev := Last(xs))];
    assert OrderLinks(os1) == OrderLinks(os)[s := Link(INVALID, Last(xs))];
    NextSetLinks(os1, Last(xs), s);
  }

  lemma UnusedSlot(q: seq<Order>, at: Slots, o: Order)
    requires Injective(at) && o.ticket in at && NotQueued(q, o.ticket)
    requires at[o.ticket] != INVALID
    ensures at[o.ticket] !in SlotsOf(q, at)
  {
  }

  lemma EnqueuedHere(os: seq<OrderSlot>, sd: Side, lv: Level, at: Slots, o: Order)
    requires QueueOk(os, sd, lv, at) && Fifo(lv.orders) && Injective(at)
    requires |os| < INVALID && Held(os, sd, lv.price, o, at) && NotQueued(lv.orders, o.ticket)
    ensures QueueOk(OrdersEnqueued(os, at[o.ticket], Last(SlotsOf(lv.orders, at))), sd,
                    lv.(orders := lv.orders + [o]), at)
  {
    var q := lv.orders;
    var xs := SlotsOf(q, at);
    var s := at[o.ticket];
    var os' := OrdersEnqueued(os, s, Last(xs));
    var lv' := lv.(orders := q + [o]);
    EnqueuedLinks(os, xs, s);
    SlotsDistinct(q, at) by {
      forall k | 0 <= k < |q| ensures q[k].ticket in at { assert Held(os, sd, lv.price, q[k], at); }
    }
    UnusedSlot(q, at, o);
    LinkChain(OrderLinks(os), xs, |xs|, s);
    assert SlotsOf(lv'.orders, at) == Inserted(xs, |xs|, s);
    assert AllHeld(os, sd, lv', at);
    HeldFrame(os, os', sd, lv', at);
  }

  lemma EnqueuedThere(os: seq<OrderSlot>, sd: Side, lv: Level, at: Slots, o: Order, sd2: Side, lv2: Level)
    requires QueueOk(os, sd, lv, at) && QueueOk(os, sd2, lv2, at) && Injective(at)
    requires |os| < INVALID && Held(os, sd, lv.price, o, at) && NotQueued(lv2.orders, o.ticket)
    requires sd != sd2 || lv.price != lv2.price
    ensures QueueOk(OrdersEnqueued(os, at[o.ticket], Last(SlotsOf(lv.orders, at))), sd2, lv2, at)
  {
    var xs := SlotsOf(lv.orders, at);
    var s := at[o.ticket];
    EnqueuedLinks(os, xs, s);
    SlotsApart(os, sd, lv, sd2, lv2, at);
    UnusedSlot(lv2.orders, at, o);
    LinkApart(OrderLinks(os), xs, |xs|, s, SlotsOf(lv2.orders, at));
    HeldFrame(os, OrdersEnqueued(os, s, Last(xs)), sd2, lv2, at);
  }

  lemma EnqueuedHeader(os: seq<OrderSlot>, x: LevelSlot, sd: Side, lv: Level, at: Slots, o: Order, w: u64)
    requires AllHeld(os, sd, lv, at) && |os| < INVALID
    requires Header(x, lv, at) && o.ticket in at && |lv.orders| < MAX_ORDERS
    ensures Header(HeaderEnqueued(x, at[o.ticket], w), lv.(orders := lv.orders + [o]), at)
  {
    var xs := SlotsOf(lv.orders, at);
    assert SlotsOf(lv.orders + [o], at) == xs + [at[o.ticket]];
    if xs != [] { assert Held(os, sd, lv.price, lv.orders[|xs| - 1], at); }
  }

  lemma AppendedSide(m: Mem, sd: Side, levels: seq<Level>, at: Slots, i: nat, o: Order, w: u64)
    requires SideOk(m, sd, levels, at) && Injective(at) && |m.os| == MAX_ORDERS
    requires i < |levels| && |levels[i].orders| < MAX_ORDERS
    requires Held(m.os, sd, levels[i].price, o, at) && OlderQueue(levels[i].orders, o.ticket)
    requires forall k :: 0 <= k < |levels| ==> NotQueued(levels[k].orders, o.ticket)
    ensures var l := RefsOf(m.Map(sd), levels)[i];
            && l as int < |m.ls|
            && SideOk(Enqueued(m, l, at[o.ticket], w), sd, Append(levels, i, o), at)
            && RefsOf(m.Map(sd), Append(levels, i, o)) == RefsOf(m.Map(sd), levels)
  {
    var lv := levels[i];
    var levels' := Append(levels, i, o);
    var l := RefsOf(m.Map(sd), levels)[i];
    var s := at[o.ticket];
    assert QueueOk(m.os, sd, lv, at);
    assert Header(m.ls[l], lv, at);
    EnqueuedHere(m.os, sd, lv, at, o);
    EnqueuedHeader(m.os, m.ls[l], sd, lv, at, o, w);
    HeaderReplaced(m.ls, m.Map(sd), m.Head(sd), sd, levels, at, i, HeaderEnqueued(m.ls[l], s, w), levels'[i]);
    var os' := Enqueued(m, l, s, w).os;
    forall k | 0 <= k < |levels'| ensures QueueOk(os', sd, levels'[k], at) {
      if k != i {
        assert levels[k].price != levels[i].price by {
          if k < i { assert Better(sd, levels[k].price, levels[i].price); }
          else { assert Better(sd, levels[i].price, levels[k].price); }
        }
        EnqueuedThere(m.os, sd, lv, at, o, sd, levels[k]);
      }
    }
    AppendFifo(lv.orders, o);
    OrderedReplaced(sd, levels, i, levels'[i]);
  }

  lemma AppendedElsewhere(m: Mem, sd: Side, levels: seq<Level>, at: Slots, i: nat, o: Order, w: u64,
                          sd2: Side, levels2: seq<Level>)
    requires SideOk(m, sd, levels, at) && SideOk(m, sd2, levels2, at) && sd != sd2
    requires Injective(at) && |m.os| == MAX_ORDERS && i < |levels|
    requires Held(m.os, sd, levels[i].price, o, at)
    requires forall k :: 0 <= k < |levels2| ==> NotQueued(levels2[k].orders, o.ticket)
    requires RefsOf(m.Map(sd), levels)[i] !in RefsOf(m.Map(sd2), levels2)
    ensures var l := RefsOf(m.Map(sd), levels)[i];
            l as int < |m.ls| && SideOk(Enqueued(m, l, at[o.ticket], w), sd2, levels2, at)
  {
    var lv := levels[i];
    var l := RefsOf(m.Map(sd), levels)[i];
    var s := at[o.ticket];
    assert QueueOk(m.os, sd, lv, at);
    assert Header(m.ls[l], lv, at);
    LevelsElsewhere(m.ls, m.Map(sd2), m.Head(sd2), levels2, at, l, HeaderEnqueued(m.ls[l], s, w));
    var os' := Enqueued(m, l, s, w).os;
    forall k | 0 <= k < |levels2| ensures QueueOk(os', sd2, levels2[k], at) {
      EnqueuedThere(m.os, sd, lv, at, o, sd2, levels2[k]);
    }
  }

  lemma EnqueuedLayout(m: Mem, s: Sides, at: Slots, sd: Side, i: nat, o: Order, w: u64)
    requires Layout(m, s, at) && Absent(s, o.ticket)
    requires i < |s.Get(sd)| && |s.Get(sd)[i].orders| < MAX_ORDERS
    requires Held(m.os, sd, s.Get(sd)[i].price, o, at) && OlderQueue(s.Get(sd)[i].orders, o.ticket)
    ensures var l := RefsOf(m.Map(sd), s.Get(sd))[i];
            && l as int < |m.ls|
            && Layout(Enqueued(m, l, at[o.ticket], w), s.Set(sd, Append(s.Get(sd), i, o)), at)
            && RefsOf(m.Map(sd), Append(s.Get(sd), i, o)) == RefsOf(m.Map(sd), s.Get(sd))
  {
    var other, levels := sd.Opposite(), s.Get(sd);
    var levels' := Append(levels, i, o);
    LayoutSplit(m, s, at, sd);
    LayoutSplit(m, s, at, other);
    ApartAt(RefsOf(m.Map(sd), levels), RefsOf(m.Map(other), s.Get(other)), i);
    AppendedSide(m, sd, levels, at, i, o, w);
    AppendedElsewhere(m, sd, levels, at, i, o, w, other, s.Get(other));
    var m' := Enqueued(m, RefsOf(m.Map(sd), levels)[i], at[o.ticket], w);
    LayoutJoin(m', s, at, sd, levels');
  }
}
