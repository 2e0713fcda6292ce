/** How a pure book sits in the slot arrays of the engine. Everything here is about array
    contents, taken as sequences. `at` says which order slot holds the order with a given
    ticket; a side's price map says which level slot holds the level at a given price. */
module BookMemory {
  import opened Types
  import opened BookSpec
  import opened LinkedLists

  const MAP_SIZE: nat := 10001

  datatype OrderSlot = OrderSlot(orderId: Uuid, userId: Uuid, quantity: u64, remaining: u64, sequence: u64,
                                 price: u32, next: u32, prev: u32, side: Side, isMarket: bool)

  datatype LevelSlot = LevelSlot(totalQty: u64, head: u32, tail: u32, count: u32, price: u32,
                                 nextLevel: u32, prevLevel: u32)

  datatype IndexEntry = IndexEntry(slot: u32, levelSlot: u32, side: Side)

  type Slots = map<nat, u32>

  /** The arrays and heads that hold the level lists and order queues. */
  datatype Mem = Mem(os: seq<OrderSlot>, ls: seq<LevelSlot>, bidMap: seq<u32>, askMap: seq<u32>,
                     bidHead: u32, askHead: u32) {
    function Map(sd: Side): seq<u32> {
      if sd.Buy? then bidMap else askMap
    }

    function Head(sd: Side): u32 {
      if sd.Buy? then bidHead else askHead
    }

    function SetSide(sd: Side, pm: seq<u32>, head: u32): Mem {
      if sd.Buy? then this.(bidMap := pm, bidHead := head) else this.(askMap := pm, askHead := head)
    }
  }

  // ----- order queues

  function OrderLinks(os: seq<OrderSlot>): (r: seq<Link>)
    ensures |r| == |os| && forall i :: 0 <= i < |os| ==> r[i] == Link(os[i].next, os[i].prev)
  {
    seq(|os|, i requires 0 <= i < |os| => Link(os[i].next, os[i].prev))
  }

  /** A slot without its links. */
  function Contents(x: OrderSlot): OrderSlot {
    x.(next := INVALID, prev := INVALID)
  }

  function ContentsFor(sd: Side, price: u32, o: Order): OrderSlot {
    OrderSlot(o.id, o.user, o.quantity, o.remaining, o.sequence, price, INVALID, INVALID, sd, false)
  }

  function SlotOf(at: Slots, o: Order): u32 {
    if o.ticket in at then at[o.ticket] else INVALID
  }

  function SlotsOf(q: seq<Order>, at: Slots): (r: seq<u32>)
    ensures |r| == |q| && forall j :: 0 <= j < |q| ==> r[j] == SlotOf(at, q[j])
  {
    seq(|q|, j requires 0 <= j < |q| => SlotOf(at, q[j]))
  }

  predicate Held(os: seq<OrderSlot>, sd: Side, price: u32, o: Order, at: Slots) {
    && o.ticket in at
    && at[o.ticket] as int < |os|
    && Contents(os[at[o.ticket]]) == ContentsFor(sd, price, o)
  }

  ghost predicate AllHeld(os: seq<OrderSlot>, sd: Side, lv: Level, at: Slots) {
    forall j :: 0 <= j < |lv.orders| ==> Held(os, sd, lv.price, lv.orders[j], at)
  }

  ghost predicate QueueOk(os: seq<OrderSlot>, sd: Side, lv: Level, at: Slots) {
    && AllHeld(os, sd, lv, at)
    && Chain(OrderLinks(os), SlotsOf(lv.orders, at))
  }

  ghost predicate QueuesOk(os: seq<OrderSlot>, sd: Side, levels: seq<Level>, at: Slots) {
    forall i :: 0 <= i < |levels| ==> QueueOk(os, sd, levels[i], at)
  }

  ghost predicate Injective(at: Slots) {
    forall t, u :: t in at && u in at && at[t] == at[u] ==> t == u
  }

  // ----- level lists

  function LevelLinks(ls: seq<LevelSlot>): (r: seq<Link>)
    ensures |r| == |ls| && forall i :: 0 <= i < |ls| ==> r[i] == Link(ls[i].nextLevel, ls[i].prevLevel)
  {
    seq(|ls|, i requires 0 <= i < |ls| => Link(ls[i].nextLevel, ls[i].prevLevel))
  }

  function MapAt(pm: seq<u32>, p: int): u32 {
    if 0 <= p < |pm| then pm[p] else INVALID
  }

  function RefsOf(pm: seq<u32>, levels: seq<Level>): (r: seq<u32>)
    ensures |r| == |levels| && forall i :: 0 <= i < |levels| ==> r[i] == MapAt(pm, levels[i].price)
  {
    seq(|levels|, i requires 0 <= i < |levels| => MapAt(pm, levels[i].price))
  }

  predicate Header(x: LevelSlot, lv: Level, at: Slots) {
    var xs := SlotsOf(lv.orders, at);
    x.price == lv.price && x.head == First(xs) && x.tail == Last(xs) && x.count as int == |xs|
  }

  ghost predicate Headers(ls: seq<LevelSlot>, refs: seq<u32>, levels: seq<Level>, at: Slots)
    requires |refs| == |levels|
  {
    forall i :: 0 <= i < |levels| ==> refs[i] as int < |ls| && Header(ls[refs[i]], levels[i], at)
  }

  ghost predicate HasPrice(levels: seq<Level>, p: int) {
    exists i :: 0 <= i < |levels| && levels[i].price == p
  }

  /** The price map names a level exactly at the prices that have one. */
  ghost predicate MapExact(pm: seq<u32>, levels: seq<Level>) {
    |pm| == MAP_SIZE && forall p :: 0 <= p < |pm| && pm[p] != INVALID ==> HasPrice(levels, p)
  }

  ghost predicate LevelsOk(ls: seq<LevelSlot>, pm: seq<u32>, head: u32, levels: seq<Level>, at: Slots) {
    var refs := RefsOf(pm, levels);
    && MapExact(pm, levels)
    && head == First(refs)
    && Headers(ls, refs, levels, at)
    && Chain(LevelLinks(ls), refs)
  }

  ghost predicate SideOk(m: Mem, sd: Side, levels: seq<Level>, at: Slots) {
    && Ordered(sd, levels)
    && QueuesOk(m.os, sd, levels, at)
    && LevelsOk(m.ls, m.Map(sd), m.Head(sd), levels, at)
  }

  /** The arrays hold exactly these level lists and queues. */
  ghost predicate Layout(m: Mem, s: Sides, at: Slots) {
    && |m.os| == MAX_ORDERS
    && |m.ls| == MAX_LEVELS
    && Injective(at)
    && (forall sd: Side {:trigger s.Get(sd)} :: SideOk(m, sd, s.Get(sd), at))
    && Apart(RefsOf(m.bidMap, s.bids), RefsOf(m.askMap, s.asks))
  }

  // ----- basic facts

  lemma LayoutSplit(m: Mem, s: Sides, at: Slots, sd: Side)
    requires Layout(m, s, at)
    ensures SideOk(m, sd, s.Get(sd), at)
    ensures Apart(RefsOf(m.Map(sd), s.Get(sd)), RefsOf(m.Map(sd.Opposite()), s.Get(sd.Opposite())))
  {
  }

  lemma LayoutJoin(m: Mem, s: Sides, at: Slots, sd: Side, levels: seq<Level>)
    requires |m.os| == MAX_ORDERS && |m.ls| == MAX_LEVELS && Injective(at)
    requires SideOk(m, sd, levels, at)
    requires SideOk(m, sd.Opposite(), s.Get(sd.Opposite()), at)
    requires Apart(RefsOf(m.Map(sd), levels), RefsOf(m.Map(sd.Opposite()), s.Get(sd.Opposite())))
    ensures Layout(m, s.Set(sd, levels), at)
  {
    var s' := s.Set(sd, levels);
    forall side: Side ensures SideOk(m, side, s'.Get(side), at) {
      if side == sd {
        assert s'.Get(side) == levels;
      } else {
        assert s'.Get(side) == s.Get(sd.Opposite()) && side == sd.Opposite();
      }
    }
  }

  lemma RefsDistinct(ls: seq<LevelSlot>, pm: seq<u32>, sd: Side, levels: seq<Level>, at: Slots)
    requires Sorted(sd, levels) && Headers(ls, RefsOf(pm, levels), levels, at)
    ensures Distinct(RefsOf(pm, levels))
  {
    var refs := RefsOf(pm, levels);
    forall i, k | 0 <= i < k < |refs| ensures refs[i] != refs[k] {
      assert Better(sd, levels[i].price, levels[k].price);
      assert Header(ls[refs[i]], levels[i], at);
      assert Header(ls[refs[k]], levels[k], at);
    }
  }

  lemma SlotsDistinct(q: seq<Order>, at: Slots)
    requires Fifo(q) && Injective(at) && forall j :: 0 <= j < |q| ==> q[j].ticket in at
    ensures Distinct(SlotsOf(q, at))
  {
    var xs := SlotsOf(q, at);
    forall i, k | 0 <= i < k < |xs| ensures xs[i] != xs[k] {
      assert q[i].ticket < q[k].ticket;
    }
  }

  /** Queues at different (side, price) share no slot: a slot records its side and price. */
  lemma SlotsApart(os: seq<OrderSlot>, sd: Side, lv: Level, sd2: Side, lv2: Level, at: Slots)
    requires AllHeld(os, sd, lv, at) && AllHeld(os, sd2, lv2, at)
    requires sd != sd2 || lv.price != lv2.price
    ensures Apart(SlotsOf(lv.orders, at), SlotsOf(lv2.orders, at))
  {
    var xs, ys := SlotsOf(lv.orders, at), SlotsOf(lv2.orders, at);
    forall i, j | 0 <= i < |xs| && 0 <= j < |ys| ensures xs[i] != ys[j] {
      assert Held(os, sd, lv.price, lv.orders[i], at);
      assert Held(os, sd2, lv2.price, lv2.orders[j], at);
    }
  }

  // ----- pointer writes

  function NextSet(os: seq<OrderSlot>, s: u32, v: u32): seq<OrderSlot> {
    if s as int < |os| then os[s := os[s].(next := v)] else os
  }

  function PrevSet(os: seq<OrderSlot>, s: u32, v: u32): seq<OrderSlot> {
    if s as int < |os| then os[s := os[s].(prev := v)] else os
  }

  ghost predicate SameContents(os: seq<OrderSlot>, os': seq<OrderSlot>) {
    |os| == |os'| && forall k :: 0 <= k < |os| ==> Contents(os[k]) == Contents(os'[k])
  }

  lemma NextSetLinks(os: seq<OrderSlot>, s: u32, v: u32)
    ensures OrderLinks(NextSet(os, s, v)) == SetNext(OrderLinks(os), s, v)
    ensures SameContents(os, NextSet(os, s, v))
  {
  }

  lemma PrevSetLinks(os: seq<OrderSlot>, s: u32, v: u32)
    ensures OrderLinks(PrevSet(os, s, v)) == SetPrev(OrderLinks(os), s, v)
    ensures SameContents(os, PrevSet(os, s, v))
  {
  }

  lemma HeldFrame(os: seq<OrderSlot>, os': seq<OrderSlot>, sd: Side, lv: Level, at: Slots)
    requires SameContents(os, os') && AllHeld(os, sd, lv, at)
    ensures AllHeld(os', sd, lv, at)
  {
    forall j | 0 <= j < |lv.orders| ensures Held(os', sd, lv.price, lv.orders[j], at) {
      assert Held(os, sd, lv.price, lv.orders[j], at);
    }
  }
}
