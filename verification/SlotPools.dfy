/** Who owns which slot: the free stacks, the ticket-to-slot assignment, the cancel index,
    the running totals and the cached best prices, each as a statement about array contents. */
module SlotPools {
  import opened Types
  import opened BookSpec
  import opened LinkedLists
  import opened BookMemory

  // ----- changing the assignment of slots to tickets

  lemma SlotsKept(q: seq<Order>, at: Slots, at': Slots)
    requires forall j :: 0 <= j < |q| ==> SlotOf(at', q[j]) == SlotOf(at, q[j])
    ensures SlotsOf(q, at') == SlotsOf(q, at)
  {
  }

  lemma SideReassigned(m: Mem, sd: Side, levels: seq<Level>, at: Slots, at': Slots, t: nat)
    requires SideOk(m, sd, levels, at)
    requires forall i :: 0 <= i < |levels| ==> NotQueued(levels[i].orders, t)
    requires forall u :: u != t ==> (u in at <==> u in at') && (u in at ==> at[u] == at'[u])
    ensures SideOk(m, sd, levels, at')
  {
    forall i | 0 <= i < |levels|
      ensures QueueOk(m.os, sd, levels[i], at')
      ensures SlotsOf(levels[i].orders, at') == SlotsOf(levels[i].orders, at)
    {
      assert QueueOk(m.os, sd, levels[i], at);
      SlotsKept(levels[i].orders, at, at');
      forall j | 0 <= j < |levels[i].orders| ensures Held(m.os, sd, levels[i].price, levels[i].orders[j], at') {
        assert Held(m.os, sd, levels[i].price, levels[i].orders[j], at);
      }
    }
    var refs := RefsOf(m.Map(sd), levels);
    forall i | 0 <= i < |levels| ensures refs[i] as int < |m.ls| && Header(m.ls[refs[i]], levels[i], at') {
      assert Header(m.ls[refs[i]], levels[i], at);
    }
  }

  lemma LayoutReassigned(m: Mem, s: Sides, at: Slots, at': Slots, t: nat)
    requires Layout(m, s, at) && Absent(s, t) && Injective(at')
    requires forall u :: u != t ==> (u in at <==> u in at') && (u in at ==> at[u] == at'[u])
    ensures Layout(m, s, at')
  {
    LayoutSplit(m, s, at, Buy);
    LayoutSplit(m, s, at, Sell);
    SideReassigned(m, Buy, s.bids, at, at', t);
    SideReassigned(m, Sell, s.asks, at, at', t);
    LayoutJoin(m, s, at', Buy, s.bids);
  }

  ghost predicate UnusedBy(levels: seq<Level>, at: Slots, x: u32) {
    forall i :: 0 <= i < |levels| ==> x !in SlotsOf(levels[i].orders, at)
  }

  /** Slot x, which no resting order uses, is overwritten. */
  lemma LayoutOverwritten(m: Mem, s: Sides, at: Slots, x: u32, v: OrderSlot)
    requires Layout(m, s, at) && x as int < |m.os|
    requires UnusedBy(s.bids, at, x) && UnusedBy(s.asks, at, x)
    ensures Layout(m.(os := m.os[x := v]), s, at)
  {
    LayoutSplit(m, s, at, Buy);
    LayoutSplit(m, s, at, Sell);
    SideOverwritten(m, Buy, s.bids, at, x, v);
    SideOverwritten(m, Sell, s.asks, at, x, v);
    LayoutJoin(m.(os := m.os[x := v]), s, at, Buy, s.bids);
  }

  lemma SideOverwritten(m: Mem, sd: Side, levels: seq<Level>, at: Slots, x: u32, v: OrderSlot)
    requires SideOk(m, sd, levels, at) && x as int < |m.os| && UnusedBy(levels, at, x)
    ensures SideOk(m.(os := m.os[x := v]), sd, levels, at)
  {
    forall i | 0 <= i < |levels| ensures QueueOk(m.os[x := v], sd, levels[i], at) {
      QueueOverwritten(m.os, sd, levels[i], at, x, v);
    }
  }

  lemma QueueOverwritten(os: seq<OrderSlot>, sd: Side, lv: Level, at: Slots, x: u32, v: OrderSlot)
    requires QueueOk(os, sd, lv, at) && x as int < |os| && x !in SlotsOf(lv.orders, at)
    ensures QueueOk(os[x := v], sd, lv, at)
  {
    var xs := SlotsOf(lv.orders, at);
    forall j | 0 <= j < |xs|
      ensures Held(os[x := v], sd, lv.price, lv.orders[j], at) && Node(OrderLinks(os[x := v]), xs, j)
    {
      assert Held(os, sd, lv.price, lv.orders[j], at) && Node(OrderLinks(os), xs, j);
      assert xs[j] in xs;
    }
  }

  // ----- the free stacks

  ghost predicate FreeStack(free: seq<u32>, top: u32, size: nat) {
    && |free| == size && top as int <= size < INVALID
    && (forall k :: 0 <= k < top ==> free[k] as int < size)
    && (forall k, l :: 0 <= k < l < top ==> free[k] != free[l])
  }

  /** Free order slots are not in use, every ticket is below n, and the two kinds of slot fill the pool. */
  ghost predicate OrderPool(free: seq<u32>, top: u32, at: Slots, n: nat) {
    && FreeStack(free, top, MAX_ORDERS)
    && Injective(at)
    && (forall t :: t in at ==> t < n && at[t] as int < MAX_ORDERS)
    && (forall k, t :: 0 <= k < top && t in at ==> free[k] != at[t])
    && |at| + top as int == MAX_ORDERS
  }

  lemma OrderFreed(free: seq<u32>, top: u32, at: Slots, n: nat, t: nat)
    requires OrderPool(free, top, at, n) && t in at
    ensures top as int < MAX_ORDERS
    ensures OrderPool(free[top := at[t]], top + 1, at - {t}, n)
  {
    assert at == (at - {t})[t := at[t]];
  }

  lemma OrderAllocated(free: seq<u32>, top: u32, at: Slots, n: nat, t: nat)
    requires OrderPool(free, top, at, n) && top > 0 && t >= n
    ensures OrderPool(free, top - 1, at[t := free[top - 1]], t + 1)
  {
  }

  ghost predicate LevelPool(free: seq<u32>, top: u32, bidRefs: seq<u32>, askRefs: seq<u32>) {
    && FreeStack(free, top, MAX_LEVELS)
    && Apart(free[..top], bidRefs)
    && Apart(free[..top], askRefs)
    && |bidRefs| + |askRefs| + top as int == MAX_LEVELS
  }

  lemma LevelFreed(free: seq<u32>, top: u32, here: seq<u32>, there: seq<u32>, i: nat)
    requires LevelPool(free, top, here, there) && i < |here|
    requires Distinct(here) && Apart(here, there) && here[i] as int < MAX_LEVELS
    ensures top as int < MAX_LEVELS
    ensures LevelPool(free[top := here[i]], top + 1, Without(here, i), there)
  {
    var stack, here' := free[top := here[i]][..top + 1], Without(here, i);
    assert stack == free[..top] + [here[i]];
    forall a, b | 0 <= a < |stack| && 0 <= b < |here'| ensures stack[a] != here'[b] {
      assert here'[b] == here[if b < i then b else b + 1];
    }
    assert forall k :: 0 <= k < top ==> free[..top][k] == free[k];
  }

  lemma LevelAllocated(free: seq<u32>, top: u32, here: seq<u32>, there: seq<u32>, i: nat)
    requires LevelPool(free, top, here, there) && top > 0 && i <= |here|
    ensures LevelPool(free, top - 1, Inserted(here, i, free[top - 1]), there)
    ensures free[top - 1] !in here && free[top - 1] !in there
  {
    var x := free[top - 1];
    assert free[..top][top - 1] == x;
    InsertedIndex(here, i, x);
    var stack, here' := free[..top - 1], Inserted(here, i, x);
    forall a, b | 0 <= a < |stack| && 0 <= b < |here'| ensures stack[a] != here'[b] {
      assert free[..top][a] == free[a];
    }
    forall a, b | 0 <= a < |stack| && 0 <= b < |there| ensures stack[a] != there[b] {
      assert free[..top][a] == free[a];
    }
  }

  lemma LevelPoolFlipped(free: seq<u32>, top: u32, a: seq<u32>, b: seq<u32>)
    requires LevelPool(free, top, a, b)
    ensures LevelPool(free, top, b, a)
  {
  }

  // ----- running totals

  ghost predicate SumsOk(ls: seq<LevelSlot>, refs: seq<u32>, levels: seq<Level>)
    requires |refs| == |levels|
  {
    forall i :: 0 <= i < |levels| && refs[i] as int < |ls| ==>
      ls[refs[i]].totalQty as int == Total(levels[i].orders) % TWO64
  }

  // ----- the cancel index

  /** Index entry e says what the abstract index says about its bucket. */
  predicate EntryOk(e: IndexEntry, index: map<nat, Ref>, k: nat, at: Slots, bm: seq<u32>, am: seq<u32>) {
    if k !in index then e.slot == INVALID
    else
      var r := index[k];
      && r.ticket in at && e.slot == at[r.ticket] && e.slot != INVALID
      && e.side == r.side
      && e.levelSlot == MapAt(if r.side.Buy? then bm else am, r.price)
  }

  ghost predicate IndexOk(ix: seq<IndexEntry>, index: map<nat, Ref>, at: Slots, bm: seq<u32>, am: seq<u32>) {
    |ix| == MAX_ORDERS && forall k :: 0 <= k < |ix| ==> EntryOk(ix[k], index, k, at, bm, am)
  }

  /** The index still reads the same when slots and price maps change only where it names nothing. */
  lemma IndexKept(ix: seq<IndexEntry>, index: map<nat, Ref>, at: Slots, bm: seq<u32>, am: seq<u32>,
                  at': Slots, bm': seq<u32>, am': seq<u32>)
    requires IndexOk(ix, index, at, bm, am)
    requires forall k :: k in index ==>
               var r := index[k];
               && r.ticket in at' && (r.ticket in at ==> at'[r.ticket] == at[r.ticket])
               && (r.side.Buy? ==> MapAt(bm', r.price) == MapAt(bm, r.price))
               && (r.side.Sell? ==> MapAt(am', r.price) == MapAt(am, r.price))
    ensures IndexOk(ix, index, at', bm', am')
  {
    forall k | 0 <= k < |ix| ensures EntryOk(ix[k], index, k, at', bm', am') {
      assert EntryOk(ix[k], index, k, at, bm, am);
    }
  }

  lemma IndexCleared(ix: seq<IndexEntry>, index: map<nat, Ref>, at: Slots, bm: seq<u32>, am: seq<u32>, k: nat)
    requires IndexOk(ix, index, at, bm, am) && k < |ix|
    ensures IndexOk(ix[k := ix[k].(slot := INVALID)], index - {k}, at, bm, am)
  {
    var ix' := ix[k := ix[k].(slot := INVALID)];
    forall n | 0 <= n < |ix| ensures EntryOk(ix'[n], index - {k}, n, at, bm, am) {
      assert EntryOk(ix[n], index, n, at, bm, am);
    }
  }

  lemma IndexSet(ix: seq<IndexEntry>, index: map<nat, Ref>, at: Slots, bm: seq<u32>, am: seq<u32>, k: nat,
                 r: Ref, e: IndexEntry)
    requires IndexOk(ix, index, at, bm, am) && k < |ix|
    requires EntryOk(e, map[k := r], k, at, bm, am)
    ensures IndexOk(ix[k := e], index[k := r], at, bm, am)
  {
    var ix' := ix[k := e];
    forall n | 0 <= n < |ix'| ensures EntryOk(ix'[n], index[k := r], n, at, bm, am) {
      assert EntryOk(ix[n], index, n, at, bm, am);
    }
  }

  // ----- totals after one level changes

  lemma SumsReplaced(ls: seq<LevelSlot>, ls': seq<LevelSlot>, refs: seq<u32>, levels: seq<Level>, i: nat, lv: Level)
    requires |refs| == |levels| && SumsOk(ls, refs, levels) && Distinct(refs) && i < |levels|
    requires |ls'| == |ls| && refs[i] as int < |ls|
    requires forall k :: 0 <= k < |ls| && k != refs[i] as int ==> ls'[k].totalQty == ls[k].totalQty
    requires ls'[refs[i]].totalQty as int == Total(lv.orders) % TWO64
    ensures SumsOk(ls', refs, levels[i := lv])
  {
  }

  lemma SumsElsewhere(ls: seq<LevelSlot>, ls': seq<LevelSlot>, refs: seq<u32>, levels: seq<Level>, l: u32)
    requires |refs| == |levels| && SumsOk(ls, refs, levels) && l !in refs && |ls'| == |ls|
    requires forall k :: 0 <= k < |ls| && k != l as int ==> ls'[k].totalQty == ls[k].totalQty
    ensures SumsOk(ls', refs, levels)
  {
  }

  // ----- cached best prices

  predicate BestOk(bestBid: u32, bestAsk: u32, s: Sides) {
    && bestBid == (if s.bids == [] then 0 else s.bids[0].price)
    && bestAsk == (if s.asks == [] then 10001 else s.asks[0].price)
  }
}
