/** The whole state of an order book in memory, the invariant that ties it to a pure book,
    and what each step of the engine does to both. */
module BookImage {
  import opened Types
  import opened BookSpec
  import opened BookInvariants
  import opened LinkedLists
  import opened BookMemory
  import opened QueueUpdates
  import opened SlotPools

  datatype Image = Image(mem: Mem, orderFree: seq<u32>, orderTop: u32, levelFree: seq<u32>, levelTop: u32,
                         index: seq<IndexEntry>, bestBid: u32, bestAsk: u32, fillSequence: u64, sequence: u64)

  ghost predicate SumsSide(m: Mem, sd: Side, levels: seq<Level>) {
    SumsOk(m.ls, RefsOf(m.Map(sd), levels), levels)
  }

  ghost predicate Sums(m: Mem, s: Sides) {
    SumsSide(m, Buy, s.bids) && SumsSide(m, Sell, s.asks)
  }

  ghost predicate LevelPoolFor(g: Image, s: Sides, sd: Side) {
    LevelPool(g.levelFree, g.levelTop, RefsOf(g.mem.Map(sd), s.Get(sd)),
              RefsOf(g.mem.Map(sd.Opposite()), s.Get(sd.Opposite())))
  }

  /** `limbo` order slots are neither free nor in a queue. */
  ghost predicate Pools(g: Image, s: Sides, at: Slots, n: nat, limbo: nat) {
    && OrderPool(g.orderFree, g.orderTop, at, n)
    && Live(s) + g.orderTop as int + limbo == MAX_ORDERS
    && LevelPoolFor(g, s, Buy)
  }

  ghost predicate Naming(h: Hash, g: Image, s: Sides, index: map<nat, Ref>, at: Slots) {
    IndexOk(g.index, index, at, g.mem.bidMap, g.mem.askMap) && RefsOk(h, s, index)
  }

  predicate Counters(g: Image, b: Book) {
    g.sequence == b.sequence && g.fillSequence as int == b.fillCount % TWO64
  }

  /** The image holds book b; tickets in use are below n. Levels may be empty between steps. */
  ghost predicate Inv(h: Hash, g: Image, b: Book, at: Slots, n: nat, limbo: nat) {
    && Layout(g.mem, b.sides, at)
    && Sums(g.mem, b.sides)
    && Pools(g, b.sides, at, n, limbo)
    && Naming(h, g, b.sides, b.index, at)
    && OlderSides(b.sides, n)
    && Counters(g, b)
  }

  /** An image between two steps of an operation. */
  ghost predicate Good(h: Hash, g: Image, b: Book, at: Slots, n: nat) {
    Inv(h, g, b, at, n, 0) && BestOk(g.bestBid, g.bestAsk, b.sides)
  }

  // ----- wrap-around sums

  function WrapAdd(a: u64, b: u64): u64 {
    if a + b < TWO64 then a + b else a + b - TWO64
  }

  function WrapSub(a: u64, b: u64): u64 {
    if a >= b then a - b else a - b + TWO64
  }

  lemma WrapSubMod(total: nat, d: u64)
    requires d <= total
    ensures WrapSub(total % TWO64, d) == (total - d) % TWO64
  {
  }

  lemma WrapAddMod(total: nat, d: u64)
    ensures WrapAdd(total % TWO64, d) == (total + d) % TWO64
  {
  }

  lemma {:induction false} TotalReplaced(q: seq<Order>, j: nat, v: u64)
    requires j < |q|
    ensures Total(q[j := q[j].(remaining := v)]) == Total(q) - q[j].remaining + v
    ensures q[j].remaining <= Total(q)
  {
    if j > 0 {
      assert q[j := q[j].(remaining := v)][1..] == q[1..][j - 1 := q[j].(remaining := v)];
      TotalReplaced(q[1..], j - 1, v);
    }
  }

  lemma {:induction false} TotalWithout(q: seq<Order>, j: nat)
    requires j < |q|
    ensures Total(Without(q, j)) == Total(q) - q[j].remaining
    ensures q[j].remaining <= Total(q)
  {
    if j == 0 {
      assert Without(q, j) == q[1..];
    } else {
      assert Without(q, j)[0] == q[0];
      assert Without(q, j)[1..] == Without(q[1..], j - 1);
      TotalWithout(q[1..], j - 1);
    }
  }

  lemma {:induction false} TotalAppend(q: seq<Order>, o: Order)
    ensures Total(q + [o]) == Total(q) + o.remaining
  {
    if q != [] {
      assert (q + [o])[1..] == q[1..] + [o];
      TotalAppend(q[1..], o);
    }
  }

  // ----- one level's queue changes, its place in the list does not

  /** Level slot l of side sd, level i, now totals what queue lv.orders totals; nothing else in
      the running totals moved. */
  ghost predicate OneTotal(m: Mem, m': Mem, l: u32, lv: Level) {
    && |m'.ls| == |m.ls| && l as int < |m.ls|
    && (forall k :: 0 <= k < |m.ls| && k != l as int ==> m'.ls[k].totalQty == m.ls[k].totalQty)
    && m'.ls[l].totalQty as int == Total(lv.orders) % TWO64
  }

  lemma SumsQueue(m: Mem, m': Mem, s: Sides, at: Slots, sd: Side, i: nat, lv: Level)
    requires Layout(m, s, at) && Sums(m, s) && i < |s.Get(sd)|
    requires m'.bidMap == m.bidMap && m'.askMap == m.askMap && lv.price == s.Get(sd)[i].price
    requires RefsOf(m.Map(sd), s.Get(sd)[i := lv]) == RefsOf(m.Map(sd), s.Get(sd))
    requires OneTotal(m, m', RefsOf(m.Map(sd), s.Get(sd))[i], lv)
    ensures Sums(m', s.Set(sd, s.Get(sd)[i := lv]))
  {
    var other, levels := sd.Opposite(), s.Get(sd);
    var refs, refs2 := RefsOf(m.Map(sd), levels), RefsOf(m.Map(other), s.Get(other));
    LayoutSplit(m, s, at, sd);
    RefsDistinct(m.ls, m.Map(sd), sd, levels, at);
    ApartAt(refs, refs2, i);
    SumsReplaced(m.ls, m'.ls, refs, levels, i, lv);
    SumsElsewhere(m.ls, m'.ls, refs2, s.Get(other), refs[i]);
  }

  lemma PoolsSameRefs(g: Image, g': Image, s: Sides, s': Sides, at: Slots, n: nat, limbo: nat)
    requires Pools(g, s, at, n, limbo)
    requires g'.orderFree == g.orderFree && g'.orderTop == g.orderTop
    requires g'.levelFree == g.levelFree && g'.levelTop == g.levelTop
    requires RefsOf(g'.mem.bidMap, s'.bids) == RefsOf(g.mem.bidMap, s.bids)
    requires RefsOf(g'.mem.askMap, s'.asks) == RefsOf(g.mem.askMap, s.asks)
    requires Live(s') == Live(s)
    ensures Pools(g', s', at, n, limbo)
  {
  }

  lemma BestReplaced(bestBid: u32, bestAsk: u32, s: Sides, sd: Side, i: nat, lv: Level)
    requires BestOk(bestBid, bestAsk, s) && i < |s.Get(sd)| && lv.price == s.Get(sd)[i].price
    ensures BestOk(bestBid, bestAsk, s.Set(sd, s.Get(sd)[i := lv]))
  {
  }

  lemma LiveReplaced(s: Sides, sd: Side, i: nat, lv: Level)
    requires i < |s.Get(sd)|
    ensures Live(s.Set(sd, s.Get(sd)[i := lv])) == Live(s) - |s.Get(sd)[i].orders| + |lv.orders|
    ensures |s.Get(sd)[i].orders| <= Live(s)
  {
    CountReplaced(s.Get(sd), i, lv);
  }

  lemma OlderQueueReplaced(s: Sides, n: nat, sd: Side, i: nat, lv: Level)
    requires OlderSides(s, n) && i < |s.Get(sd)| && OlderQueue(lv.orders, n)
    ensures OlderSides(s.Set(sd, s.Get(sd)[i := lv]), n)
  {
    OlderReplaced(s.Get(sd), n, i, lv);
  }

  // ----- where things are

  /** Level i of side sd is in slot l, and order j of its queue is in slot x. */
  ghost predicate Located(m: Mem, s: Sides, at: Slots, sd: Side, i: nat, j: nat, l: u32, x: u32) {
    && i < |s.Get(sd)| && j < |s.Get(sd)[i].orders|
    && l == RefsOf(m.Map(sd), s.Get(sd))[i] && x == SlotOf(at, s.Get(sd)[i].orders[j])
    && l as int < |m.ls| && x as int < |m.os|
  }

  lemma Locate(m: Mem, s: Sides, at: Slots, sd: Side, i: nat, j: nat)
    requires Layout(m, s, at)
    requires i < |s.Get(sd)| && j < |s.Get(sd)[i].orders|
    ensures var l := RefsOf(m.Map(sd), s.Get(sd))[i];
            var o := s.Get(sd)[i].orders[j];
            var x := SlotOf(at, o);
            && Located(m, s, at, sd, i, j, l, x)
            && o.ticket in at
            && Contents(m.os[x]) == ContentsFor(sd, s.Get(sd)[i].price, o)
            && Header(m.ls[l], s.Get(sd)[i], at)
  {
    LayoutSplit(m, s, at, sd);
    assert QueueOk(m.os, sd, s.Get(sd)[i], at);
    assert Held(m.os, sd, s.Get(sd)[i].price, s.Get(sd)[i].orders[j], at);
  }

  lemma LocateLevel(m: Mem, s: Sides, at: Slots, sd: Side, i: nat)
    requires Layout(m, s, at) && i < |s.Get(sd)|
    ensures var l := RefsOf(m.Map(sd), s.Get(sd))[i];
            l as int < |m.ls| && Header(m.ls[l], s.Get(sd)[i], at)
  {
    LayoutSplit(m, s, at, sd);
  }

  // ----- step: a resting order trades part of its quantity

  lemma ReducedTotal(m: Mem, s: Sides, sd: Side, i: nat, j: nat, d: u64, l: u32)
    requires Sums(m, s) && i < |s.Get(sd)| && j < |s.Get(sd)[i].orders|
    requires l == RefsOf(m.Map(sd), s.Get(sd))[i] && l as int < |m.ls|
    requires d <= s.Get(sd)[i].orders[j].remaining
    ensures WrapSub(m.ls[l].totalQty, d) ==
            Total(Reduced(s.Get(sd), i, j, s.Get(sd)[i].orders[j].remaining - d)[i].orders) % TWO64
  {
    var q := s.Get(sd)[i].orders;
    TotalReplaced(q, j, q[j].remaining - d);
    WrapSubMod(Total(q), d);
  }

  lemma SumsAt(m: Mem, s: Sides, sd: Side, i: nat)
    requires Sums(m, s) && i < |s.Get(sd)|
    ensures var l := RefsOf(m.Map(sd), s.Get(sd))[i];
            l as int < |m.ls| ==> m.ls[l].totalQty as int == Total(s.Get(sd)[i].orders) % TWO64
  {
  }

  lemma ReducedSums(m: Mem, m': Mem, s: Sides, at: Slots, sd: Side, i: nat, j: nat, l: u32, x: u32,
                    levels: seq<Level>, levels': seq<Level>, v: u64, w: u64)
    requires Layout(m, s, at) && Sums(m, s) && Located(m, s, at, sd, i, j, l, x)
    requires levels == s.Get(sd) && levels' == Reduced(levels, i, j, v)
    requires m' == MemReduced(m, l, x, v, w) && w as int == Total(levels'[i].orders) % TWO64
    ensures Layout(m', s.Set(sd, levels'), at) && Sums(m', s.Set(sd, levels'))
    ensures RefsOf(m'.Map(sd), levels') == RefsOf(m.Map(sd), levels)
  {
    ReducedLayout(m, s, at, sd, i, j, v, w);
    assert levels[i := levels'[i]] == levels';
    SumsQueue(m, m', s, at, sd, i, levels'[i]);
  }

  lemma ReducedInv(h: Hash, g: Image, m': Mem, b: Book, at: Slots, n: nat, limbo: nat, sd: Side, i: nat, j: nat,
                   l: u32, x: u32, levels: seq<Level>, levels': seq<Level>, v: u64, w: u64)
    requires Inv(h, g, b, at, n, limbo) && Located(g.mem, b.sides, at, sd, i, j, l, x)
    requires levels == b.sides.Get(sd) && levels' == Reduced(levels, i, j, v)
    requires m' == MemReduced(g.mem, l, x, v, w) && w as int == Total(levels'[i].orders) % TWO64
    ensures Inv(h, g.(mem := m'), b.(sides := b.sides.Set(sd, levels')), at, n, limbo)
  {
    var s, s' := b.sides, b.sides.Set(sd, levels');
    ReducedSums(g.mem, m', s, at, sd, i, j, l, x, levels, levels', v, w);
    ReducedRest(h, g, m', b, at, n, limbo, sd, i, levels, levels');
  }

  lemma ReducedRest(h: Hash, g: Image, m': Mem, b: Book, at: Slots, n: nat, limbo: nat, sd: Side, i: nat,
                    levels: seq<Level>, levels': seq<Level>)
    requires Pools(g, b.sides, at, n, limbo) && Naming(h, g, b.sides, b.index, at)
    requires OlderSides(b.sides, n)
    requires levels == b.sides.Get(sd) && i < |levels| && |levels'| == |levels| && levels' == levels[i := levels'[i]]
    requires levels'[i].price == levels[i].price && |levels'[i].orders| == |levels[i].orders|
    requires forall j :: 0 <= j < |levels[i].orders| ==>
               && levels'[i].orders[j].ticket == levels[i].orders[j].ticket
               && levels'[i].orders[j].id == levels[i].orders[j].id
    requires m'.bidMap == g.mem.bidMap && m'.askMap == g.mem.askMap
    requires RefsOf(m'.Map(sd), levels') == RefsOf(g.mem.Map(sd), levels)
    ensures var s' := b.sides.Set(sd, levels');
            && Pools(g.(mem := m'), s', at, n, limbo) && Naming(h, g.(mem := m'), s', b.index, at)
            && OlderSides(s', n)
  {
    var s, s' := b.sides, b.sides.Set(sd, levels');
    LiveReplaced(s, sd, i, levels'[i]);
    PoolsSameRefs(g, g.(mem := m'), s, s', at, n, limbo);
    RefsReplaced(h, s, b.index, sd, i, levels'[i]);
    assert OlderQueue(levels'[i].orders, n) by { assert OlderQueue(levels[i].orders, n); }
    OlderQueueReplaced(s, n, sd, i, levels'[i]);
  }
}
