/** The order book of engine/src/order_book.cpp: fixed arrays of order and level slots, two
    free stacks, per-price maps, a hashed cancel index and cached best prices, all updated in
    place, and proved to hold the pure book of BookSpec after every operation. */
module OrderBooks {
  import opened Types
  import opened BookSpec
  import opened BookSafety
  import opened LinkedLists
  import opened BookMemory
  import opened QueueUpdates
  import opened LevelUpdates
  import opened SlotPools
  import opened BookImage
  import opened BookSteps
  import SlotPartition

  datatype PriceLevel = PriceLevel(price: u32, quantity: u64, count: u32)

  method FillStack(free: array<u32>)
    requires free.Length < TWO32
    modifies free
    ensures Countdown(free[..], free.Length)
  {
    for i := 0 to free.Length
      invariant forall k :: 0 <= k < i ==> free[k] as int == free.Length - 1 - k
    {
      free[i] := free.Length - 1 - i;
    }
  }

  method ClearIndex(index: array<IndexEntry>)
    modifies index
    ensures forall k :: 0 <= k < index.Length ==> index[k].slot == INVALID && index[k].levelSlot == INVALID
  {
    for i := 0 to index.Length
      invariant forall k :: 0 <= k < i ==> index[k].slot == INVALID && index[k].levelSlot == INVALID
    {
      index[i] := index[i].(slot := INVALID, levelSlot := INVALID);
    }
  }

  method ClearMap(pm: array<u32>)
    modifies pm
    ensures forall p :: 0 <= p < pm.Length ==> pm[p] == INVALID
  {
    for i := 0 to pm.Length
      invariant forall p :: 0 <= p < i ==> pm[p] == INVALID
    {
      pm[i] := INVALID;
    }
  }

  class OrderBook {
    const market: Uuid
    const hash: Hash
    const orders: array<OrderSlot>
    const levels: array<LevelSlot>
    const orderFree: array<u32>
    const levelFree: array<u32>
    const index: array<IndexEntry>
    const bidMap: array<u32>
    const askMap: array<u32>

    var sequence: u64
    var fillSequence: u64
    var bestBid: u32
    var bestAsk: u32
    var orderFreeTop: u32
    var levelFreeTop: u32
    var bidHead: u32
    var askHead: u32

    /** The book these arrays hold, the slot of each live ticket, and every fill published so far. */
    ghost var book: Book
    ghost var at: Slots
    ghost var published: seq<Trade>

    ghost function Repr(): set<object> {
      {this, orders, levels, orderFree, levelFree, index, bidMap, askMap}
    }

    ghost predicate Arrays() {
      && orders.Length == MAX_ORDERS && levels.Length == MAX_LEVELS
      && orderFree.Length == MAX_ORDERS && levelFree.Length == MAX_LEVELS
      && index.Length == MAX_ORDERS
      && bidMap.Length == MAP_SIZE && askMap.Length == MAP_SIZE
      && orderFree != levelFree && orderFree != bidMap && orderFree != askMap
      && levelFree != bidMap && levelFree != askMap && bidMap != askMap
    }

    ghost function Memory(): Mem
      reads this, orders, levels, bidMap, askMap
    {
      Mem(orders[..], levels[..], bidMap[..], askMap[..], bidHead, askHead)
    }

    ghost function Snapshot(): Image
      reads Repr()
    {
      Image(Memory(), orderFree[..], orderFreeTop, levelFree[..], levelFreeTop, index[..],
            bestBid, bestAsk, fillSequence, sequence)
    }

    /** Consistent between two steps of an operation: every ticket in use is below n. */
    ghost predicate Ready(n: nat)
      reads Repr()
    {
      Arrays() && Good(hash, Snapshot(), book, at, n)
    }

    ghost predicate Valid()
      reads Repr()
    {
      Ready(book.arrivals) && WellFormed(hash, book)
    }

    constructor (market: Uuid, hash: Hash)
      ensures Valid()
      ensures fresh(orders) && fresh(levels) && fresh(orderFree) && fresh(levelFree) && fresh(index)
              && fresh(bidMap) && fresh(askMap)
      ensures this.market == market && this.hash == hash && book == EmptyBook && published == []
    {
      this.market, this.hash := market, hash;
      orders := new OrderSlot[MAX_ORDERS];
      levels := new LevelSlot[MAX_LEVELS];
      orderFree := new u32[MAX_ORDERS];
      levelFree := new u32[MAX_LEVELS];
      index := new IndexEntry[MAX_ORDERS];
      bidMap := new u32[MAP_SIZE];
      askMap := new u32[MAP_SIZE];
      sequence, fillSequence := 0, 0;
      bestBid, bestAsk := 0, 10001;
      orderFreeTop, levelFreeTop := MAX_ORDERS, MAX_LEVELS;
      bidHead, askHead := INVALID, INVALID;
      book, at, published := EmptyBook, map[], [];
      new;
      hide Valid;
      Clear();
    }

    /** The loops of the constructor. */
    method Clear()
      requires Arrays() && book == EmptyBook && at == map[] && sequence == fillSequence == 0
      requires bestBid == 0 && bestAsk == 10001 && bidHead == askHead == INVALID
      requires orderFreeTop as int == MAX_ORDERS && levelFreeTop as int == MAX_LEVELS
      modifies orderFree, levelFree, index, bidMap, askMap
      ensures Valid()
    {
      hide Good, WellFormed, Inv, Layout, Sums, Pools, Naming, Counters;
      FillStack(orderFree);
      FillStack(levelFree);
      ClearIndex(index);
      ClearMap(bidMap);
      ClearMap(askMap);
      EmptyGood(hash, Snapshot());
    }

    // ----- primitive list updates

    /** Takes order slot os out of the queue of level slot ls: by QueueUpdates.DequeuedLayout, the
        order in os leaves and every other order keeps its place. */
    method Dequeue(ls: u32, os: u32)
      requires Arrays() && ls as int < MAX_LEVELS && os as int < MAX_ORDERS && levels[ls].count > 0
      requires orders[os].prev == INVALID || orders[os].prev as int < MAX_ORDERS
      requires orders[os].next == INVALID || orders[os].next as int < MAX_ORDERS
      requires orders[os].prev != os && orders[os].next != os
      modifies orders, levels
      ensures Memory() == Dequeued(old(Memory()), ls, os)
    {
      var ord, lv := orders[os], levels[ls];
      if ord.prev != INVALID {
        LinkNext(ord.prev, ord.next);
      } else {
        lv := lv.(head := ord.next);
      }
      if ord.next != INVALID {
        LinkPrev(ord.next, ord.prev);
      } else {
        lv := lv.(tail := ord.prev);
      }
      levels[ls] := lv.(count := lv.count - 1);
      assert levels[..] == old(levels[..])[ls := levels[ls]];
    }

    method LinkNext(s: u32, v: u32)
      requires s as int < orders.Length
      modifies orders
      ensures orders[..] == NextSet(old(orders[..]), s, v)
    {
      orders[s] := orders[s].(next := v);
    }

    method LinkPrev(s: u32, v: u32)
      requires s as int < orders.Length
      modifies orders
      ensures orders[..] == PrevSet(old(orders[..]), s, v)
    {
      orders[s] := orders[s].(prev := v);
    }

    /** Puts order slot os at the tail of level slot ls and adds its quantity to the level's total. */
    method Enqueue(ls: u32, os: u32)
      requires Arrays() && ls as int < MAX_LEVELS && os as int < MAX_ORDERS && levels[ls].count as int < MAX_ORDERS
      requires levels[ls].tail == INVALID || levels[ls].tail as int < MAX_ORDERS
      modifies orders, levels
      ensures Memory() == Enqueued(old(Memory()), ls, os, WrapAdd(old(levels[ls].totalQty), old(orders[os].remaining)))
    {
      var lv := levels[ls];
      var qty := orders[os].remaining;
      orders[os] := orders[os].(next := INVALID, prev := lv.tail);
      assert orders[..] == old(orders[..])[os := orders[os]];
      if lv.tail != INVALID {
        LinkNext(lv.tail, os);
      } else {
        lv := lv.(head := os);
      }
      levels[ls] := lv.(tail := os, totalQty := WrapAdd(lv.totalQty, qty), count := lv.count + 1);
      assert levels[..] == old(levels[..])[ls := levels[ls]];
    }

    // ----- the sides: the source selects them by reference

    function HeadOf(sd: Side): u32
      reads this
    {
      if sd.Buy? then bidHead else askHead
    }

    method SetHead(sd: Side, v: u32)
      modifies this`bidHead, this`askHead
      ensures if sd.Buy? then bidHead == v && askHead == old(askHead) else askHead == v && bidHead == old(bidHead)
    {
      if sd.Buy? { bidHead := v; } else { askHead := v; }
    }

    method SetMap(sd: Side, price: u32, v: u32)
      requires Arrays() && price as int < MAP_SIZE
      modifies bidMap, askMap
      ensures bidMap[..] == (if sd.Buy? then old(bidMap[..])[price := v] else old(bidMap[..]))
      ensures askMap[..] == (if sd.Sell? then old(askMap[..])[price := v] else old(askMap[..]))
    {
      if sd.Buy? { bidMap[price] := v; } else { askMap[price] := v; }
    }

    method LinkNextLevel(l: u32, v: u32)
      requires l as int < levels.Length
      modifies levels
      ensures levels[..] == NextLevelSet(old(levels[..]), l, v)
    {
      levels[l] := levels[l].(nextLevel := v);
    }

    method LinkPrevLevel(l: u32, v: u32)
      requires l as int < levels.Length
      modifies levels
      ensures levels[..] == PrevLevelSet(old(levels[..]), l, v)
    {
      levels[l] := levels[l].(prevLevel := v);
    }

    /** Takes level slot ls out of its list, frees it and reads the best price off the new head. */
    method RemoveLevel(ls: u32, sd: Side)
      requires Arrays() && ls as int < MAX_LEVELS && levels[ls].price as int < MAP_SIZE
      requires levels[ls].prevLevel == INVALID || levels[ls].prevLevel as int < MAX_LEVELS
      requires levels[ls].nextLevel == INVALID || levels[ls].nextLevel as int < MAX_LEVELS
      requires levels[ls].prevLevel != INVALID ==> HeadOf(sd) as int < MAX_LEVELS
      requires levels[ls].prevLevel != ls && levels[ls].nextLevel != ls
      requires levelFreeTop as int < MAX_LEVELS
      modifies levels, bidMap, askMap, levelFree, this`bidHead, this`askHead, this`levelFreeTop, this`bestBid,
               this`bestAsk
      ensures Memory() == LevelRemoved(old(Memory()), sd, ls)
      ensures levelFree[..] == old(levelFree[..])[old(levelFreeTop) := ls] && levelFreeTop == old(levelFreeTop) + 1
      ensures bestBid == if sd.Buy? then BestPrice(Memory(), sd) else old(bestBid)
      ensures bestAsk == if sd.Sell? then BestPrice(Memory(), sd) else old(bestAsk)
    {
      var lv := levels[ls];
      if lv.prevLevel != INVALID {
        LinkNextLevel(lv.prevLevel, lv.nextLevel);
      } else {
        SetHead(sd, lv.nextLevel);
      }
      if lv.nextLevel != INVALID {
        LinkPrevLevel(lv.nextLevel, lv.prevLevel);
      }
      SetMap(sd, lv.price, INVALID);
      levelFree[levelFreeTop] := ls;
      levelFreeTop := levelFreeTop + 1;
      if sd.Buy? {
        bestBid := if bidHead != INVALID then levels[bidHead].price else 0;
      } else {
        bestAsk := if askHead != INVALID then levels[askHead].price else 10001;
      }
    }

    /** RemoveLevel on the empty level i of side sd. */
    method DropLevel(ls: u32, sd: Side, ghost n: nat, ghost i: nat)
      requires Ready(n) && i < |book.sides.Get(sd)| && book.sides.Get(sd)[i].orders == []
      requires ls == RefsOf(Memory().Map(sd), book.sides.Get(sd))[i]
      modifies Repr()
      ensures Ready(n) && at == old(at) && published == old(published)
      ensures book == old(book).(sides := old(book.sides).Set(sd, Without(old(book.sides).Get(sd), i)))
    {
      hide Good, Inv, Layout, Sums, Pools, Naming, Counters;
      ghost var levels0 := book.sides.Get(sd);
      GoneGood(hash, Snapshot(), book, at, n, sd, i, ls, levels0);
      GoneInRange(hash, Snapshot(), book, at, n, sd, i, ls);
      RemoveLevel(ls, sd);
      book := book.(sides := book.sides.Set(sd, Without(levels0, i)));
    }

    // ----- free slots

    /** Pushes order slot s onto the free stack; the stack never overflows because s was in use. */
    method FreeOrder(s: u32)
      requires Arrays() && orderFreeTop as int < MAX_ORDERS
      modifies orderFree, this`orderFreeTop
      ensures orderFree[..] == old(orderFree[..])[old(orderFreeTop) := s] && orderFreeTop == old(orderFreeTop) + 1
    {
      orderFree[orderFreeTop] := s;
      orderFreeTop := orderFreeTop + 1;
    }

    // ----- matching

    function BucketOf(id: Uuid): (k: nat)
      ensures k == Bucket(hash, id) && k < MAX_ORDERS
    {
      hash(id) % MAX_ORDERS
    }

    function MakeFill(maker: OrderSlot, takerId: Uuid, takerUser: Uuid, price: u32, qty: u64, aggressor: Side): Fill
      reads this
    {
      Fill(market, maker.orderId, takerId, maker.userId, takerUser, qty, fillSequence, price, aggressor)
    }

    /** Numbers the fill of the taker against the order in slot x and publishes it. */
    method Publish(x: u32, price: u32, qty: u64, ghost t: Taker, ghost maker: Order, orderId: Uuid, userId: Uuid,
                   aggressor: Side)
      requires Ready(t.ticket) && x as int < MAX_ORDERS
      requires t.market == market && t.id == orderId && t.user == userId && t.side == aggressor
      requires orders[x].orderId == maker.id && orders[x].userId == maker.user
      modifies this`fillSequence, this`published, this`book
      ensures Ready(t.ticket) && book == old(book).(fillCount := old(book.fillCount) + 1)
      ensures published
              == old(published) + [Trade(maker.ticket, t.ticket, FillOf(t, price, maker, qty, book.fillCount))]
    {
      hide Good, Inv, Layout, Sums, Pools, Naming, Counters;
      CountedGood(hash, Snapshot(), book, at, t.ticket);
      ghost var g' := Snapshot().(fillSequence := WrapAdd(fillSequence, 1));
      fillSequence := WrapAdd(fillSequence, 1);
      var fill := MakeFill(orders[x], orderId, userId, price, qty, aggressor);
      book := book.(fillCount := book.fillCount + 1);
      published := published + [Trade(maker.ticket, t.ticket, fill)];
      assert Snapshot() == g';
    }

    /** The front order of side sd, in order slot x of level slot l, gives up qty. */
    method ReduceFront(l: u32, x: u32, qty: u64, ghost sd: Side, ghost n: nat, ghost levels0: seq<Level>, ghost v: u64)
      requires Ready(n) && levels0 == book.sides.Get(sd) && Located(Memory(), book.sides, at, sd, 0, 0, l, x)
      requires levels0 != [] && levels0[0].orders != []
      requires v + qty == levels0[0].orders[0].remaining == orders[x].remaining
      modifies orders, levels, this`book
      ensures Ready(n)
      ensures book == old(book).(sides := old(book.sides).Set(sd, Reduced(levels0, 0, 0, v)))
      ensures orders[x] == old(orders[x]).(remaining := v)
      ensures levels[l] == old(levels[l]).(totalQty := levels[l].totalQty)
      ensures Located(Memory(), book.sides, at, sd, 0, 0, l, x)
      ensures book.sides.Get(sd)[0].orders[0] == levels0[0].orders[0].(remaining := v)
    {
      hide Good, Inv, Layout, Sums, Pools, Naming, Counters;
      TradedGood(hash, Snapshot(), book, at, n, sd, l, x, qty, levels0, Reduced(levels0, 0, 0, v), v);
      ghost var g' := Traded(Snapshot(), l, x, qty);
      orders[x] := orders[x].(remaining := orders[x].remaining - qty);
      levels[l] := levels[l].(totalQty := WrapSub(levels[l].totalQty, qty));
      book := book.(sides := book.sides.Set(sd, Reduced(levels0, 0, 0, v)));
      assert orders[..] == g'.mem.os && levels[..] == g'.mem.ls;
      assert Snapshot() == g';
    }

    /** Clears a bucket, takes order slot x out of its queue and frees it. (The source's cancel clears
        the bucket second; the three writes are to different arrays.) */
    method Release(l: u32, x: u32, bucket: nat)
      requires Arrays() && l as int < MAX_LEVELS && x as int < MAX_ORDERS && bucket < MAX_ORDERS && levels[l].count > 0
      requires orders[x].prev == INVALID || orders[x].prev as int < MAX_ORDERS
      requires orders[x].next == INVALID || orders[x].next as int < MAX_ORDERS
      requires orders[x].prev != x && orders[x].next != x && orderFreeTop as int < MAX_ORDERS
      modifies orders, levels, index, orderFree, this`orderFreeTop
      ensures Snapshot() == Retired(old(Snapshot()), l, x, bucket)
    {
      index[bucket] := index[bucket].(slot := INVALID);
      assert index[..] == old(index[..])[bucket := index[bucket]];
      Dequeue(l, x);
      FreeOrder(x);
    }

    /** The front order of side sd has nothing left: its bucket is cleared, it leaves its queue and its slot is
        freed. */
    method RetireFront(l: u32, x: u32, ghost sd: Side, ghost n: nat)
      requires Ready(n) && Located(Memory(), book.sides, at, sd, 0, 0, l, x)
      requires l == HeadOf(sd) && x == levels[l].head
      requires book.sides.Get(sd)[0].orders[0].remaining == 0
      modifies Repr()
      ensures Ready(n) && published == old(published) && bidHead == old(bidHead) && askHead == old(askHead)
      ensures var levels0 := old(book.sides).Get(sd);
              var maker := levels0[0].orders[0];
              && at == old(at) - {maker.ticket}
              && book == old(book).(sides := old(book.sides).Set(sd, Taken(levels0, 0, 0)),
                                    index := old(book.index) - {Bucket(hash, maker.id)})
    {
      hide Good, Inv, Layout, Sums, Pools, Naming, Counters;
      ghost var levels0 := book.sides.Get(sd);
      ghost var maker := levels0[0].orders[0];
      GoodFront(hash, Snapshot(), book, at, n, sd, l, x);
      assert Contents(orders[x]).orderId == maker.id;
      RetiredGood(hash, Snapshot(), book, at, n, sd, l, x, levels0, Taken(levels0, 0, 0), maker);
      ghost var g' := Retired(Snapshot(), l, x, Bucket(hash, maker.id));
      var bucket := BucketOf(orders[x].orderId);
      Release(l, x, bucket);
      book := book.(sides := book.sides.Set(sd, Taken(levels0, 0, 0)), index := book.index - {Bucket(hash, maker.id)});
      at := at - {maker.ticket};
      assert Snapshot() == g';
    }

    ghost predicate TakerIs(t: Taker, orderId: Uuid, userId: Uuid, aggressor: Side, limitPrice: u32, isMarket: bool) {
      t == Taker(market, t.ticket, orderId, userId, aggressor, limitPrice, isMarket)
    }

    /** The taker and the front maker of the best resting level trade. */
    method FillMaker(l: u32, rem: u64, ghost t: Taker, orderId: Uuid, userId: Uuid, aggressor: Side) returns (left: u64)
      requires Ready(t.ticket) && TakerIs(t, orderId, userId, aggressor, t.limit, t.isMarket)
      requires l == HeadOf(aggressor.Opposite())
      requires book.sides.Get(aggressor.Opposite()) != [] && book.sides.Get(aggressor.Opposite())[0].orders != []
      modifies Repr()
      ensures Ready(t.ticket) && bidHead == old(bidHead) && askHead == old(askHead)
      ensures MatchState(book, left, published) == FillFront(hash, t, MatchState(old(book), rem, old(published)))
    {
      hide Good, FillFront, FillOf, Inv, Layout, Sums, Pools, Naming, Counters, RefsOf, SlotsOf, Bucket, Taken, Reduced,
           Located;
      ghost var m, sd := MatchState(book, rem, published), aggressor.Opposite();
      ghost var levels0 := book.sides.Get(sd);
      ghost var maker := levels0[0].orders[0];
      GoodMaker(hash, Snapshot(), book, at, t.ticket, sd);
      var x := levels[l].head;
      var qty := if rem < orders[x].remaining then rem else orders[x].remaining;
      ghost var v: u64 := maker.remaining - qty;
      FillFrontInSteps(hash, t, m, levels0, qty, v);
      Publish(x, levels[l].price, qty, t, maker, orderId, userId, aggressor);
      ReduceFront(l, x, qty, sd, t.ticket, levels0, v);
      left := rem - qty;
      if orders[x].remaining == 0 {
        RetireFront(l, x, sd, t.ticket);
      }
    }

    /** Trades the taker against the resting side, best price first and first come first. */
    method Match(orderId: Uuid, userId: Uuid, aggressor: Side, limitPrice: u32, quantity: u64, isMarket: bool,
                 ghost t: Taker)
      returns (remaining: u64)
      requires Ready(t.ticket) && TakerIs(t, orderId, userId, aggressor, limitPrice, isMarket)
      requires Filled(book.sides.Get(aggressor.Opposite()))
      modifies Repr()
      ensures Ready(t.ticket)
      ensures MatchState(book, remaining, published)
              == MatchFrom(hash, t, MatchState(old(book), quantity, old(published)))
    {
      hide Good, MatchFrom, FillFront, OrderCount, Inv, Layout, Sums, Pools, Naming, Counters;
      remaining := quantity;
      ghost var sd := aggressor.Opposite();
      ghost var m0 := MatchState(book, remaining, published);
      GoodHead(hash, Snapshot(), book, at, t.ticket, sd);
      while remaining > 0 && HeadOf(aggressor.Opposite()) != INVALID
        invariant Ready(t.ticket) && Filled(book.sides.Get(sd))
        invariant HeadOf(sd) == INVALID <==> book.sides.Get(sd) == []
        invariant MatchFrom(hash, t, MatchState(book, remaining, published)) == MatchFrom(hash, t, m0)
        decreases |book.sides.Get(sd)|, remaining
      {
        GoodHead(hash, Snapshot(), book, at, t.ticket, sd);
        var l := HeadOf(aggressor.Opposite());
        var price := levels[l].price;
        var crossed := isMarket || if aggressor.Buy? then limitPrice >= price else limitPrice <= price;
        if !crossed {
          MatchStops(hash, t, MatchState(book, remaining, published));
          return;
        }
        ghost var count := |book.sides.Get(sd)|;
        while remaining > 0 && levels[l].head != INVALID
          invariant Ready(t.ticket) && FilledTail(book.sides.Get(sd)) && |book.sides.Get(sd)| == count > 0
          invariant l == HeadOf(sd) && l as int < MAX_LEVELS && Crosses(t, book.sides.Get(sd)[0].price)
          invariant levels[l].head == INVALID <==> book.sides.Get(sd)[0].orders == []
          invariant MatchFrom(hash, t, MatchState(book, remaining, published)) == MatchFrom(hash, t, m0)
          decreases OrderCount(book.sides.Get(sd)), remaining
        {
          MatchTrades(hash, t, MatchState(book, remaining, published));
          remaining := FillMaker(l, remaining, t, orderId, userId, aggressor);
          GoodHead(hash, Snapshot(), book, at, t.ticket, sd);
        }
        if levels[l].head == INVALID {
          MatchDrops(hash, t, MatchState(book, remaining, published));
          GoodHead(hash, Snapshot(), book, at, t.ticket, sd);
          DropLevel(l, aggressor.Opposite(), t.ticket, 0);
          GoodHead(hash, Snapshot(), book, at, t.ticket, sd);
        }
      }
      MatchStops(hash, t, MatchState(book, remaining, published));
    }

    // ----- resting

    ghost predicate Half(n: nat)
      reads Repr()
    {
      Arrays() && Pending(hash, Snapshot(), book, at, n)
    }

    function MapOf(sd: Side, price: u32): u32
      requires Arrays() && price as int < MAP_SIZE
      reads bidMap, askMap
    {
      if sd.Buy? then bidMap[price] else askMap[price]
    }

    /** Walks side sd to the first level that price comes before; g is the image before slot ls was written. */
    method Walk(price: u32, sd: Side, ghost ls: u32, ghost n: nat, ghost g: Image) returns (prev: u32, next: u32)
      requires Pending(hash, g, book, at, n) && g.levelTop as int > 0
               && |g.levelFree| == MAX_LEVELS >= g.levelTop as int
      requires ls == g.levelFree[g.levelTop - 1] && ls as int < |g.mem.ls|
      requires HeadOf(sd) == g.mem.Head(sd) == At(RefsOf(g.mem.Map(sd), book.sides.Get(sd)), 0)
      requires ls as int < levels.Length && levels[..] == g.mem.ls[ls := levels[ls]]
      requires !HasLevelAt(book.sides.Get(sd), Position(sd, book.sides.Get(sd), price), price)
      ensures var refs := RefsOf(g.mem.Map(sd), book.sides.Get(sd));
              var i := Position(sd, book.sides.Get(sd), price);
              prev == At(refs, i - 1) && next == At(refs, i)
    {
      hide Pending, Inv, Layout, Sums, Pools, Naming, Counters;
      ghost var levels0, refs := book.sides.Get(sd), RefsOf(g.mem.Map(sd), book.sides.Get(sd));
      PositionFacts(sd, levels0, price);
      prev, next := INVALID, HeadOf(sd);
      ghost var c := 0;
      PendingEnds(hash, g, book, at, n, sd, c);
      while next != INVALID
        invariant 0 <= c <= Position(sd, levels0, price)
        invariant prev == At(refs, c - 1) && next == At(refs, c)
        invariant next == INVALID <==> c == |levels0|
        decreases |levels0| - c
      {
        PendingStep(hash, g, book, at, n, sd, c);
        assert levels[next] == g.mem.ls[next];
        var insertBefore := if sd.Buy? then price > levels[next].price else price < levels[next].price;
        if insertBefore { break; }
        prev, next := next, levels[next].nextLevel;
        c := c + 1;
        PendingEnds(hash, g, book, at, n, sd, c);
      }
    }

    /** Links level slot ls in between prev and next. With both absent this is the source's first-level case. */
    method PlaceLevel(ls: u32, sd: Side, prev: u32, next: u32)
      requires Arrays() && ls as int < MAX_LEVELS
      requires prev == INVALID || prev as int < MAX_LEVELS
      requires next == INVALID || next as int < MAX_LEVELS
      requires Body(levels[ls]) == Body(FreshLevel(levels[ls].price, prev, next))
      modifies levels, this`bidHead, this`askHead
      ensures levels[..] == LevelLinked(old(levels[..]), ls, old(levels[ls].price), prev, next)
      ensures bidHead == if sd.Buy? && prev == INVALID then ls else old(bidHead)
      ensures askHead == if sd.Sell? && prev == INVALID then ls else old(askHead)
    {
      ghost var v := levels[ls];
      levels[ls] := levels[ls].(nextLevel := next, prevLevel := prev);
      assert Body(v) == Body(FreshLevel(v.price, prev, next));
      assert levels[ls] == FreshLevel(v.price, prev, next);
      assert levels[..] == old(levels[..])[ls := levels[ls]];
      if prev != INVALID {
        LinkNextLevel(prev, ls);
      } else {
        SetHead(sd, ls);
      }
      if next != INVALID {
        LinkPrevLevel(next, ls);
      }
    }

    /** Writes a fresh level into the top free slot and links it in at its place in the list. */
    method NewLevel(price: u32, sd: Side, ghost n: nat, ghost refs: seq<u32>, ghost i: nat) returns (ls: u32)
      requires Half(n) && price as int < MAP_SIZE && 0 < levelFreeTop as int <= MAX_LEVELS
      requires i == Position(sd, book.sides.Get(sd), price) && !HasLevelAt(book.sides.Get(sd), i, price)
      requires refs == RefsOf(Memory().Map(sd), book.sides.Get(sd))
      modifies levels, bidMap, askMap, this`bidHead, this`askHead, this`levelFreeTop
      ensures levelFreeTop == old(levelFreeTop) - 1 && ls == levelFree[levelFreeTop] && ls as int < MAX_LEVELS
      ensures Memory() == LevelAdded(old(Memory()), sd, ls, price, At(refs, i - 1), At(refs, i))
    {
      hide Pending, Inv, Layout, Sums, Pools, Naming, Counters, Position, HasLevelAt, RefsOf;
      ghost var g := Snapshot();
      PendingWalk(hash, g, book, at, n, sd, price);
      PendingEnds(hash, g, book, at, n, sd, i);
      levelFreeTop := levelFreeTop - 1;
      ls := levelFree[levelFreeTop];
      levels[ls] := LevelSlot(0, INVALID, INVALID, 0, price, levels[ls].nextLevel, levels[ls].prevLevel);
      ghost var v := levels[ls];
      assert levels[..] == g.mem.ls[ls := v];
      SetMap(sd, price, ls);
      var prev, next := Walk(price, sd, ls, n, g);
      PlaceLevel(ls, sd, prev, next);
      LinkedOverwrites(g.mem.ls, ls, v, price, prev, next);
    }

    /** Makes the level at a price that has none, from a free slot. */
    method CreateLevel(price: u32, sd: Side, ghost n: nat, ghost levels0: seq<Level>, ghost i: nat) returns (ls: u32)
      requires Half(n) && 0 < price < MAX_PRICE && 0 < levelFreeTop as int <= MAX_LEVELS
      requires levels0 == book.sides.Get(sd) && i == Position(sd, levels0, price) && !HasLevelAt(levels0, i, price)
      modifies levels, bidMap, askMap, this`bidHead, this`askHead, this`levelFreeTop, this`book
      ensures Half(n) && book == old(book).(sides := old(book.sides).Set(sd, WithLevel(sd, levels0, price)))
      ensures ls as int < MAX_LEVELS && ls == MapOf(sd, price)
    {
      hide Pending, Inv, Layout, Sums, Pools, Naming, Counters, WithLevel, Position, RefsOf, LevelAdded;
      ghost var g, refs := Snapshot(), RefsOf(Memory().Map(sd), levels0);
      PendingAdded(hash, g, book, at, n, sd, price, g.levelFree[g.levelTop - 1], levels0, i);
      ls := NewLevel(price, sd, n, refs, i);
      book := book.(sides := book.sides.Set(sd, WithLevel(sd, levels0, price)));
      assert Snapshot() == LevelSlotUsed(g, LevelAdded(g.mem, sd, ls, price, At(refs, i - 1), At(refs, i)));
    }

    /** The slot of the level at a price, made if there is none; INVALID only if one is needed and no slot is free. */
    method FindOrCreateLevel(price: u32, sd: Side, ghost n: nat) returns (ls: u32)
      requires Half(n) && 0 < price < MAX_PRICE
      modifies levels, bidMap, askMap, this`bidHead, this`askHead, this`levelFreeTop, this`book
      ensures Half(n)
      ensures var levels0 := old(book.sides).Get(sd);
              if !HasLevelAt(levels0, Position(sd, levels0, price), price) && old(levelFreeTop) == 0
              then ls == INVALID && book == old(book) && Snapshot() == old(Snapshot())
              else book == old(book).(sides := old(book.sides).Set(sd, WithLevel(sd, levels0, price)))
                   && ls != INVALID && ls == MapOf(sd, price)
    {
      hide Pending, Inv, Layout, Sums, Pools, Naming, Counters;
      ghost var levels0 := book.sides.Get(sd);
      PendingWalk(hash, Snapshot(), book, at, n, sd, price);
      ls := MapOf(sd, price);
      if ls != INVALID {
        assert book.sides.Set(sd, levels0) == book.sides;
        return;
      }
      if levelFreeTop == 0 {
        return;
      }
      ls := CreateLevel(price, sd, n, levels0, Position(sd, levels0, price));
    }

    /** Order slot os, already written with order o, joins level slot ls; its bucket names it; the cached best moves. */
    method Join(ls: u32, os: u32, orderId: Uuid, sd: Side, price: u32, ghost o: Order, ghost i: nat,
                ghost levels0: seq<Level>, ghost sides0: Sides)
      requires Half(o.ticket + 1) && Waiting(Snapshot(), book, at, o.ticket + 1, sd, price, o)
      requires levels0 == book.sides.Get(sd) && i < |levels0| && levels0[i].price == price && o.id == orderId
      requires ls == RefsOf(Memory().Map(sd), levels0)[i] && os == at[o.ticket] && os as int < MAX_ORDERS
      requires orders[os].remaining == o.remaining && 0 < price < MAX_PRICE
      requires BestOk(bestBid, bestAsk, sides0) && book.sides.Set(sd, Append(levels0, i, o))
                                                   == sides0.Set(sd, Rested(sd, sides0.Get(sd), price, o))
      modifies orders, levels, index, this`book, this`bestBid, this`bestAsk
      ensures Ready(o.ticket + 1)
      ensures book == old(book).(sides := old(book.sides).Set(sd, Append(levels0, i, o)),
                                 index := old(book.index)[Bucket(hash, o.id) := Ref(sd, price, o.ticket)])
    {
      hide Good, Pending, Inv, Waiting, Layout, Sums, Pools, Naming, Counters, BestOk, Append, Rested, RefsOf;
      ghost var g, n := Snapshot(), o.ticket + 1;
      JoinInRange(hash, g, book, at, n, sd, i, ls);
      JoinGood(hash, g, book, at, n, sd, i, o, ls, levels0, Append(levels0, i, o), sides0, price);
      ghost var g' := BestMoved(Joined(g, ls, os, WrapAdd(levels[ls].totalQty, o.remaining), Bucket(hash, o.id), sd),
                                sd, price);
      Enqueue(ls, os);
      var bucket := BucketOf(orderId);
      index[bucket] := IndexEntry(os, ls, sd);
      if sd.Buy? {
        bestBid := if price > bestBid then price else bestBid;
      } else {
        bestAsk := if price < bestAsk then price else bestAsk;
      }
      book := book.(sides := book.sides.Set(sd, Append(levels0, i, o)),
                    index := book.index[Bucket(hash, o.id) := Ref(sd, price, o.ticket)]);
      assert index[..] == g'.index;
      assert Snapshot() == g';
    }

    /** Pops a free order slot; INVALID when none is free. */
    method AllocOrder() returns (s: u32)
      requires Arrays() && orderFreeTop as int <= MAX_ORDERS
      modifies this`orderFreeTop
      ensures old(orderFreeTop) == 0 ==> s == INVALID && orderFreeTop == 0
      ensures old(orderFreeTop) > 0 ==> orderFreeTop == old(orderFreeTop) - 1 && s == orderFree[orderFreeTop]
    {
      if orderFreeTop == 0 { return INVALID; }
      orderFreeTop := orderFreeTop - 1;
      s := orderFree[orderFreeTop];
    }

    /** Writes order o into the free slot on top of the stack. */
    method WriteOrder(sd: Side, price: u32, orderId: Uuid, userId: Uuid, quantity: u64, remaining: u64, seqno: u64,
                      ghost n: nat)
      returns (os: u32)
      requires Ready(n) && orderFreeTop > 0
      modifies orders, this`orderFreeTop, this`at
      ensures var o := Order(n, orderId, userId, quantity, remaining, seqno);
              && Half(n + 1) && Waiting(Snapshot(), book, at, n + 1, sd, price, o)
              && os as int < MAX_ORDERS && os == at[o.ticket] && orders[os].remaining == remaining
    {
      hide Good, Pending, Inv, Layout, Sums, Pools, Naming, Counters;
      ghost var g, o := Snapshot(), Order(n, orderId, userId, quantity, remaining, seqno);
      GoodPool(hash, g, book, at, n);
      os := AllocOrder();
      ghost var v := OrderSlot(orderId, userId, quantity, remaining, seqno, price, orders[os].next, orders[os].prev, sd,
                               false);
      UsedPending(hash, g, book, at, n, os, v);
      GoodOlder(hash, g, book, at, n);
      UsedWaiting(g, book, at, sd, price, o, os, v);
      orders[os] := orders[os].(orderId := orderId, userId := userId, quantity := quantity, remaining := remaining,
                                sequence := seqno, price := price, side := sd, isMarket := false);
      at := at[n := os];
      assert orders[..] == g.mem.os[os := v];
      assert Snapshot() == OrderSlotUsed(g, os, v);
    }

    /** Rests the remainder of a limit order; with no free order slot the remainder is dropped. */
    method RestOrder(orderId: Uuid, userId: Uuid, sd: Side, price: u32, quantity: u64, remaining: u64, seqno: u64,
                     ghost n: nat)
      requires Ready(n) && Uncrossed(book.sides) && 0 < price < MAX_PRICE
      modifies Repr()
      ensures Ready(n + 1) && published == old(published)
      ensures book == if Live(old(book.sides)) >= MAX_ORDERS then old(book)
                      else Rest(hash, old(book), sd, price, Order(n, orderId, userId, quantity, remaining, seqno))
    {
      hide Good, Pending, Waiting, BestOk, Inv, Layout, Sums, Pools, Naming, Counters;
      hide WithLevel, Position, Append, RefsOf, OrderCount;
      ghost var o, b0 := Order(n, orderId, userId, quantity, remaining, seqno), book;
      ghost var i, with := Position(sd, b0.sides.Get(sd), price), WithLevel(sd, b0.sides.Get(sd), price);
      GoodPool(hash, Snapshot(), book, at, n);
      if orderFreeTop == 0 {
        GoodMonotone(hash, Snapshot(), book, at, n, n + 1);
        return;
      }
      GoodBest(hash, Snapshot(), book, at, n);
      WithLevelHas(sd, book.sides.Get(sd), price);
      var os := WriteOrder(sd, price, orderId, userId, quantity, remaining, seqno, n);
      PendingLevelPool(hash, Snapshot(), book, at, n + 1);
      ghost var g1 := Snapshot();
      var ls := FindOrCreateLevel(price, sd, n + 1);
      // The source frees the order slot again when ls is INVALID; PendingLevelPool shows that it never is.
      assert ls != INVALID;
      WaitingKept(g1, Snapshot(), b0, at, n + 1, sd, price, o);
      Join(ls, os, orderId, sd, price, o, i, with, b0.sides);
    }

    // ----- cancelling

    /** Takes order j of level i out of the book: its quantity leaves the total, it leaves the queue, its slot is
        freed. */
    method TakeOut(l: u32, x: u32, sd: Side, bucket: nat, ghost n: nat, ghost i: nat, ghost j: nat,
                   ghost levels0: seq<Level>)
      requires Ready(n) && levels0 == book.sides.Get(sd) && i < |levels0| && j < |levels0[i].orders|
      requires levels0[i].orders[j].ticket in at && x == at[levels0[i].orders[j].ticket]
      requires bucket == Bucket(hash, levels0[i].orders[j].id) && l == MapAt(Memory().Map(sd), levels0[i].price)
      modifies Repr()
      ensures Ready(n) && published == old(published)
      ensures book == old(book).(sides := old(book.sides).Set(sd, Taken(levels0, i, j)),
                                 index := old(book.index) - {bucket})
      ensures bidMap[..] == old(bidMap[..]) && askMap[..] == old(askMap[..])
    {
      hide Good, Inv, Layout, Sums, Pools, Naming, Counters;
      ghost var g, o := Snapshot(), levels0[i].orders[j];
      GoodLocated(hash, g, book, at, n, sd, i, j, l, x);
      CancelTotal(levels[l].totalQty, levels0[i].orders, j);
      ghost var w := WrapSub(levels[l].totalQty, orders[x].remaining);
      TakeOutGood(hash, g, book, at, n, sd, i, j, l, x, w, levels0, Taken(levels0, i, j), o);
      levels[l] := levels[l].(totalQty := WrapSub(levels[l].totalQty, orders[x].remaining));
      assert levels[..] == g.mem.ls[l := levels[l]];
      assert Snapshot() == Totalled(g, l, w);
      Release(l, x, bucket);
      book := book.(sides := book.sides.Set(sd, Taken(levels0, i, j)), index := book.index - {bucket});
      at := at - {o.ticket};
    }

    // ----- the operations

    /** An order is accepted: it takes the next ticket and its sequence number becomes the book's. */
    method Begin(seqno: u64, ghost n: nat)
      requires Ready(n)
      modifies this`sequence, this`book
      ensures Ready(n) && book == Arrive(old(book), seqno)
    {
      hide Good, Inv, Layout, Sums, Pools, Naming, Counters;
      ArriveGood(hash, Snapshot(), book, at, n, seqno);
      ghost var g' := Snapshot().(sequence := seqno);
      sequence := seqno;
      book := Arrive(book, seqno);
      assert Snapshot() == g';
    }

    method AddLimitOrder(orderId: Uuid, userId: Uuid, sd: Side, price: u32, quantity: u64, seqno: u64)
      requires Valid()
      modifies Repr()
      ensures Valid()
      ensures var out := AddLimit(hash, market, old(book), orderId, userId, sd, price, quantity, seqno);
              book == out.book && published == old(published) + out.trades
    {
      hide Good, WellFormed, MatchFrom, Arrived, Inv, Layout, Sums, Pools, Naming, Counters;
      if price == 0 || price as int >= MAX_PRICE || quantity == 0 {
        return;
      }
      ghost var b0, earlier, n := book, published, book.arrivals;
      ghost var t := Taker(market, n, orderId, userId, sd, price, false);
      ghost var m0 := MatchState(Arrive(b0, seqno), quantity, []);
      AddLimitKeeps(hash, market, b0, orderId, userId, sd, price, quantity, seqno);
      MatchedArrived(hash, t, b0, seqno, quantity);
      MatchPrefix(hash, t, m0, earlier);
      assert earlier + m0.trades == earlier;
      WellFormedSide(hash, b0, sd.Opposite());
      Begin(seqno, n);
      var remaining := Match(orderId, userId, sd, price, quantity, false, t);
      MatchFrame(hash, t, m0);
      if remaining == 0 {
        GoodMonotone(hash, Snapshot(), book, at, n, n + 1);
        return;
      }
      ArrivedUncrossed(hash, book, n);
      RestOrder(orderId, userId, sd, price, quantity, remaining, seqno, n);
    }

    method AddMarketOrder(orderId: Uuid, userId: Uuid, sd: Side, quantity: u64, seqno: u64)
      requires Valid()
      modifies Repr()
      ensures Valid()
      ensures var out := AddMarket(hash, market, old(book), orderId, userId, sd, quantity, seqno);
              book == out.book && published == old(published) + out.trades
    {
      hide Good, WellFormed, MatchFrom, Arrived, Inv, Layout, Sums, Pools, Naming, Counters;
      if quantity == 0 {
        return;
      }
      ghost var b0, earlier, n := book, published, book.arrivals;
      ghost var t := Taker(market, n, orderId, userId, sd, 0, true);
      ghost var m0 := MatchState(Arrive(b0, seqno), quantity, []);
      AddMarketKeeps(hash, market, b0, orderId, userId, sd, quantity, seqno);
      MatchPrefix(hash, t, m0, earlier);
      assert earlier + m0.trades == earlier;
      WellFormedSide(hash, b0, sd.Opposite());
      Begin(seqno, n);
      var remaining := Match(orderId, userId, sd, 0, quantity, true, t);
      MatchFrame(hash, t, m0);
      GoodMonotone(hash, Snapshot(), book, at, n, n + 1);
    }

    /** Takes out whatever order the id's bucket names. */
    method CancelOrder(orderId: Uuid) returns (ok: bool)
      requires Valid()
      modifies Repr()
      ensures Valid() && published == old(published)
      ensures ok <==> CanCancel(hash, old(book), orderId)
      ensures book == Cancel(hash, old(book), orderId)
    {
      hide Good, WellFormed, Inv, Layout, Sums, Pools, Naming, Counters;
      ghost var b, n := book, book.arrivals;
      var bucket := BucketOf(orderId);
      GoodBucket(hash, Snapshot(), b, at, n, bucket);
      CancelKeeps(hash, b, orderId);
      var ie := index[bucket];
      if ie.slot == INVALID {
        return false;
      }
      ghost var i, j := CancelPosition(hash, b, orderId);
      ghost var levels0 := b.sides.Get(ie.side);
      TakeOut(ie.levelSlot, ie.slot, ie.side, bucket, n, i, j, levels0);
      RemovedByDrop(levels0, i, j);
      GoodLevel(hash, Snapshot(), book, at, n, ie.side, i, ie.levelSlot);
      if levels[ie.levelSlot].head == INVALID {
        DropLevel(ie.levelSlot, ie.side, n, i);
      }
      return true;
    }

    // ----- market depth

    /** Copies the best levels of side sd, at most maxDepth of them, into out. */
    method Top(sd: Side, out: array<PriceLevel>, maxDepth: nat) returns (n: nat)
      requires Valid() && maxDepth <= out.Length
      modifies out
      ensures Valid() && book == old(book) && published == old(published)
      ensures n == Min(maxDepth, |book.sides.Get(sd)|) && Depicts(out[..n], book.sides.Get(sd))
      ensures out[n..] == old(out[n..])
    {
      hide Good, WellFormed, Inv, Layout, Sums, Pools, Naming, Counters, Total, RefsOf, Depicts;
      ghost var levels0 := book.sides.Get(sd);
      ghost var refs := RefsOf(Memory().Map(sd), levels0);
      n := 0;
      var cur := HeadOf(sd);
      GoodWalk(hash, Snapshot(), book, at, book.arrivals, sd, 0);
      NothingDepicted(out[..n], levels0);
      while cur != INVALID && n < maxDepth
        invariant 0 <= n <= maxDepth && n <= |levels0| && cur == At(refs, n) && (cur == INVALID <==> n == |levels0|)
        invariant Snapshot() == old(Snapshot())
        invariant Depicts(out[..n], levels0) && out[n..] == old(out[n..])
        decreases maxDepth - n
      {
        GoodWalk(hash, Snapshot(), book, at, book.arrivals, sd, n);
        var lv := levels[cur];
        var shown := PriceLevel(lv.price, lv.totalQty, lv.count);
        OneMoreDepicted(out[..n], shown, levels0);
        out[n] := shown;
        n := n + 1;
        assert out[..n] == out[..n - 1] + [shown];
        cur := lv.nextLevel;
        GoodWalk(hash, Snapshot(), book, at, book.arrivals, sd, n);
      }
    }

    method TopBids(out: array<PriceLevel>, maxDepth: nat) returns (n: nat)
      requires Valid() && maxDepth <= out.Length
      modifies out
      ensures Valid() && book == old(book)
      ensures n == Min(maxDepth, |book.sides.bids|)
      ensures forall k :: 0 <= k < n ==> out[k].price == book.sides.bids[k].price
                                         && out[k].quantity as int == Total(book.sides.bids[k].orders) % TWO64
                                         && out[k].count as int == |book.sides.bids[k].orders|
      ensures SlotPartition.SmallOrders(book.sides.bids) ==>
                forall k :: 0 <= k < n ==> out[k].quantity as int == Total(book.sides.bids[k].orders)
    {
      hide Good, WellFormed, Inv, Layout, Sums, Pools, Naming, Counters, Total, SlotPartition.SmallOrders;
      n := Top(Buy, out, maxDepth);
      if SlotPartition.SmallOrders(book.sides.bids) {
        SlotPartition.SideTotals(hash, Snapshot(), book, at, book.arrivals, Buy);
      }
    }

    method TopAsks(out: array<PriceLevel>, maxDepth: nat) returns (n: nat)
      requires Valid() && maxDepth <= out.Length
      modifies out
      ensures Valid() && book == old(book)
      ensures n == Min(maxDepth, |book.sides.asks|)
      ensures forall k :: 0 <= k < n ==> out[k].price == book.sides.asks[k].price
                                         && out[k].quantity as int == Total(book.sides.asks[k].orders) % TWO64
                                         && out[k].count as int == |book.sides.asks[k].orders|
      ensures SlotPartition.SmallOrders(book.sides.asks) ==>
                forall k :: 0 <= k < n ==> out[k].quantity as int == Total(book.sides.asks[k].orders)
    {
      hide Good, WellFormed, Inv, Layout, Sums, Pools, Naming, Counters, Total, SlotPartition.SmallOrders;
      n := Top(Sell, out, maxDepth);
      if SlotPartition.SmallOrders(book.sides.asks) {
        SlotPartition.SideTotals(hash, Snapshot(), book, at, book.arrivals, Sell);
      }
    }
  }

  /** The entries are the first of these levels. */
  ghost predicate Depicts(entries: seq<PriceLevel>, levels: seq<Level>) {
    && |entries| <= |levels|
    && forall k :: 0 <= k < |entries| ==> entries[k].price == levels[k].price
                                          && entries[k].quantity as int == Total(levels[k].orders) % TWO64
                                          && entries[k].count as int == |levels[k].orders|
  }

  lemma NothingDepicted(entries: seq<PriceLevel>, levels: seq<Level>)
    requires entries == []
    ensures Depicts(entries, levels)
  {
  }

  lemma OneMoreDepicted(entries: seq<PriceLevel>, p: PriceLevel, levels: seq<Level>)
    requires Depicts(entries, levels) && |entries| < |levels|
    requires var lv := levels[|entries|];
             p.price == lv.price && p.quantity as int == Total(lv.orders) % TWO64 && p.count as int == |lv.orders|
    ensures Depicts(entries + [p], levels)
  {
    hide Total;
  }

  lemma RemovedByDrop(levels: seq<Level>, i: nat, j: nat)
    requires i < |levels| && j < |levels[i].orders|
    ensures Removed(levels, i, j)
            == if Taken(levels, i, j)[i].orders == [] then Without(Taken(levels, i, j), i) else Taken(levels, i, j)
  {
    assert Without(Taken(levels, i, j), i) == Without(levels, i);
  }

  lemma ArrivedUncrossed(h: Hash, b: Book, n: nat)
    requires Arrived(h, b, n)
    ensures Uncrossed(b.sides)
  {
  }
}
