/** What every operation on the pure book keeps: prices sorted, no level empty, first come
    first, no bid at or above an ask, and a cancel index that never dangles. */
module BookSafety {
  import opened Types
  import opened BookSpec
  import opened BookInvariants

  ghost predicate Quantities(levels: seq<Level>) {
    forall i, j :: 0 <= i < |levels| && 0 <= j < |levels[i].orders| ==>
      0 < levels[i].orders[j].remaining <= levels[i].orders[j].quantity
  }

  ghost predicate Filled(levels: seq<Level>) {
    forall i :: 0 <= i < |levels| ==> levels[i].orders != []
  }

  /** Only the best level may be empty. */
  ghost predicate FilledTail(levels: seq<Level>) {
    forall i :: 0 < i < |levels| ==> levels[i].orders != []
  }

  ghost predicate SideSound(sd: Side, levels: seq<Level>, n: nat) {
    Ordered(sd, levels) && Quantities(levels) && Older(levels, n)
  }

  ghost predicate Uncrossed(s: Sides) {
    forall i, k :: 0 <= i < |s.bids| && 0 <= k < |s.asks| ==> s.bids[i].price < s.asks[k].price
  }

  /** The invariant of every reachable book. */
  ghost predicate WellFormed(h: Hash, b: Book) {
    && SideSound(Buy, b.sides.bids, b.arrivals)
    && SideSound(Sell, b.sides.asks, b.arrivals)
    && Filled(b.sides.bids)
    && Filled(b.sides.asks)
    && Uncrossed(b.sides)
    && RefsOk(h, b.sides, b.index)
    && Live(b.sides) <= MAX_ORDERS
  }

  // ----- matching

  /** The prices of a side that has been matched: a suffix of those it had. */
  ghost predicate PriceSuffix(levels: seq<Level>, levels': seq<Level>) {
    && |levels'| <= |levels|
    && forall i :: 0 <= i < |levels'| ==> levels'[i].price == levels[i + |levels| - |levels'|].price
  }

  lemma FrontSound(sd: Side, levels: seq<Level>, n: nat, qty: u64)
    requires SideSound(sd, levels, n) && FilledTail(levels) && levels != [] && levels[0].orders != []
    requires 0 < qty <= levels[0].orders[0].remaining
    ensures var lv := levels[0].(orders := FrontTraded(levels[0].orders, qty));
            && SideSound(sd, levels[0 := lv], n) && FilledTail(levels[0 := lv])
            && PriceSuffix(levels, levels[0 := lv])
  {
    var q := levels[0].orders;
    var q' := FrontTraded(q, qty);
    assert Fifo(q) && OlderQueue(q, n);
    assert Fifo(q') && OlderQueue(q', n);
    var levels' := levels[0 := levels[0].(orders := q')];
    forall i, j | 0 <= i < |levels'| && 0 <= j < |levels'[i].orders|
      ensures 0 < levels'[i].orders[j].remaining <= levels'[i].orders[j].quantity
    {
      if i == 0 {
        if q[0].remaining == qty {
          assert levels'[i].orders[j] == levels[0].orders[j + 1];
        } else {
          assert levels[0].orders[j].remaining > 0;
        }
      } else {
        assert levels'[i].orders[j] == levels[i].orders[j];
      }
    }
  }

  lemma DropSound(sd: Side, levels: seq<Level>, n: nat)
    requires SideSound(sd, levels, n) && FilledTail(levels) && levels != []
    ensures SideSound(sd, levels[1..], n) && FilledTail(levels[1..]) && Filled(levels[1..])
    ensures PriceSuffix(levels, levels[1..])
  {
    var r := levels[1..];
    forall i, j | 0 <= i < |r| && 0 <= j < |r[i].orders|
      ensures 0 < r[i].orders[j].remaining <= r[i].orders[j].quantity
    {
      assert r[i].orders[j] == levels[i + 1].orders[j];
    }
    forall i | 0 <= i < |r| ensures Fifo(r[i].orders) && OlderQueue(r[i].orders, n) && r[i].orders != [] {
      assert r[i] == levels[i + 1];
    }
  }

  lemma FrontRefs(h: Hash, s: Sides, index: map<nat, Ref>, sd: Side, qty: u64)
    requires RefsOk(h, s, index) && s.Get(sd) != [] && s.Get(sd)[0].orders != []
    requires qty <= s.Get(sd)[0].orders[0].remaining
    ensures var lv := s.Get(sd)[0];
            var maker := lv.orders[0];
            RefsOk(h, s.Set(sd, s.Get(sd)[0 := lv.(orders := FrontTraded(lv.orders, qty))]),
                   if maker.remaining == qty then index - {Bucket(h, maker.id)} else index)
  {
    var lv := s.Get(sd)[0];
    if lv.orders[0].remaining == qty {
      RefsTaken(h, s, index, sd, 0, 0);
      assert Without(lv.orders, 0) == lv.orders[1..];
    } else {
      RefsReplaced(h, s, index, sd, 0, lv.(orders := FrontTraded(lv.orders, qty)));
    }
  }

  /** What holds between two steps of matching taker t. */
  ghost predicate Matching(h: Hash, t: Taker, m: MatchState, n: nat) {
    && SideSound(t.side.Opposite(), RestingSide(t, m), n)
    && FilledTail(RestingSide(t, m))
    && RefsOk(h, m.book.sides, m.book.index)
  }

  /** Nothing more can trade. */
  ghost predicate Settled(t: Taker, m: MatchState) {
    var levels := RestingSide(t, m);
    Filled(levels) && (m.rem == 0 || levels == [] || !Crosses(t, levels[0].price))
  }

  lemma FillFrontKeeps(h: Hash, t: Taker, m: MatchState, n: nat)
    requires Matching(h, t, m, n) && m.rem > 0
    requires RestingSide(t, m) != [] && RestingSide(t, m)[0].orders != []
    ensures Matching(h, t, FillFront(h, t, m), n)
    ensures PriceSuffix(RestingSide(t, m), RestingSide(t, FillFront(h, t, m)))
  {
    var sd, levels := t.side.Opposite(), RestingSide(t, m);
    assert levels[0].orders[0].remaining > 0;
    var qty: u64 := Min(m.rem, levels[0].orders[0].remaining);
    FrontSound(sd, levels, n, qty);
    FrontRefs(h, m.book.sides, m.book.index, sd, qty);
  }

  lemma DropFrontKeeps(h: Hash, t: Taker, m: MatchState, n: nat)
    requires Matching(h, t, m, n) && RestingSide(t, m) != [] && RestingSide(t, m)[0].orders == []
    ensures Matching(h, t, DropFront(t, m), n)
    ensures PriceSuffix(RestingSide(t, m), RestingSide(t, DropFront(t, m)))
  {
    var sd, levels := t.side.Opposite(), RestingSide(t, m);
    var s' := m.book.sides.Set(sd, levels[1..]);
    DropSound(sd, levels, n);
    assert RefsOk(h, s', m.book.index) by {
      assert Without(levels, 0) == levels[1..];
      RefsLevelRemoved(h, m.book.sides, m.book.index, sd, 0);
    }
  }

  /** Matching touches only the resting side, the index, the fill counter and the taker's remainder. */
  lemma {:induction false} MatchFrame(h: Hash, t: Taker, m: MatchState)
    ensures var m' := MatchFrom(h, t, m);
            && m'.book.sides.Get(t.side) == m.book.sides.Get(t.side)
            && m'.book.arrivals == m.book.arrivals && m'.book.sequence == m.book.sequence
            && m'.rem <= m.rem
            && OrderCount(RestingSide(t, m')) <= OrderCount(RestingSide(t, m))
    decreases |RestingSide(t, m)| + OrderCount(RestingSide(t, m)), m.rem
  {
    var levels := RestingSide(t, m);
    if levels == [] {
    } else if levels[0].orders == [] {
      MatchFrame(h, t, DropFront(t, m));
    } else if m.rem == 0 || !Crosses(t, levels[0].price) {
    } else {
      MatchFrame(h, t, FillFront(h, t, m));
    }
  }

  /** Matching ends with nothing left to trade, having taken levels only from the best end. */
  lemma {:induction false} MatchKeeps(h: Hash, t: Taker, m: MatchState, n: nat)
    requires Matching(h, t, m, n)
    ensures var m' := MatchFrom(h, t, m);
            && Matching(h, t, m', n) && Settled(t, m')
            && PriceSuffix(RestingSide(t, m), RestingSide(t, m'))
    decreases |RestingSide(t, m)| + OrderCount(RestingSide(t, m)), m.rem
  {
    var levels := RestingSide(t, m);
    if levels == [] {
    } else if levels[0].orders == [] {
      hide Matching, Settled, PriceSuffix;
      var m1 := DropFront(t, m);
      DropFrontKeeps(h, t, m, n);
      MatchKeeps(h, t, m1, n);
      SuffixOfSuffix(levels, RestingSide(t, m1), RestingSide(t, MatchFrom(h, t, m1)));
    } else if m.rem == 0 || !Crosses(t, levels[0].price) {
    } else {
      hide Matching, Settled, PriceSuffix;
      var m1 := FillFront(h, t, m);
      FillFrontKeeps(h, t, m, n);
      MatchKeeps(h, t, m1, n);
      SuffixOfSuffix(levels, RestingSide(t, m1), RestingSide(t, MatchFrom(h, t, m1)));
    }
  }

  lemma SuffixOfSuffix(a: seq<Level>, b: seq<Level>, c: seq<Level>)
    requires PriceSuffix(a, b) && PriceSuffix(b, c)
    ensures PriceSuffix(a, c)
  {
    forall i | 0 <= i < |c| ensures c[i].price == a[i + |a| - |c|].price {
      assert c[i].price == b[i + |b| - |c|].price;
      assert b[i + |b| - |c|].price == a[i + |b| - |c| + |a| - |b|].price;
    }
  }

  /** Trades already made are carried along unchanged. */
  lemma {:induction false} MatchPrefix(h: Hash, t: Taker, m: MatchState, earlier: seq<Trade>)
    ensures MatchFrom(h, t, m.(trades := earlier + m.trades))
            == MatchFrom(h, t, m).(trades := earlier + MatchFrom(h, t, m).trades)
    decreases |RestingSide(t, m)| + OrderCount(RestingSide(t, m)), m.rem
  {
    var levels := RestingSide(t, m);
    var m1 := m.(trades := earlier + m.trades);
    if levels == [] {
    } else if levels[0].orders == [] {
      MatchPrefix(h, t, DropFront(t, m), earlier);
      assert DropFront(t, m1) == DropFront(t, m).(trades := earlier + m.trades);
    } else if m.rem == 0 || !Crosses(t, levels[0].price) {
    } else {
      MatchPrefix(h, t, FillFront(h, t, m), earlier);
      assert FillFront(h, t, m1).trades == earlier + FillFront(h, t, m).trades;
      assert FillFront(h, t, m1) == FillFront(h, t, m).(trades := earlier + FillFront(h, t, m).trades);
    }
  }

  // ----- uncrossed

  lemma UncrossedSuffix(s: Sides, sd: Side, levels': seq<Level>)
    requires Uncrossed(s) && PriceSuffix(s.Get(sd), levels')
    ensures Uncrossed(s.Set(sd, levels'))
  {
    var d := |s.Get(sd)| - |levels'|;
    var s' := s.Set(sd, levels');
    forall i, k | 0 <= i < |s'.bids| && 0 <= k < |s'.asks| ensures s'.bids[i].price < s'.asks[k].price {
      if sd.Buy? { assert s.bids[i + d].price < s.asks[k].price; }
      else { assert s.bids[i].price < s.asks[k + d].price; }
    }
  }

  /** With no crossing price on the other side, an order may rest at its limit. */
  lemma UncrossedRested(s: Sides, sd: Side, p: u32, i: nat)
    requires Uncrossed(s) && Ordered(sd.Opposite(), s.Get(sd.Opposite())) && i <= |s.Get(sd)|
    requires var there := s.Get(sd.Opposite());
             there == [] || if sd.Buy? then p < there[0].price else p > there[0].price
    ensures Uncrossed(s.Set(sd, Inserted(s.Get(sd), i, Level(p, []))))
  {
    var there := s.Get(sd.Opposite());
    var here' := Inserted(s.Get(sd), i, Level(p, []));
    InsertedIndex(s.Get(sd), i, Level(p, []));
    forall a, b | 0 <= a < |here'| && 0 <= b < |there|
      ensures if sd.Buy? then here'[a].price < there[b].price else there[b].price < here'[a].price
    {
      assert b > 0 ==> Better(sd.Opposite(), there[0].price, there[b].price);
      if a != i { assert here'[a] == s.Get(sd)[if a < i then a else a - 1]; }
    }
  }

  /** Fewer than ten thousand levels can be live at once, on both sides together. */
  lemma LevelsBounded(s: Sides)
    requires Sorted(Buy, s.bids) && Sorted(Sell, s.asks) && Uncrossed(s)
    ensures |s.bids| + |s.asks| < MAX_PRICE
  {
    BidsBounded(s.bids);
    AsksBounded(s.asks);
  }

  lemma {:induction false} BidsBounded(bids: seq<Level>)
    requires Sorted(Buy, bids)
    ensures bids != [] ==> |bids| <= bids[0].price
    ensures |bids| < MAX_PRICE
  {
    if |bids| > 1 {
      BidsBounded(bids[1..]);
      assert Better(Buy, bids[0].price, bids[1].price);
    }
  }

  lemma {:induction false} AsksBounded(asks: seq<Level>)
    requires Sorted(Sell, asks)
    ensures asks != [] ==> |asks| <= MAX_PRICE - asks[0].price
    ensures |asks| < MAX_PRICE
  {
    if |asks| > 1 {
      AsksBounded(asks[1..]);
      assert Better(Sell, asks[0].price, asks[1].price);
    }
  }

  // ----- resting

  lemma {:induction false} PositionFacts(sd: Side, levels: seq<Level>, p: int)
    ensures var i := Position(sd, levels, p);
            && (forall k :: 0 <= k < i ==> Better(sd, levels[k].price, p))
            && (i < |levels| ==> !Better(sd, levels[i].price, p))
  {
    if levels != [] && Better(sd, levels[0].price, p) {
      PositionFacts(sd, levels[1..], p);
      forall k | 0 <= k < Position(sd, levels, p) ensures Better(sd, levels[k].price, p) {
        if k > 0 { assert levels[k] == levels[1..][k - 1]; }
      }
    }
  }

  lemma {:induction false} PositionIs(sd: Side, levels: seq<Level>, p: int, i: nat)
    requires i <= |levels|
    requires forall k :: 0 <= k < i ==> Better(sd, levels[k].price, p)
    requires i < |levels| ==> !Better(sd, levels[i].price, p)
    ensures Position(sd, levels, p) == i
  {
    if i > 0 {
      PositionIs(sd, levels[1..], p, i - 1);
    }
  }

  lemma PositionOfPrice(sd: Side, levels: seq<Level>, i: nat)
    requires Sorted(sd, levels) && i < |levels|
    ensures Position(sd, levels, levels[i].price) == i
  {
    forall k | 0 <= k < i ensures Better(sd, levels[k].price, levels[i].price) {
    }
    PositionIs(sd, levels, levels[i].price, i);
  }

  lemma NewLevelSorted(sd: Side, levels: seq<Level>, p: u32)
    requires Sorted(sd, levels) && 0 < p < MAX_PRICE && !HasLevelAt(levels, Position(sd, levels, p), p)
    ensures var i := Position(sd, levels, p);
            && Sorted(sd, Inserted(levels, i, Level(p, [])))
            && forall k :: 0 <= k < |levels| ==> levels[k].price != p
  {
    var i := Position(sd, levels, p);
    var levels' := Inserted(levels, i, Level(p, []));
    PositionFacts(sd, levels, p);
    InsertedIndex(levels, i, Level(p, []));
    forall k | i <= k < |levels| ensures Better(sd, p, levels[k].price) {
      if k > i { assert Better(sd, levels[i].price, levels[k].price); }
    }
    forall a, b | 0 <= a < b < |levels'| ensures Better(sd, levels'[a].price, levels'[b].price) {
      if a != i && b != i {
        assert Better(sd, levels[if a < i then a else a - 1].price, levels[if b < i then b else b - 1].price);
      }
    }
  }

  /** The level looked for stands where it is put. */
  lemma WithLevelHas(sd: Side, levels: seq<Level>, p: u32)
    ensures HasLevelAt(WithLevel(sd, levels, p), Position(sd, levels, p), p)
  {
    InsertedIndex(levels, Position(sd, levels, p), Level(p, []));
  }

  lemma WithLevelSound(sd: Side, levels: seq<Level>, p: u32, n: nat)
    requires SideSound(sd, levels, n) && Filled(levels) && 0 < p < MAX_PRICE
    ensures var i := Position(sd, levels, p);
            var with := WithLevel(sd, levels, p);
            && SideSound(sd, with, n) && HasLevelAt(with, i, p)
            && (forall k :: 0 <= k < |with| && k != i ==> with[k].orders != [])
            && OrderCount(with) == OrderCount(levels)
  {
    var i := Position(sd, levels, p);
    if !HasLevelAt(levels, i, p) {
      var with := Inserted(levels, i, Level(p, []));
      NewLevelSorted(sd, levels, p);
      OlderInserted(levels, n, i, Level(p, []));
      CountInserted(levels, i, Level(p, []));
      InsertedIndex(levels, i, Level(p, []));
      forall k, j | 0 <= k < |with| && 0 <= j < |with[k].orders|
        ensures 0 < with[k].orders[j].remaining <= with[k].orders[j].quantity
      {
        assert with[k].orders[j] == levels[if k < i then k else k - 1].orders[j];
      }
      forall k | 0 <= k < |with| ensures Fifo(with[k].orders) && (k != i ==> with[k].orders != []) {
        if k != i { assert with[k] == levels[if k < i then k else k - 1]; }
      }
    }
  }

  lemma AppendQuantities(levels: seq<Level>, i: nat, o: Order)
    requires Quantities(levels) && i < |levels| && 0 < o.remaining <= o.quantity
    ensures Quantities(Append(levels, i, o))
  {
    var levels' := Append(levels, i, o);
    forall k, j | 0 <= k < |levels'| && 0 <= j < |levels'[k].orders|
      ensures 0 < levels'[k].orders[j].remaining <= levels'[k].orders[j].quantity
    {
      if k != i || j < |levels[i].orders| { assert levels'[k].orders[j] == levels[k].orders[j]; }
    }
  }

  lemma AppendSound(sd: Side, levels: seq<Level>, i: nat, o: Order, n: nat)
    requires SideSound(sd, levels, n) && i < |levels| && o.ticket == n && 0 < o.remaining <= o.quantity
    requires forall k :: 0 <= k < |levels| && k != i ==> levels[k].orders != []
    ensures SideSound(sd, Append(levels, i, o), n + 1) && Filled(Append(levels, i, o))
    ensures OrderCount(Append(levels, i, o)) == OrderCount(levels) + 1
  {
    var levels' := Append(levels, i, o);
    CountReplaced(levels, i, levels'[i]);
    AppendQuantities(levels, i, o);
    AppendFifo(levels[i].orders, o);
    OlderSound(sd, levels, n, n + 1);
    OrderedReplaced(sd, levels, i, levels'[i]);
    OlderReplaced(levels, n + 1, i, levels'[i]);
    assert levels' == levels[i := levels'[i]];
  }

  lemma RestRefs(h: Hash, b: Book, sd: Side, p: u32, o: Order)
    requires RefsOk(h, b.sides, b.index)
    requires HasLevelAt(WithLevel(sd, b.sides.Get(sd), p), Position(sd, b.sides.Get(sd), p), p)
    ensures RefsOk(h, Rest(h, b, sd, p, o).sides, Rest(h, b, sd, p, o).index)
  {
    var levels := b.sides.Get(sd);
    var i, with := Position(sd, levels, p), WithLevel(sd, levels, p);
    var s1 := b.sides.Set(sd, with);
    if !HasLevelAt(levels, i, p) {
      RefsLevelAdded(h, b.sides, b.index, sd, i, Level(p, []));
    } else {
      assert s1 == b.sides;
    }
    RefsReplaced(h, s1, b.index, sd, i, Append(with, i, o)[i]);
    ShowResident(h, Rest(h, b, sd, p, o).sides, Bucket(h, o.id), Ref(sd, p, o.ticket), i, |with[i].orders|);
  }

  lemma SamePrices(levels: seq<Level>, i: nat, o: Order)
    requires i < |levels|
    ensures PriceSuffix(levels, Append(levels, i, o))
  {
  }

  lemma RestUncrossed(s: Sides, sd: Side, p: u32, o: Order)
    requires Uncrossed(s) && Ordered(sd.Opposite(), s.Get(sd.Opposite()))
    requires HasLevelAt(WithLevel(sd, s.Get(sd), p), Position(sd, s.Get(sd), p), p)
    requires var there := s.Get(sd.Opposite());
             there == [] || if sd.Buy? then p < there[0].price else p > there[0].price
    ensures Uncrossed(s.Set(sd, Rested(sd, s.Get(sd), p, o)))
  {
    var levels := s.Get(sd);
    var i, with := Position(sd, levels, p), WithLevel(sd, levels, p);
    if !HasLevelAt(levels, i, p) {
      UncrossedRested(s, sd, p, i);
    }
    SamePrices(with, i, o);
    hide Uncrossed, WithLevel, Append, PriceSuffix, Position;
    UncrossedSuffix(s.Set(sd, with), sd, Rested(sd, levels, p, o));
  }

  lemma OlderSound(sd: Side, levels: seq<Level>, m: nat, n: nat)
    requires SideSound(sd, levels, m) && m <= n
    ensures SideSound(sd, levels, n)
  {
    forall i | 0 <= i < |levels| ensures OlderQueue(levels[i].orders, n) {
      assert OlderQueue(levels[i].orders, m);
    }
  }

  // ----- the three operations keep the invariant

  /** A book between the arrival of order n and its resting or being discarded. */
  ghost predicate Arrived(h: Hash, b: Book, n: nat) {
    && SideSound(Buy, b.sides.bids, n) && SideSound(Sell, b.sides.asks, n)
    && Filled(b.sides.bids) && Filled(b.sides.asks)
    && Uncrossed(b.sides) && RefsOk(h, b.sides, b.index)
    && Live(b.sides) <= MAX_ORDERS
    && b.arrivals == n + 1
  }

  lemma ArrivedKeeps(h: Hash, b: Book, n: nat)
    requires Arrived(h, b, n)
    ensures WellFormed(h, b)
  {
    OlderSound(Buy, b.sides.bids, n, n + 1);
    OlderSound(Sell, b.sides.asks, n, n + 1);
  }

  /** After matching: the book is in order, the taker can trade no further. */
  lemma MatchedArrived(h: Hash, t: Taker, b: Book, sequence: u64, qty: u64)
    requires WellFormed(h, b) && t.ticket == b.arrivals
    ensures var m := MatchFrom(h, t, MatchState(Arrive(b, sequence), qty, []));
            Arrived(h, m.book, t.ticket) && Settled(t, m)
  {
    var m0 := MatchState(Arrive(b, sequence), qty, []);
    var m := MatchFrom(h, t, m0);
    assert Matching(h, t, m0, t.ticket);
    MatchKeeps(h, t, m0, t.ticket);
    MatchFrame(h, t, m0);
    var sd := t.side.Opposite();
    UncrossedSuffix(b.sides, sd, RestingSide(t, m));
    assert m.book.sides == b.sides.Set(sd, RestingSide(t, m));
  }

  lemma RestKeeps(h: Hash, b: Book, sd: Side, p: u32, o: Order)
    requires Arrived(h, b, o.ticket) && Live(b.sides) < MAX_ORDERS && 0 < o.remaining <= o.quantity
    requires 0 < p < MAX_PRICE
    requires var there := b.sides.Get(sd.Opposite());
             there == [] || if sd.Buy? then p < there[0].price else p > there[0].price
    ensures WellFormed(h, Rest(h, b, sd, p, o))
  {
    var levels := b.sides.Get(sd);
    WithLevelSound(sd, levels, p, o.ticket);
    AppendSound(sd, WithLevel(sd, levels, p), Position(sd, levels, p), o, o.ticket);
    OlderSound(sd.Opposite(), b.sides.Get(sd.Opposite()), o.ticket, o.ticket + 1);
    RestRefs(h, b, sd, p, o);
    RestUncrossed(b.sides, sd, p, o);
  }

  lemma AddLimitKeeps(h: Hash, market: Uuid, b: Book, id: Uuid, user: Uuid, sd: Side, price: u32, quantity: u64,
                      sequence: u64)
    requires WellFormed(h, b)
    ensures WellFormed(h, AddLimit(h, market, b, id, user, sd, price, quantity, sequence).book)
  {
    if 0 < price < MAX_PRICE && quantity > 0 {
      var t := Taker(market, b.arrivals, id, user, sd, price, false);
      var m0 := MatchState(Arrive(b, sequence), quantity, []);
      var m := MatchFrom(h, t, m0);
      MatchedArrived(h, t, b, sequence, quantity);
      MatchFrame(h, t, m0);
      ArrivedKeeps(h, m.book, t.ticket);
      if m.rem > 0 && Live(m.book.sides) < MAX_ORDERS {
        RestKeeps(h, m.book, sd, price, Order(b.arrivals, id, user, quantity, m.rem, sequence));
      }
    }
  }

  lemma AddMarketKeeps(h: Hash, market: Uuid, b: Book, id: Uuid, user: Uuid, sd: Side, quantity: u64, sequence: u64)
    requires WellFormed(h, b)
    ensures WellFormed(h, AddMarket(h, market, b, id, user, sd, quantity, sequence).book)
  {
    if quantity > 0 {
      var t := Taker(market, b.arrivals, id, user, sd, 0, true);
      MatchedArrived(h, t, b, sequence, quantity);
      ArrivedKeeps(h, MatchFrom(h, t, MatchState(Arrive(b, sequence), quantity, [])).book, t.ticket);
    }
  }

  // ----- cancelling

  /** The bucket of a cancelled id names an order at the position the cancel looks it up at. */
  lemma CancelPosition(h: Hash, b: Book, id: Uuid) returns (i: nat, j: nat)
    requires WellFormed(h, b) && CanCancel(h, b, id)
    ensures var r := b.index[Bucket(h, id)];
            var levels := b.sides.Get(r.side);
            && i == Position(r.side, levels, r.price) && i < |levels| && levels[i].price == r.price
            && j == TicketPosition(levels[i].orders, r.ticket) && j < |levels[i].orders|
            && levels[i].orders[j].ticket == r.ticket
            && Bucket(h, levels[i].orders[j].id) == Bucket(h, id)
  {
    var r := b.index[Bucket(h, id)];
    var levels := b.sides.Get(r.side);
    i, j := ResidentPosition(h, b.sides, Bucket(h, id), r);
    PositionOfPrice(r.side, levels, i);
    TicketPositionIs(levels[i].orders, j);
  }

  lemma {:induction false} TicketPositionIs(q: seq<Order>, j: nat)
    requires Fifo(q) && j < |q|
    ensures TicketPosition(q, q[j].ticket) == j
  {
    if j > 0 {
      assert q[0].ticket < q[j].ticket;
      TicketPositionIs(q[1..], j - 1);
    }
  }

  lemma WithoutSound(sd: Side, levels: seq<Level>, n: nat, i: nat)
    requires SideSound(sd, levels, n) && Filled(levels) && i < |levels|
    ensures SideSound(sd, Without(levels, i), n) && Filled(Without(levels, i))
  {
    var r := Without(levels, i);
    forall k | 0 <= k < |r| ensures r[k] == levels[if k < i then k else k + 1] {
    }
    forall a, c | 0 <= a < c < |r| ensures Better(sd, r[a].price, r[c].price) {
      assert Better(sd, levels[if a < i then a else a + 1].price, levels[if c < i then c else c + 1].price);
    }
    forall k, j | 0 <= k < |r| && 0 <= j < |r[k].orders|
      ensures 0 < r[k].orders[j].remaining <= r[k].orders[j].quantity
    {
      assert r[k].orders[j] == levels[if k < i then k else k + 1].orders[j];
    }
    OlderLevelsWithout(levels, n, i);
  }

  lemma TakenSound(sd: Side, levels: seq<Level>, n: nat, i: nat, j: nat)
    requires SideSound(sd, levels, n) && Filled(levels) && i < |levels| && j < |levels[i].orders|
    requires Without(levels[i].orders, j) != []
    ensures var levels' := levels[i := levels[i].(orders := Without(levels[i].orders, j))];
            SideSound(sd, levels', n) && Filled(levels')
  {
    var q, r := levels[i].orders, Without(levels[i].orders, j);
    var levels' := levels[i := levels[i].(orders := r)];
    assert Fifo(q) && OlderQueue(q, n);
    forall k | 0 <= k < |r| ensures r[k] == q[if k < j then k else k + 1] {
    }
    assert Fifo(r) && OlderQueue(r, n);
    forall k, l | 0 <= k < |levels'| && 0 <= l < |levels'[k].orders|
      ensures 0 < levels'[k].orders[l].remaining <= levels'[k].orders[l].quantity
    {
      if k == i { assert r[l] == levels[k].orders[if l < j then l else l + 1]; }
      else { assert levels'[k].orders[l] == levels[k].orders[l]; }
    }
  }

  lemma RemovedSound(sd: Side, levels: seq<Level>, n: nat, i: nat, j: nat)
    requires SideSound(sd, levels, n) && Filled(levels) && i < |levels| && j < |levels[i].orders|
    ensures SideSound(sd, Removed(levels, i, j), n) && Filled(Removed(levels, i, j))
    ensures OrderCount(Removed(levels, i, j)) == OrderCount(levels) - 1
  {
    var q := Without(levels[i].orders, j);
    if q == [] {
      WithoutSound(sd, levels, n, i);
      CountWithout(levels, i);
    } else {
      TakenSound(sd, levels, n, i, j);
      CountReplaced(levels, i, levels[i].(orders := q));
    }
  }

  lemma RemovedRefs(h: Hash, s: Sides, index: map<nat, Ref>, sd: Side, i: nat, j: nat)
    requires RefsOk(h, s, index) && i < |s.Get(sd)| && j < |s.Get(sd)[i].orders|
    ensures RefsOk(h, s.Set(sd, Removed(s.Get(sd), i, j)), index - {Bucket(h, s.Get(sd)[i].orders[j].id)})
  {
    var levels := s.Get(sd);
    var lv := levels[i].(orders := Without(levels[i].orders, j));
    RefsTaken(h, s, index, sd, i, j);
    if lv.orders == [] {
      var s1 := s.Set(sd, levels[i := lv]);
      RefsLevelRemoved(h, s1, index - {Bucket(h, levels[i].orders[j].id)}, sd, i);
      assert Without(levels[i := lv], i) == Without(levels, i);
      assert s1.Set(sd, Without(levels, i)) == s.Set(sd, Without(levels, i));
    }
  }

  lemma RemovedUncrossed(s: Sides, sd: Side, i: nat, j: nat)
    requires Uncrossed(s) && i < |s.Get(sd)| && j < |s.Get(sd)[i].orders|
    ensures Uncrossed(s.Set(sd, Removed(s.Get(sd), i, j)))
  {
    var levels, levels' := s.Get(sd), Removed(s.Get(sd), i, j);
    var s' := s.Set(sd, levels');
    forall k | 0 <= k < |levels'| ensures exists a :: 0 <= a < |levels| && levels[a].price == levels'[k].price {
      var a := if |levels'| == |levels| || k < i then k else k + 1;
      assert levels[a].price == levels'[k].price;
    }
    forall a, c | 0 <= a < |s'.bids| && 0 <= c < |s'.asks| ensures s'.bids[a].price < s'.asks[c].price {
      if sd.Buy? {
        var k :| 0 <= k < |levels| && levels[k].price == levels'[a].price;
        assert s.bids[k].price < s.asks[c].price;
      } else {
        var k :| 0 <= k < |levels| && levels[k].price == levels'[c].price;
        assert s.bids[a].price < s.asks[k].price;
      }
    }
  }

  lemma WellFormedSide(h: Hash, b: Book, sd: Side)
    requires WellFormed(h, b)
    ensures SideSound(sd, b.sides.Get(sd), b.arrivals) && Filled(b.sides.Get(sd))
  {
  }

  lemma WellFormedJoin(h: Hash, b: Book, sd: Side, levels: seq<Level>, index: map<nat, Ref>)
    requires SideSound(sd, levels, b.arrivals) && Filled(levels)
    requires SideSound(sd.Opposite(), b.sides.Get(sd.Opposite()), b.arrivals) && Filled(b.sides.Get(sd.Opposite()))
    requires Uncrossed(b.sides.Set(sd, levels)) && RefsOk(h, b.sides.Set(sd, levels), index)
    requires Live(b.sides.Set(sd, levels)) <= MAX_ORDERS
    ensures WellFormed(h, b.(sides := b.sides.Set(sd, levels), index := index))
  {
  }

  lemma CancelKeeps(h: Hash, b: Book, id: Uuid)
    requires WellFormed(h, b)
    ensures WellFormed(h, Cancel(h, b, id))
  {
    if CanCancel(h, b, id) {
      var k := Bucket(h, id);
      var sd := b.index[k].side;
      var levels := b.sides.Get(sd);
      var i, j := CancelPosition(h, b, id);
      var levels' := Removed(levels, i, j);
      WellFormedSide(h, b, sd);
      WellFormedSide(h, b, sd.Opposite());
      RemovedSound(sd, levels, b.arrivals, i, j);
      RemovedRefs(h, b.sides, b.index, sd, i, j);
      RemovedUncrossed(b.sides, sd, i, j);
      WellFormedJoin(h, b, sd, levels', b.index - {k});
    }
  }
}
