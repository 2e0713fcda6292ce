/** When cancelling by id is exact. The cancel index has one entry per hash bucket, so an order
    can be cancelled by its id as long as no other live order shares its bucket. */
module CancelIndex {
  import opened Types
  import opened BookSpec
  import opened BookSafety

  ghost predicate Rests(s: Sides, sd: Side, i: int, j: int) {
    0 <= i < |s.Get(sd)| && 0 <= j < |s.Get(sd)[i].orders|
  }

  function OrderAt(s: Sides, sd: Side, i: nat, j: nat): Order
    requires Rests(s, sd, i, j)
  {
    s.Get(sd)[i].orders[j]
  }

  ghost predicate SideIndexed(h: Hash, sd: Side, levels: seq<Level>, index: map<nat, Ref>) {
    forall i, j :: 0 <= i < |levels| && 0 <= j < |levels[i].orders| ==>
      var o := levels[i].orders[j];
      var k := Bucket(h, o.id);
      k in index && index[k] == Ref(sd, levels[i].price, o.ticket)
  }

  /** Every live order is named by its own bucket; so no two live orders share one. */
  ghost predicate Indexed(h: Hash, b: Book) {
    SideIndexed(h, Buy, b.sides.bids, b.index) && SideIndexed(h, Sell, b.sides.asks, b.index)
  }

  /** No live order hashes to bucket k. */
  ghost predicate BucketFree(h: Hash, levels: seq<Level>, k: nat) {
    forall i, j :: 0 <= i < |levels| && 0 <= j < |levels[i].orders| ==> Bucket(h, levels[i].orders[j].id) != k
  }

  // ----- matching

  lemma OneBucketEach(h: Hash, sd: Side, levels: seq<Level>, index: map<nat, Ref>, i: nat, j: nat, a: nat, c: nat)
    requires SideIndexed(h, sd, levels, index) && Ordered(sd, levels)
    requires i < |levels| && j < |levels[i].orders| && a < |levels| && c < |levels[a].orders|
    requires Bucket(h, levels[i].orders[j].id) == Bucket(h, levels[a].orders[c].id)
    ensures i == a && j == c
  {
    assert levels[i].price == levels[a].price && levels[i].orders[j].ticket == levels[a].orders[c].ticket;
    PositionOfPrice(sd, levels, i);
    PositionOfPrice(sd, levels, a);
    TicketPositionIs(levels[i].orders, j);
    TicketPositionIs(levels[a].orders, c);
  }

  /** Order j of level i leaves with its bucket; the others of its side stay indexed. */
  lemma TakenIndexed(h: Hash, sd: Side, levels: seq<Level>, index: map<nat, Ref>, i: nat, j: nat)
    requires SideIndexed(h, sd, levels, index) && Ordered(sd, levels) && i < |levels| && j < |levels[i].orders|
    ensures var k := Bucket(h, levels[i].orders[j].id);
            var levels' := levels[i := levels[i].(orders := Without(levels[i].orders, j))];
            SideIndexed(h, sd, levels', index - {k}) && BucketFree(h, levels', k)
  {
    var k := Bucket(h, levels[i].orders[j].id);
    var levels' := levels[i := levels[i].(orders := Without(levels[i].orders, j))];
    forall a, c | 0 <= a < |levels'| && 0 <= c < |levels'[a].orders|
      ensures var o := levels'[a].orders[c];
              var b := Bucket(h, o.id);
              b != k && b in index && index[b] == Ref(sd, levels'[a].price, o.ticket)
    {
      var c0 := if a == i && c >= j then c + 1 else c;
      assert levels'[a].orders[c] == levels[a].orders[c0];
      if Bucket(h, levels[a].orders[c0].id) == k {
        OneBucketEach(h, sd, levels, index, i, j, a, c0);
      }
    }
  }

  /** Clearing a bucket that names an order of one side leaves the other side indexed. */
  lemma OtherIndexed(h: Hash, sd: Side, levels: seq<Level>, index: map<nat, Ref>, k: nat)
    requires SideIndexed(h, sd, levels, index) && k in index && index[k].side != sd
    ensures SideIndexed(h, sd, levels, index - {k}) && BucketFree(h, levels, k)
  {
  }

  lemma WithoutIndexed(h: Hash, sd: Side, levels: seq<Level>, index: map<nat, Ref>, i: nat)
    requires SideIndexed(h, sd, levels, index) && i < |levels|
    ensures SideIndexed(h, sd, Without(levels, i), index)
  {
    forall a, c | 0 <= a < |levels| - 1 && 0 <= c < |Without(levels, i)[a].orders|
      ensures var o := Without(levels, i)[a].orders[c];
              var b := Bucket(h, o.id);
              b in index && index[b] == Ref(sd, Without(levels, i)[a].price, o.ticket)
    {
      assert Without(levels, i)[a].orders[c] == levels[if a < i then a else a + 1].orders[c];
    }
  }

  lemma FrontTradedIndexed(h: Hash, b: Book, sd: Side, qty: u64)
    requires Indexed(h, b) && Ordered(sd, b.sides.Get(sd)) && b.sides.Get(sd) != [] && b.sides.Get(sd)[0].orders != []
    requires qty <= b.sides.Get(sd)[0].orders[0].remaining
    ensures var lv := b.sides.Get(sd)[0];
            var maker := lv.orders[0];
            Indexed(h, b.(sides := b.sides.Set(sd, b.sides.Get(sd)[0 := lv.(orders := FrontTraded(lv.orders, qty))]),
                          index := if maker.remaining == qty then b.index - {Bucket(h, maker.id)} else b.index))
  {
    var levels := b.sides.Get(sd);
    var q, maker := levels[0].orders, levels[0].orders[0];
    if maker.remaining == qty {
      assert q[1..] == Without(q, 0);
      TakenIndexed(h, sd, levels, b.index, 0, 0);
      assert b.index[Bucket(h, maker.id)] == Ref(sd, levels[0].price, maker.ticket);
      OtherIndexed(h, sd.Opposite(), b.sides.Get(sd.Opposite()), b.index, Bucket(h, maker.id));
    } else {
      SameIndexed(h, sd, levels, b.index, 0, FrontTraded(q, qty));
    }
  }

  lemma FillFrontIndexed(h: Hash, t: Taker, m: MatchState, n: nat)
    requires Matching(h, t, m, n) && Indexed(h, m.book)
    requires RestingSide(t, m) != [] && RestingSide(t, m)[0].orders != []
    ensures Indexed(h, FillFront(h, t, m).book)
  {
    var sd, levels := t.side.Opposite(), RestingSide(t, m);
    FrontTradedIndexed(h, m.book, sd, Min(m.rem, levels[0].orders[0].remaining));
  }

  lemma SameIndexed(h: Hash, sd: Side, levels: seq<Level>, index: map<nat, Ref>, i: nat, q: seq<Order>)
    requires SideIndexed(h, sd, levels, index) && i < |levels| && |q| == |levels[i].orders|
    requires forall j :: 0 <= j < |q| ==> q[j].ticket == levels[i].orders[j].ticket && q[j].id == levels[i].orders[j].id
    ensures SideIndexed(h, sd, levels[i := levels[i].(orders := q)], index)
  {
    var levels' := levels[i := levels[i].(orders := q)];
    forall a, c | 0 <= a < |levels'| && 0 <= c < |levels'[a].orders|
      ensures var o := levels'[a].orders[c];
              var b := Bucket(h, o.id);
              b in index && index[b] == Ref(sd, levels'[a].price, o.ticket)
    {
      assert Bucket(h, levels[a].orders[c].id) in index;
    }
  }

  lemma {:induction false} MatchIndexed(h: Hash, t: Taker, m: MatchState, n: nat)
    requires Matching(h, t, m, n) && Indexed(h, m.book)
    ensures Indexed(h, MatchFrom(h, t, m).book)
    decreases |RestingSide(t, m)| + OrderCount(RestingSide(t, m)), m.rem
  {
    hide Matching, Indexed;
    var levels := RestingSide(t, m);
    if levels == [] {
    } else if levels[0].orders == [] {
      DropFrontKeeps(h, t, m, n);
      DropFrontIndexed(h, t, m);
      MatchIndexed(h, t, DropFront(t, m), n);
    } else if m.rem == 0 || !Crosses(t, levels[0].price) {
    } else {
      FillFrontKeeps(h, t, m, n);
      FillFrontIndexed(h, t, m, n);
      MatchIndexed(h, t, FillFront(h, t, m), n);
    }
  }

  lemma DropFrontIndexed(h: Hash, t: Taker, m: MatchState)
    requires Indexed(h, m.book) && RestingSide(t, m) != []
    ensures Indexed(h, DropFront(t, m).book)
  {
    assert Without(RestingSide(t, m), 0) == RestingSide(t, m)[1..];
    WithoutIndexed(h, t.side.Opposite(), RestingSide(t, m), m.book.index, 0);
  }

  // ----- resting

  lemma AppendIndexed(h: Hash, sd: Side, levels: seq<Level>, index: map<nat, Ref>, i: nat, o: Order)
    requires SideIndexed(h, sd, levels, index) && BucketFree(h, levels, Bucket(h, o.id)) && i < |levels|
    ensures SideIndexed(h, sd, Append(levels, i, o), index[Bucket(h, o.id) := Ref(sd, levels[i].price, o.ticket)])
  {
    var levels' := Append(levels, i, o);
    var index' := index[Bucket(h, o.id) := Ref(sd, levels[i].price, o.ticket)];
    forall a, c | 0 <= a < |levels'| && 0 <= c < |levels'[a].orders|
      ensures var x := levels'[a].orders[c];
              var b := Bucket(h, x.id);
              b in index' && index'[b] == Ref(sd, levels'[a].price, x.ticket)
    {
      if a != i || c < |levels[i].orders| { assert levels'[a].orders[c] == levels[a].orders[c]; }
    }
  }

  lemma WithLevelIndexed(h: Hash, sd: Side, levels: seq<Level>, index: map<nat, Ref>, p: u32, k: nat)
    requires SideIndexed(h, sd, levels, index) && BucketFree(h, levels, k)
    ensures SideIndexed(h, sd, WithLevel(sd, levels, p), index) && BucketFree(h, WithLevel(sd, levels, p), k)
  {
    var i, with := Position(sd, levels, p), WithLevel(sd, levels, p);
    InsertedIndex(levels, i, Level(p, []));
    forall a, c | 0 <= a < |with| && 0 <= c < |with[a].orders|
      ensures var x := with[a].orders[c];
              var b := Bucket(h, x.id);
              b != k && b in index && index[b] == Ref(sd, with[a].price, x.ticket)
    {
      var a0 := if with == levels || a < i then a else a - 1;
      assert with[a] == levels[a0];
      assert levels[a0].orders[c] == with[a].orders[c];
    }
  }

  lemma RestIndexed(h: Hash, b: Book, sd: Side, p: u32, o: Order)
    requires Indexed(h, b) && BucketFree(h, b.sides.bids, Bucket(h, o.id))
             && BucketFree(h, b.sides.asks, Bucket(h, o.id))
    requires HasLevelAt(WithLevel(sd, b.sides.Get(sd), p), Position(sd, b.sides.Get(sd), p), p)
    ensures Indexed(h, Rest(h, b, sd, p, o))
  {
    var levels, k := b.sides.Get(sd), Bucket(h, o.id);
    WithLevelIndexed(h, sd, levels, b.index, p, k);
    AppendIndexed(h, sd, WithLevel(sd, levels, p), b.index, Position(sd, levels, p), o);
    var there := b.sides.Get(sd.Opposite());
    assert SideIndexed(h, sd.Opposite(), there, b.index[k := Ref(sd, p, o.ticket)]);
  }

  // ----- operations

  ghost predicate FreshBucket(h: Hash, b: Book, id: Uuid) {
    BucketFree(h, b.sides.bids, Bucket(h, id)) && BucketFree(h, b.sides.asks, Bucket(h, id))
  }

  /** Matching only removes orders, so a bucket that was free stays free. */
  lemma {:induction false} MatchBucketFree(h: Hash, t: Taker, m: MatchState, k: nat)
    requires BucketFree(h, RestingSide(t, m), k)
    ensures BucketFree(h, RestingSide(t, MatchFrom(h, t, m)), k)
    decreases |RestingSide(t, m)| + OrderCount(RestingSide(t, m)), m.rem
  {
    var levels := RestingSide(t, m);
    if levels == [] {
    } else if levels[0].orders == [] {
      MatchBucketFree(h, t, DropFront(t, m), k);
    } else if m.rem == 0 || !Crosses(t, levels[0].price) {
    } else {
      FrontBucketFree(h, levels, k, Min(m.rem, levels[0].orders[0].remaining));
      MatchBucketFree(h, t, FillFront(h, t, m), k);
    }
  }

  lemma FrontBucketFree(h: Hash, levels: seq<Level>, k: nat, qty: u64)
    requires BucketFree(h, levels, k) && levels != [] && levels[0].orders != [] && qty <= levels[0].orders[0].remaining
    ensures BucketFree(h, levels[0 := levels[0].(orders := FrontTraded(levels[0].orders, qty))], k)
  {
    var q' := FrontTraded(levels[0].orders, qty);
    var levels' := levels[0 := levels[0].(orders := q')];
    forall i, j | 0 <= i < |levels'| && 0 <= j < |levels'[i].orders| ensures Bucket(h, levels'[i].orders[j].id) != k {
      var j0 := if i == 0 && |q'| < |levels[0].orders| then j + 1 else j;
      assert Bucket(h, levels[i].orders[j0].id) != k;
    }
  }

  /** A limit order whose bucket no live order uses keeps every live order indexed. */
  lemma AddLimitIndexed(h: Hash, market: Uuid, b: Book, id: Uuid, user: Uuid, sd: Side, price: u32, quantity: u64,
                        sequence: u64)
    requires WellFormed(h, b) && Indexed(h, b) && FreshBucket(h, b, id)
    ensures Indexed(h, AddLimit(h, market, b, id, user, sd, price, quantity, sequence).book)
  {
    if 0 < price < MAX_PRICE && quantity > 0 {
      var t := Taker(market, b.arrivals, id, user, sd, price, false);
      var m0 := MatchState(Arrive(b, sequence), quantity, []);
      var m := MatchFrom(h, t, m0);
      LimitMatched(h, t, b, sequence, quantity);
      if m.rem > 0 && Live(m.book.sides) < MAX_ORDERS {
        MatchBucketFree(h, t, m0, Bucket(h, id));
        MatchFrame(h, t, m0);
        WithLevelHas(sd, m.book.sides.Get(sd), price);
        RestIndexed(h, m.book, sd, price, Order(b.arrivals, id, user, quantity, m.rem, sequence));
      }
    }
  }

  lemma LimitMatched(h: Hash, t: Taker, b: Book, sequence: u64, qty: u64)
    requires WellFormed(h, b) && Indexed(h, b) && t.ticket == b.arrivals
    ensures Indexed(h, MatchFrom(h, t, MatchState(Arrive(b, sequence), qty, [])).book)
  {
    var m0 := MatchState(Arrive(b, sequence), qty, []);
    WellFormedSide(h, b, t.side.Opposite());
    assert Matching(h, t, m0, t.ticket);
    MatchIndexed(h, t, m0, t.ticket);
  }

  lemma AddMarketIndexed(h: Hash, market: Uuid, b: Book, id: Uuid, user: Uuid, sd: Side, quantity: u64, sequence: u64)
    requires WellFormed(h, b) && Indexed(h, b)
    ensures Indexed(h, AddMarket(h, market, b, id, user, sd, quantity, sequence).book)
  {
    if quantity > 0 {
      LimitMatched(h, Taker(market, b.arrivals, id, user, sd, 0, true), b, sequence, quantity);
    }
  }

  lemma RemovedIndexed(h: Hash, b: Book, sd: Side, i: nat, j: nat)
    requires Indexed(h, b) && Ordered(sd, b.sides.Get(sd)) && Rests(b.sides, sd, i, j)
    ensures var k := Bucket(h, OrderAt(b.sides, sd, i, j).id);
            var levels' := Removed(b.sides.Get(sd), i, j);
            && Indexed(h, b.(sides := b.sides.Set(sd, levels'), index := b.index - {k}))
            && BucketFree(h, levels', k) && BucketFree(h, b.sides.Get(sd.Opposite()), k)
  {
    var levels := b.sides.Get(sd);
    var o := levels[i].orders[j];
    var k := Bucket(h, o.id);
    var taken := levels[i := levels[i].(orders := Without(levels[i].orders, j))];
    TakenIndexed(h, sd, levels, b.index, i, j);
    assert b.index[k] == Ref(sd, levels[i].price, o.ticket);
    OtherIndexed(h, sd.Opposite(), b.sides.Get(sd.Opposite()), b.index, k);
    if Without(levels[i].orders, j) == [] {
      WithoutIndexed(h, sd, taken, b.index - {k}, i);
      assert Without(taken, i) == Without(levels, i);
      WithoutBucketFree(h, taken, i, k);
    }
  }

  lemma WithoutBucketFree(h: Hash, levels: seq<Level>, i: nat, k: nat)
    requires BucketFree(h, levels, k) && i < |levels|
    ensures BucketFree(h, Without(levels, i), k)
  {
    forall a, c | 0 <= a < |levels| - 1 && 0 <= c < |Without(levels, i)[a].orders|
      ensures Bucket(h, Without(levels, i)[a].orders[c].id) != k
    {
      assert Without(levels, i)[a] == levels[if a < i then a else a + 1];
    }
  }

  lemma CancelIndexed(h: Hash, b: Book, id: Uuid)
    requires WellFormed(h, b) && Indexed(h, b)
    ensures Indexed(h, Cancel(h, b, id))
  {
    if CanCancel(h, b, id) {
      var sd := b.index[Bucket(h, id)].side;
      var i, j := CancelPosition(h, b, id);
      WellFormedSide(h, b, sd);
      RemovedIndexed(h, b, sd, i, j);
    }
  }

  // ----- main result

  ghost predicate LiveId(s: Sides, id: Uuid) {
    exists sd: Side, i, j :: Rests(s, sd, i, j) && OrderAt(s, sd, i, j).id == id
  }

  /** Among live orders, only one with this id may be in this id's bucket. */
  ghost predicate NoCollision(h: Hash, b: Book, id: Uuid) {
    forall sd: Side, i, j :: Rests(b.sides, sd, i, j) && Bucket(h, OrderAt(b.sides, sd, i, j).id) == Bucket(h, id) ==>
      OrderAt(b.sides, sd, i, j).id == id
  }

  lemma BucketOfLive(h: Hash, b: Book, sd: Side, i: nat, j: nat)
    requires Indexed(h, b) && Rests(b.sides, sd, i, j)
    ensures Bucket(h, OrderAt(b.sides, sd, i, j).id) in b.index
  {
  }

  /** Cancelling by id succeeds exactly when an order with that id is live. */
  lemma CancelSucceeds(h: Hash, b: Book, id: Uuid)
    requires WellFormed(h, b) && Indexed(h, b) && NoCollision(h, b, id)
    ensures CanCancel(h, b, id) <==> LiveId(b.sides, id)
  {
    if CanCancel(h, b, id) {
      var i, j := CancelPosition(h, b, id);
      var sd := b.index[Bucket(h, id)].side;
      assert Rests(b.sides, sd, i, j) && OrderAt(b.sides, sd, i, j).id == id;
    }
    if LiveId(b.sides, id) {
      var sd: Side, i, j :| Rests(b.sides, sd, i, j) && OrderAt(b.sides, sd, i, j).id == id;
      BucketOfLive(h, b, sd, i, j);
    }
  }

  /** A successful cancel removes exactly the order with that id, and afterwards the id is not live. */
  lemma CancelExact(h: Hash, b: Book, id: Uuid) returns (sd: Side, i: nat, j: nat)
    requires WellFormed(h, b) && Indexed(h, b) && NoCollision(h, b, id) && CanCancel(h, b, id)
    ensures Rests(b.sides, sd, i, j) && OrderAt(b.sides, sd, i, j).id == id
    ensures Cancel(h, b, id).sides == b.sides.Set(sd, Removed(b.sides.Get(sd), i, j))
    ensures !LiveId(Cancel(h, b, id).sides, id)
  {
    hide WellFormed, Indexed, LiveId, Removed;
    i, j := CancelPosition(h, b, id);
    sd := b.index[Bucket(h, id)].side;
    assert Rests(b.sides, sd, i, j) && OrderAt(b.sides, sd, i, j).id == id;
    WellFormedSide(h, b, sd);
    RemovedIndexed(h, b, sd, i, j);
    hide NoCollision, CanCancel, Bucket;
    NotLive(h, Cancel(h, b, id).sides, id);
  }

  lemma NotLive(h: Hash, s: Sides, id: Uuid)
    requires forall sd: Side :: BucketFree(h, s.Get(sd), Bucket(h, id))
    ensures !LiveId(s, id)
  {
    forall sd: Side, i, j | Rests(s, sd, i, j) ensures OrderAt(s, sd, i, j).id != id {
      assert BucketFree(h, s.Get(sd), Bucket(h, id));
    }
  }
}
