/** Price-time priority stated without loops or levels. A side of the book is one list of
    orders, best price first and oldest first within a price. A taker of quantity q takes from
    the k-th order whatever of q the k orders before it leave, and stops at the first price it
    does not cross. Matching level by level and maker by maker comes to exactly this. */
module PriceTime {
  import opened Types
  import opened BookSpec
  import opened BookSafety

  datatype Resting = Resting(price: u32, order: Order)

  function Tagged(lv: Level): (r: seq<Resting>)
    ensures |r| == |lv.orders| && forall j :: 0 <= j < |r| ==> r[j] == Resting(lv.price, lv.orders[j])
  {
    seq(|lv.orders|, j requires 0 <= j < |lv.orders| => Resting(lv.price, lv.orders[j]))
  }

  /** A side as one list in priority order. */
  function Flatten(levels: seq<Level>): seq<Resting> {
    if levels == [] then [] else Tagged(levels[0]) + Flatten(levels[1..])
  }

  /** What the first k orders have to offer. */
  function Ahead(flat: seq<Resting>, k: nat): nat
    requires k <= |flat|
  {
    if k == 0 then 0 else Ahead(flat, k - 1) + flat[k - 1].order.remaining
  }

  ghost predicate Eligible(t: Taker, flat: seq<Resting>, k: nat) {
    k < |flat| && forall j :: 0 <= j <= k ==> Crosses(t, flat[j].price)
  }

  /** The taker reaches the k-th order: all up to it cross, and those before it leave something over. */
  ghost predicate Reaches(t: Taker, flat: seq<Resting>, qty: nat, k: nat) {
    Eligible(t, flat, k) && Ahead(flat, k) < qty
  }

  /** The trade with the k-th order, when n fills have been made before this taker. */
  function TradeAt(t: Taker, flat: seq<Resting>, qty: u64, n: nat, k: nat): Trade
    requires k < |flat| && Ahead(flat, k) < qty
  {
    var o := flat[k].order;
    var share: u64 := Min(qty - Ahead(flat, k), o.remaining);
    Trade(o.ticket, t.ticket, FillOf(t, flat[k].price, o, share, n + k + 1))
  }

  // ----- the sweep of the list, one order at a time

  function Sweep(t: Taker, flat: seq<Resting>, qty: u64, n: nat): seq<Trade> {
    if qty == 0 || flat == [] || !Crosses(t, flat[0].price) then []
    else
      var o := flat[0].order;
      var share: u64 := Min(qty, o.remaining);
      [Trade(o.ticket, t.ticket, FillOf(t, flat[0].price, o, share, n + 1))] + Sweep(t, flat[1..], qty - share, n + 1)
  }

  function Swept(t: Taker, flat: seq<Resting>, qty: u64): seq<Resting> {
    if qty == 0 || flat == [] || !Crosses(t, flat[0].price) then flat
    else if flat[0].order.remaining <= qty then Swept(t, flat[1..], qty - flat[0].order.remaining)
    else [flat[0].(order := flat[0].order.(remaining := flat[0].order.remaining - qty))] + flat[1..]
  }

  function LeftOver(t: Taker, flat: seq<Resting>, qty: u64): u64 {
    if qty == 0 || flat == [] || !Crosses(t, flat[0].price) then qty
    else if flat[0].order.remaining <= qty then LeftOver(t, flat[1..], qty - flat[0].order.remaining)
    else 0
  }

  // ----- matching is the sweep

  lemma TaggedFront(lv: Level)
    requires lv.orders != []
    ensures Tagged(lv) == [Resting(lv.price, lv.orders[0])] + Tagged(lv.(orders := lv.orders[1..]))
  {
  }

  lemma FlattenFront(levels: seq<Level>)
    requires levels != [] && levels[0].orders != []
    ensures Flatten(levels) == [Resting(levels[0].price, levels[0].orders[0])]
                               + Flatten(levels[0 := levels[0].(orders := levels[0].orders[1..])])
  {
    var lv := levels[0];
    var levels' := levels[0 := lv.(orders := lv.orders[1..])];
    assert levels'[1..] == levels[1..];
    var front, rest, tail := [Resting(lv.price, lv.orders[0])], Tagged(levels'[0]), Flatten(levels[1..]);
    TaggedFront(lv);
    Regrouped(front, rest, tail);
  }

  lemma FlattenTraded(levels: seq<Level>, qty: u64)
    requires levels != [] && levels[0].orders != [] && qty <= levels[0].orders[0].remaining
    ensures var o := levels[0].orders[0];
            var levels' := levels[0 := levels[0].(orders := FrontTraded(levels[0].orders, qty))];
            var flat := Flatten(levels);
            && flat != [] && flat[0] == Resting(levels[0].price, o)
            && Flatten(levels') == if qty == o.remaining then flat[1..]
                                   else [Resting(levels[0].price, o.(remaining := o.remaining - qty))] + flat[1..]
  {
    var lv, o := levels[0], levels[0].orders[0];
    FlattenFront(levels);
    if qty != o.remaining {
      var levels' := levels[0 := lv.(orders := FrontTraded(lv.orders, qty))];
      FlattenFront(levels');
      assert levels'[0].orders[1..] == lv.orders[1..];
      assert levels'[0 := levels'[0].(orders := levels'[0].orders[1..])] == levels[0 := lv.(orders := lv.orders[1..])];
    }
  }

  lemma SweepFront(t: Taker, flat: seq<Resting>, qty: u64, n: nat, flat': seq<Resting>, share: u64)
    requires qty > 0 && flat != [] && Crosses(t, flat[0].price) && share == Min(qty, flat[0].order.remaining) > 0
    requires flat' == if share == flat[0].order.remaining then flat[1..]
                      else [flat[0].(order := flat[0].order.(remaining := flat[0].order.remaining - share))] + flat[1..]
    ensures Sweep(t, flat, qty, n)
            == [Trade(flat[0].order.ticket, t.ticket, FillOf(t, flat[0].price, flat[0].order, share, n + 1))]
               + Sweep(t, flat', qty - share, n + 1)
    ensures Swept(t, flat, qty) == Swept(t, flat', qty - share)
    ensures LeftOver(t, flat, qty) == LeftOver(t, flat', qty - share)
  {
  }

  /** A trade with the front maker is the first trade of the sweep. */
  lemma SweepStep(h: Hash, t: Taker, m: MatchState)
    requires RestingSide(t, m) != [] && RestingSide(t, m)[0].orders != []
             && RestingSide(t, m)[0].orders[0].remaining > 0
    requires m.rem > 0 && Crosses(t, RestingSide(t, m)[0].price)
    ensures var m1 := FillFront(h, t, m);
            var flat, flat1 := Flatten(RestingSide(t, m)), Flatten(RestingSide(t, m1));
            && m1.trades + Sweep(t, flat1, m1.rem, m1.book.fillCount)
               == m.trades + Sweep(t, flat, m.rem, m.book.fillCount)
            && Swept(t, flat1, m1.rem) == Swept(t, flat, m.rem)
            && LeftOver(t, flat1, m1.rem) == LeftOver(t, flat, m.rem)
  {
    hide FillFront, Sweep, Swept, LeftOver, Flatten, FrontTraded;
    var levels := RestingSide(t, m);
    var share: u64 := Min(m.rem, levels[0].orders[0].remaining);
    var m1 := FillFront(h, t, m);
    FillFrontIs(h, t, m, share);
    FlattenTraded(levels, share);
    SweepFront(t, Flatten(levels), m.rem, m.book.fillCount, Flatten(RestingSide(t, m1)), share);
  }

  lemma FillFrontIs(h: Hash, t: Taker, m: MatchState, share: u64)
    requires RestingSide(t, m) != [] && RestingSide(t, m)[0].orders != []
    requires share == Min(m.rem, RestingSide(t, m)[0].orders[0].remaining)
    ensures var levels := RestingSide(t, m);
            var o := levels[0].orders[0];
            var m1 := FillFront(h, t, m);
            && m1.trades == m.trades + [Trade(o.ticket, t.ticket,
                                              FillOf(t, levels[0].price, o, share, m.book.fillCount + 1))]
            && RestingSide(t, m1) == levels[0 := levels[0].(orders := FrontTraded(levels[0].orders, share))]
            && m1.rem == m.rem - share && m1.book.fillCount == m.book.fillCount + 1
  {
  }

  lemma SweepEmpty(t: Taker, levels: seq<Level>)
    requires levels != [] && levels[0].orders == []
    ensures Flatten(levels) == Flatten(levels[1..])
  {
    assert Tagged(levels[0]) + Flatten(levels[1..]) == Flatten(levels[1..]);
  }

  /** Matching level by level makes exactly the trades of the sweep and leaves exactly what it leaves. */
  lemma {:induction false} MatchIsSweep(h: Hash, t: Taker, m: MatchState, n: nat)
    requires Matching(h, t, m, n)
    ensures var flat := Flatten(RestingSide(t, m));
            var m' := MatchFrom(h, t, m);
            && m'.trades == m.trades + Sweep(t, flat, m.rem, m.book.fillCount)
            && Flatten(RestingSide(t, m')) == Swept(t, flat, m.rem)
            && m'.rem == LeftOver(t, flat, m.rem)
    decreases |RestingSide(t, m)| + OrderCount(RestingSide(t, m)), m.rem
  {
    hide Matching;
    var levels := RestingSide(t, m);
    if levels == [] {
    } else if levels[0].orders == [] {
      DropFrontKeeps(h, t, m, n);
      SweepEmpty(t, levels);
      MatchIsSweep(h, t, DropFront(t, m), n);
    } else if m.rem == 0 || !Crosses(t, levels[0].price) {
      FlattenFront(levels);
    } else {
      hide Sweep, Swept, LeftOver, Flatten;
      MatchingFront(h, t, m, n);
      FillFrontKeeps(h, t, m, n);
      SweepStep(h, t, m);
      MatchIsSweep(h, t, FillFront(h, t, m), n);
    }
  }

  lemma MatchingFront(h: Hash, t: Taker, m: MatchState, n: nat)
    requires Matching(h, t, m, n) && RestingSide(t, m) != [] && RestingSide(t, m)[0].orders != []
    ensures RestingSide(t, m)[0].orders[0].remaining > 0
  {
  }

  // ----- the sweep in closed form

  lemma {:induction false} AheadShift(flat: seq<Resting>, k: nat)
    requires flat != [] && k < |flat|
    ensures Ahead(flat, k + 1) == flat[0].order.remaining + Ahead(flat[1..], k)
  {
    if k > 0 {
      AheadShift(flat, k - 1);
    }
  }

  ghost predicate Positive(flat: seq<Resting>) {
    forall k :: 0 <= k < |flat| ==> flat[k].order.remaining > 0
  }

  /** The k-th trade exists exactly if the taker reaches the k-th order, and then it is with that order, at that
      order's price, for what the orders before it leave. */
  lemma {:induction false} SweepAt(t: Taker, flat: seq<Resting>, qty: u64, n: nat, k: nat)
    requires Positive(flat)
    ensures k < |Sweep(t, flat, qty, n)| <==> Reaches(t, flat, qty, k)
    ensures Reaches(t, flat, qty, k) ==> Sweep(t, flat, qty, n)[k] == TradeAt(t, flat, qty, n, k)
  {
    if qty > 0 && flat != [] && Crosses(t, flat[0].price) {
      if k > 0 {
        var share: u64 := Min(qty, flat[0].order.remaining);
        SweepAt(t, flat[1..], qty - share, n + 1, k - 1);
        if k < |flat| {
          AheadShift(flat, k - 1);
          assert Eligible(t, flat, k) <==> Eligible(t, flat[1..], k - 1) by {
            EligibleShift(t, flat, k);
          }
        }
      }
    }
  }

  lemma EligibleShift(t: Taker, flat: seq<Resting>, k: nat)
    requires 0 < k < |flat| && Crosses(t, flat[0].price)
    ensures Eligible(t, flat, k) <==> Eligible(t, flat[1..], k - 1)
  {
    if Eligible(t, flat[1..], k - 1) {
      forall j | 0 <= j <= k ensures Crosses(t, flat[j].price) {
        if j > 0 { assert Crosses(t, flat[1..][j - 1].price); }
      }
    }
    if Eligible(t, flat, k) {
      forall j | 0 <= j <= k - 1 ensures Crosses(t, flat[1..][j].price) {
        assert Crosses(t, flat[j + 1].price);
      }
    }
  }

  /** The order c - 1, if it was not used up, keeps something. */
  ghost predicate LastKeeps(flat: seq<Resting>, qty: u64, c: nat) {
    c <= |flat| && (Ahead(flat, c) > qty ==> c > 0 && Ahead(flat, c) - qty < flat[c - 1].order.remaining)
  }

  /** The list without its first c orders, except that the last of them keeps what it did not give. */
  function AfterTrades(flat: seq<Resting>, qty: u64, c: nat): seq<Resting>
    requires LastKeeps(flat, qty, c)
  {
    if Ahead(flat, c) <= qty then flat[c..]
    else [flat[c - 1].(order := flat[c - 1].order.(remaining := Ahead(flat, c) - qty))] + flat[c..]
  }

  lemma AfterShift(flat: seq<Resting>, qty: u64, c: nat)
    requires flat != [] && flat[0].order.remaining <= qty && c < |flat|
    requires LastKeeps(flat[1..], qty - flat[0].order.remaining, c)
    ensures LastKeeps(flat, qty, c + 1)
    ensures AfterTrades(flat, qty, c + 1) == AfterTrades(flat[1..], qty - flat[0].order.remaining, c)
  {
    AheadShift(flat, c);
    assert flat[1..][c..] == flat[c + 1..];
    if c > 0 { assert flat[1..][c - 1] == flat[c]; }
  }

  lemma SweepNone(t: Taker, flat: seq<Resting>, qty: u64, n: nat)
    requires qty == 0 || flat == [] || !Crosses(t, flat[0].price)
    ensures Sweep(t, flat, qty, n) == [] && Swept(t, flat, qty) == flat && LeftOver(t, flat, qty) == qty
  {
  }

  lemma SweepLast(t: Taker, flat: seq<Resting>, qty: u64, n: nat)
    requires flat != [] && 0 < qty < flat[0].order.remaining && Crosses(t, flat[0].price)
    ensures |Sweep(t, flat, qty, n)| == 1 && LeftOver(t, flat, qty) == 0 && LastKeeps(flat, qty, 1)
    ensures Swept(t, flat, qty) == AfterTrades(flat, qty, 1)
  {
    assert Sweep(t, flat[1..], 0, n + 1) == [];
    assert Ahead(flat, 1) == Ahead(flat, 0) + flat[0].order.remaining;
  }

  lemma SweepMore(t: Taker, flat: seq<Resting>, qty: u64, n: nat)
    requires flat != [] && 0 < flat[0].order.remaining <= qty && Crosses(t, flat[0].price)
    ensures var rest := qty - flat[0].order.remaining;
            && |Sweep(t, flat, qty, n)| == 1 + |Sweep(t, flat[1..], rest, n + 1)|
            && Swept(t, flat, qty) == Swept(t, flat[1..], rest)
            && LeftOver(t, flat, qty) == LeftOver(t, flat[1..], rest)
  {
  }

  lemma {:induction false} SweptIs(t: Taker, flat: seq<Resting>, qty: u64, n: nat)
    requires Positive(flat)
    ensures var c := |Sweep(t, flat, qty, n)|;
            && LastKeeps(flat, qty, c)
            && Swept(t, flat, qty) == AfterTrades(flat, qty, c)
            && LeftOver(t, flat, qty) == (if Ahead(flat, c) <= qty then qty - Ahead(flat, c) else 0)
  {
    if qty == 0 || flat == [] || !Crosses(t, flat[0].price) {
      hide Sweep, Swept, LeftOver;
      SweepNone(t, flat, qty, n);
    } else if flat[0].order.remaining > qty {
      hide Sweep, Swept, LeftOver;
      SweepLast(t, flat, qty, n);
      assert Ahead(flat, 1) == Ahead(flat, 0) + flat[0].order.remaining;
    } else {
      hide Sweep, Swept, LeftOver;
      var rest := qty - flat[0].order.remaining;
      SweptIs(t, flat[1..], rest, n + 1);
      SweepMore(t, flat, qty, n);
      var c := |Sweep(t, flat[1..], rest, n + 1)|;
      AheadShift(flat, c);
      AfterShift(flat, qty, c);
    }
  }

  // ----- the priority list is sorted by price, then by age

  lemma {:induction false} FlattenAt(levels: seq<Level>, k: nat) returns (i: nat, j: nat)
    requires k < |Flatten(levels)|
    ensures i < |levels| && j < |levels[i].orders|
    ensures Flatten(levels)[k] == Resting(levels[i].price, levels[i].orders[j])
    ensures k == OrderCount(levels[..i]) + j
  {
    if k < |levels[0].orders| {
      i, j := 0, k;
    } else {
      i, j := FlattenAt(levels[1..], k - |levels[0].orders|);
      assert levels[..i + 1][1..] == levels[1..][..i];
      i := i + 1;
    }
  }

  lemma {:induction false} CountPrefix(levels: seq<Level>, i: nat, k: nat)
    requires i < k <= |levels|
    ensures OrderCount(levels[..i]) + |levels[i].orders| <= OrderCount(levels[..k])
  {
    if i == 0 {
      assert levels[..k][0] == levels[0];
    } else {
      assert levels[..i][1..] == levels[1..][..i - 1] && levels[..k][1..] == levels[1..][..k - 1];
      CountPrefix(levels[1..], i - 1, k - 1);
    }
  }

  /** Of two orders in priority order the first has the better price, or the same price and arrived first. */
  lemma FlattenSorted(sd: Side, levels: seq<Level>, a: nat, c: nat)
    requires Ordered(sd, levels) && a < c < |Flatten(levels)|
    ensures var x, y := Flatten(levels)[a], Flatten(levels)[c];
            || (if sd.Buy? then x.price > y.price else x.price < y.price)
            || (x.price == y.price && x.order.ticket < y.order.ticket)
  {
    var i, j := FlattenAt(levels, a);
    var k, l := FlattenAt(levels, c);
    if k < i { CountPrefix(levels, k, i); }
    if i < k {
      assert Better(sd, levels[i].price, levels[k].price);
    } else {
      assert Fifo(levels[i].orders);
    }
  }

  lemma {:induction false} FlattenPositive(levels: seq<Level>)
    requires Quantities(levels)
    ensures Positive(Flatten(levels))
  {
    var flat := Flatten(levels);
    forall k | 0 <= k < |flat| ensures flat[k].order.remaining > 0 {
      var i, j := FlattenAt(levels, k);
    }
  }

  // ----- main results

  /** An order on a well-formed book trades exactly with the orders it reaches in price-time priority: the k-th
      trade exists if and only if the taker reaches the k-th resting order, is with that order at its own price
      for its fair share, and takes the next fill number. */
  lemma PriceTimePriority(h: Hash, t: Taker, b: Book, sequence: u64, qty: u64, k: nat)
    requires WellFormed(h, b) && t.ticket == b.arrivals
    ensures var flat := Flatten(b.sides.Get(t.side.Opposite()));
            var trades := MatchFrom(h, t, MatchState(Arrive(b, sequence), qty, [])).trades;
            && (k < |trades| <==> Reaches(t, flat, qty, k))
            && (k < |trades| ==> trades[k] == TradeAt(t, flat, qty, b.fillCount, k))
  {
    var sd := t.side.Opposite();
    var m := MatchState(Arrive(b, sequence), qty, []);
    WellFormedSide(h, b, sd);
    assert Matching(h, t, m, t.ticket);
    MatchIsSweep(h, t, m, t.ticket);
    FlattenPositive(b.sides.Get(sd));
    SweepAt(t, Flatten(b.sides.Get(sd)), qty, b.fillCount, k);
  }

  /** What is left of the resting side and of the taker: with c trades made, the side is what it was without its
      first c orders, except that the last of them keeps what it did not give. */
  lemma RestingAfter(h: Hash, t: Taker, b: Book, sequence: u64, qty: u64)
    requires WellFormed(h, b) && t.ticket == b.arrivals
    ensures var flat := Flatten(b.sides.Get(t.side.Opposite()));
            var m := MatchFrom(h, t, MatchState(Arrive(b, sequence), qty, []));
            var c := |m.trades|;
            && LastKeeps(flat, qty, c)
            && Flatten(RestingSide(t, m)) == AfterTrades(flat, qty, c)
            && m.rem == (if Ahead(flat, c) <= qty then qty - Ahead(flat, c) else 0)
            && m.book.sides.Get(t.side) == b.sides.Get(t.side)
  {
    var sd := t.side.Opposite();
    var m := MatchState(Arrive(b, sequence), qty, []);
    WellFormedSide(h, b, sd);
    assert Matching(h, t, m, t.ticket);
    MatchIsSweep(h, t, m, t.ticket);
    MatchFrame(h, t, m);
    FlattenPositive(b.sides.Get(sd));
    SweptIs(t, Flatten(b.sides.Get(sd)), qty, b.fillCount);
  }

  /** All orders up to the k-th cross exactly if the k-th does: it has the worst price of them. */
  lemma EligibleByLast(t: Taker, levels: seq<Level>, k: nat)
    requires Ordered(t.side.Opposite(), levels) && k < |Flatten(levels)|
    ensures Eligible(t, Flatten(levels), k) <==> Crosses(t, Flatten(levels)[k].price)
  {
    var flat := Flatten(levels);
    if Crosses(t, flat[k].price) {
      forall j | 0 <= j <= k ensures Crosses(t, flat[j].price) {
        if j < k { FlattenSorted(t.side.Opposite(), levels, j, k); }
      }
    }
  }

  /** Both parties, the maker's price, what the orders before leave over, and the next number. */
  ghost predicate Fair(x: Trade, market: Uuid, b: Book, id: Uuid, user: Uuid, sd: Side, quantity: u64,
                       flat: seq<Resting>, k: nat)
    requires k < |flat|
  {
    var o, f := flat[k].order, x.fill;
    && x.maker == o.ticket && x.taker == b.arrivals
    && f.makerOrder == o.id && f.makerUser == o.user && f.takerOrder == id && f.takerUser == user
    && f.market == market && f.aggressor == sd && f.price == flat[k].price
    && f.quantity as int == Min(quantity - Ahead(flat, k), o.remaining) > 0
    && f.sequence as int == (b.fillCount + k + 1) % TWO64
  }

  /** The fills of a limit order, in terms of the order alone: the k-th exists exactly if the limit is a valid price,
      the k-th order of the other side's priority list is priced within the limit, and the orders before it have
      less to offer than is asked for; and it names both parties and is at the maker's price. */
  lemma FillIsFair(h: Hash, market: Uuid, b: Book, id: Uuid, user: Uuid, sd: Side, limit: u32, quantity: u64,
                   sequence: u64, k: nat)
    requires WellFormed(h, b)
    ensures var trades := AddLimit(h, market, b, id, user, sd, limit, quantity, sequence).trades;
            var flat := Flatten(b.sides.Get(sd.Opposite()));
            && (k < |trades| <==>
                  && 1 <= limit <= 9999 && k < |flat| && Ahead(flat, k) < quantity as int
                  && (if sd.Buy? then flat[k].price <= limit else flat[k].price >= limit))
            && (k < |trades| ==> Fair(trades[k], market, b, id, user, sd, quantity, flat, k))
  {
    var t := Taker(market, b.arrivals, id, user, sd, limit, false);
    var flat := Flatten(b.sides.Get(sd.Opposite()));
    hide WellFormed, MatchFrom, Rest, Flatten, Ordered, Positive, Ahead;
    PriceTimePriority(h, t, b, sequence, quantity, k);
    WellFormedFlat(h, b, sd.Opposite());
    if k < |flat| { EligibleByLast(t, b.sides.Get(sd.Opposite()), k); }
  }

  /** The fills of a market order: the k-th exists exactly if there is a k-th order on the other side's priority list
      and the orders before it have less to offer than is asked for, at whatever price. */
  lemma MarketFillIsFair(h: Hash, market: Uuid, b: Book, id: Uuid, user: Uuid, sd: Side, quantity: u64,
                         sequence: u64, k: nat)
    requires WellFormed(h, b)
    ensures var trades := AddMarket(h, market, b, id, user, sd, quantity, sequence).trades;
            var flat := Flatten(b.sides.Get(sd.Opposite()));
            && (k < |trades| <==> k < |flat| && Ahead(flat, k) < quantity as int)
            && (k < |trades| ==> Fair(trades[k], market, b, id, user, sd, quantity, flat, k))
  {
    var t := Taker(market, b.arrivals, id, user, sd, 0, true);
    var flat := Flatten(b.sides.Get(sd.Opposite()));
    hide WellFormed, MatchFrom, Flatten, Ordered, Positive, Ahead;
    PriceTimePriority(h, t, b, sequence, quantity, k);
    WellFormedFlat(h, b, sd.Opposite());
    if k < |flat| { EligibleByLast(t, b.sides.Get(sd.Opposite()), k); }
  }

  /** Nothing of a market order rests: the own side stays, and the other side loses what was traded. */
  lemma MarketLeaves(h: Hash, market: Uuid, b: Book, id: Uuid, user: Uuid, sd: Side, quantity: u64, sequence: u64)
    requires WellFormed(h, b)
    ensures var out := AddMarket(h, market, b, id, user, sd, quantity, sequence);
            var flat := Flatten(b.sides.Get(sd.Opposite()));
            && out.book.sides.Get(sd) == b.sides.Get(sd)
            && LastKeeps(flat, quantity, |out.trades|)
            && Flatten(out.book.sides.Get(sd.Opposite())) == AfterTrades(flat, quantity, |out.trades|)
  {
    var t := Taker(market, b.arrivals, id, user, sd, 0, true);
    var flat := Flatten(b.sides.Get(sd.Opposite()));
    hide WellFormed, MatchFrom, Flatten;
    RestingAfter(h, t, b, sequence, quantity);
    assert flat[0..] == flat;
  }

  /** The book remembers the sequence of the last order accepted, counts arrivals and fills; an order with a price
      outside 1..9999 or without a quantity changes nothing. */
  lemma CountersAfter(h: Hash, market: Uuid, b: Book, id: Uuid, user: Uuid, sd: Side, limit: u32, quantity: u64,
                      sequence: u64)
    requires WellFormed(h, b)
    ensures var out := AddLimit(h, market, b, id, user, sd, limit, quantity, sequence);
            if 1 <= limit <= 9999 && quantity > 0 then
              && out.book.sequence == sequence && out.book.arrivals == b.arrivals + 1
              && out.book.fillCount == b.fillCount + |out.trades|
            else out == Outcome(b, [])
    ensures var out := AddMarket(h, market, b, id, user, sd, quantity, sequence);
            if quantity > 0 then
              && out.book.sequence == sequence && out.book.arrivals == b.arrivals + 1
              && out.book.fillCount == b.fillCount + |out.trades|
            else out == Outcome(b, [])
  {
    hide MatchFrom, WellFormed, Rested;
    CountersMatched(h, Taker(market, b.arrivals, id, user, sd, limit, false), b, sequence, quantity);
    CountersMatched(h, Taker(market, b.arrivals, id, user, sd, 0, true), b, sequence, quantity);
  }

  lemma CountersMatched(h: Hash, t: Taker, b: Book, sequence: u64, quantity: u64)
    requires WellFormed(h, b) && t.ticket == b.arrivals
    ensures var m := MatchFrom(h, t, MatchState(Arrive(b, sequence), quantity, []));
            && m.book.sequence == sequence && m.book.arrivals == b.arrivals + 1
            && m.book.fillCount == b.fillCount + |m.trades|
  {
    MatchCounts(h, t, MatchState(Arrive(b, sequence), quantity, []));
  }

  lemma {:induction false} MatchCounts(h: Hash, t: Taker, m: MatchState)
    ensures var m' := MatchFrom(h, t, m);
            && m'.book.sequence == m.book.sequence && m'.book.arrivals == m.book.arrivals
            && m'.book.fillCount - |m'.trades| == m.book.fillCount - |m.trades|
    decreases |RestingSide(t, m)| + OrderCount(RestingSide(t, m)), m.rem
  {
    var levels := RestingSide(t, m);
    if levels == [] {
    } else if levels[0].orders == [] {
      MatchCounts(h, t, DropFront(t, m));
    } else if m.rem == 0 || !Crosses(t, levels[0].price) {
    } else {
      MatchCounts(h, t, FillFront(h, t, m));
    }
  }

  lemma WellFormedFlat(h: Hash, b: Book, sd: Side)
    requires WellFormed(h, b)
    ensures Ordered(sd, b.sides.Get(sd)) && Positive(Flatten(b.sides.Get(sd)))
  {
    WellFormedSide(h, b, sd);
    FlattenPositive(b.sides.Get(sd));
  }
}
