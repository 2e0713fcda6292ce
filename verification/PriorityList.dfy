/** Resting and cancelling seen on the priority list of a side: one order goes in, or one order
    goes out, and all others keep their places. */
module PriorityList {
  import opened Types
  import opened BookSpec
  import opened BookSafety
  import opened PriceTime

  lemma {:induction false} FlattenSplit(a: seq<Level>, b: seq<Level>)
    ensures Flatten(a + b) == Flatten(a) + Flatten(b)
  {
    if a == [] {
      assert a + b == b;
    } else {
      var all := a + b;
      hide Tagged;
      assert all[0] == a[0] && all[1..] == a[1..] + b;
      assert Flatten(all) == Tagged(a[0]) + Flatten(all[1..]) && Flatten(a) == Tagged(a[0]) + Flatten(a[1..]);
      hide Flatten;
      FlattenSplit(a[1..], b);
      Regrouped(Tagged(a[0]), Flatten(a[1..]), Flatten(b));
    }
  }

  lemma FlattenOne(lv: Level)
    ensures Flatten([lv]) == Tagged(lv)
  {
    assert [lv][1..] == [];
    assert Tagged(lv) + [] == Tagged(lv);
  }

  lemma {:induction false} FlattenSize(levels: seq<Level>)
    ensures |Flatten(levels)| == OrderCount(levels)
  {
    if levels != [] {
      FlattenSize(levels[1..]);
    }
  }

  /** The list around level i. */
  lemma FlattenAround(levels: seq<Level>, i: nat)
    requires i < |levels|
    ensures Flatten(levels) == Flatten(levels[..i]) + Tagged(levels[i]) + Flatten(levels[i + 1..])
    ensures |Flatten(levels[..i])| == OrderCount(levels[..i])
  {
    hide Flatten, Tagged;
    assert levels == levels[..i] + ([levels[i]] + levels[i + 1..]);
    FlattenSplit(levels[..i], [levels[i]] + levels[i + 1..]);
    FlattenSplit([levels[i]], levels[i + 1..]);
    FlattenOne(levels[i]);
    FlattenSize(levels[..i]);
    Regrouped(Flatten(levels[..i]), Tagged(levels[i]), Flatten(levels[i + 1..]));
  }

  /** The list around a level that has been changed. */
  lemma FlattenReplaced(levels: seq<Level>, i: nat, lv: Level)
    requires i < |levels|
    ensures Flatten(levels[i := lv]) == Flatten(levels[..i]) + Tagged(lv) + Flatten(levels[i + 1..])
  {
    hide Flatten, Tagged;
    var levels' := levels[i := lv];
    assert levels'[..i] == levels[..i] && levels'[i + 1..] == levels[i + 1..];
    FlattenAround(levels', i);
  }

  lemma InsertedBetween(a: seq<Resting>, b: seq<Resting>, c: seq<Resting>, x: Resting)
    ensures a + (b + [x]) + c == Inserted(a + b + c, |a| + |b|, x)
  {
    assert (a + b + c)[..|a| + |b|] == a + b && (a + b + c)[|a| + |b|..] == c;
  }

  lemma RemovedBetween(a: seq<Resting>, b: seq<Resting>, c: seq<Resting>, j: nat)
    requires j < |b|
    ensures a + Without(b, j) + c == Without(a + b + c, |a| + j)
  {
    assert (a + b + c)[..|a| + j] == a + b[..j] && (a + b + c)[|a| + j + 1..] == b[j + 1..] + c;
  }

  // ----- resting

  lemma AppendedLast(levels: seq<Level>, i: nat, o: Order)
    requires i < |levels|
    ensures OrderCount(levels[..i]) + |levels[i].orders| <= |Flatten(levels)|
    ensures Flatten(Append(levels, i, o))
            == Inserted(Flatten(levels), OrderCount(levels[..i]) + |levels[i].orders|, Resting(levels[i].price, o))
  {
    var lv := levels[i];
    var lv' := lv.(orders := lv.orders + [o]);
    FlattenAround(levels, i);
    FlattenReplaced(levels, i, lv');
    assert Tagged(lv') == Tagged(lv) + [Resting(lv.price, o)];
    InsertedBetween(Flatten(levels[..i]), Tagged(lv), Flatten(levels[i + 1..]), Resting(lv.price, o));
  }

  /** A level without orders does not show on the list. */
  lemma NewLevelInvisible(levels: seq<Level>, i: nat, p: u32)
    requires i <= |levels|
    ensures Flatten(Inserted(levels, i, Level(p, []))) == Flatten(levels)
  {
    FlattenSplit(levels[..i], levels[i..]);
    assert levels == levels[..i] + levels[i..];
    assert Inserted(levels, i, Level(p, [])) == levels[..i] + ([Level(p, [])] + levels[i..]);
    FlattenSplit(levels[..i], [Level(p, [])] + levels[i..]);
    FlattenSplit([Level(p, [])], levels[i..]);
    FlattenOne(Level(p, []));
    hide Flatten;
    assert [] + Flatten(levels[i..]) == Flatten(levels[i..]);
  }

  /** An order that comes to rest is put into the priority list, and nothing else about the list changes. Where it
      goes follows from FlattenSorted: behind every order with a better price and every older one at its own. */
  lemma RestedOnce(sd: Side, levels: seq<Level>, p: u32, o: Order) returns (k: nat)
    requires HasLevelAt(WithLevel(sd, levels, p), Position(sd, levels, p), p)
    ensures k <= |Flatten(levels)|
    ensures Flatten(Rested(sd, levels, p, o)) == Inserted(Flatten(levels), k, Resting(p, o))
  {
    var i, with := Position(sd, levels, p), WithLevel(sd, levels, p);
    NewLevelInvisible(levels, i, p);
    AppendedLast(with, i, o);
    k := OrderCount(with[..i]) + |with[i].orders|;
  }

  // ----- cancelling

  /** A cancelled order goes out of the priority list, and nothing else about the list changes. */
  lemma RemovedOnce(levels: seq<Level>, i: nat, j: nat) returns (k: nat)
    requires i < |levels| && j < |levels[i].orders|
    ensures k < |Flatten(levels)| && Flatten(levels)[k] == Resting(levels[i].price, levels[i].orders[j])
    ensures Flatten(Removed(levels, i, j)) == Without(Flatten(levels), k)
  {
    var lv := levels[i];
    var lv' := lv.(orders := Without(lv.orders, j));
    var a, b, c := Flatten(levels[..i]), Tagged(lv), Flatten(levels[i + 1..]);
    FlattenAround(levels, i);
    k := |a| + j;
    RemovedBetween(a, b, c, j);
    assert Tagged(lv') == Without(b, j);
    if lv'.orders == [] {
      FlattenSplit(levels[..i], levels[i + 1..]);
      assert Without(b, j) == [];
      assert a + [] == a;
    } else {
      FlattenReplaced(levels, i, lv');
    }
  }

  // ----- main results

  /** After an accepted limit order the own side of the book is the old priority list, with the remainder put in
      at the order's limit if any is left and the order pool is not full. */
  lemma LimitRests(h: Hash, market: Uuid, b: Book, id: Uuid, user: Uuid, sd: Side, price: u32, quantity: u64,
                   sequence: u64)
    returns (k: nat)
    requires WellFormed(h, b) && 0 < price < MAX_PRICE && quantity > 0
    ensures var t := Taker(market, b.arrivals, id, user, sd, price, false);
            var m := MatchFrom(h, t, MatchState(Arrive(b, sequence), quantity, []));
            var b' := AddLimit(h, market, b, id, user, sd, price, quantity, sequence).book;
            && k <= |Flatten(b.sides.Get(sd))|
            && Flatten(b'.sides.Get(sd)) ==
                 (if m.rem == 0 || Live(m.book.sides) >= MAX_ORDERS then Flatten(b.sides.Get(sd))
                  else Inserted(Flatten(b.sides.Get(sd)), k,
                                Resting(price, Order(b.arrivals, id, user, quantity, m.rem, sequence))))
            && b'.sides.Get(sd.Opposite()) == m.book.sides.Get(sd.Opposite())
  {
    var t := Taker(market, b.arrivals, id, user, sd, price, false);
    var m0 := MatchState(Arrive(b, sequence), quantity, []);
    var m := MatchFrom(h, t, m0);
    MatchFrame(h, t, m0);
    WithLevelHas(sd, b.sides.Get(sd), price);
    hide MatchFrom, WellFormed, Flatten, WithLevel, Position, OrderCount;
    k := RestedOnce(sd, b.sides.Get(sd), price, Order(b.arrivals, id, user, quantity, m.rem, sequence));
  }
}
