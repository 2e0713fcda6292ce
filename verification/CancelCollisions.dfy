/** What happens to cancelling when order ids share a hash bucket: exactly when it goes wrong, and a
    run in which it does. */
module CancelCollisions {
  import opened Types
  import opened BookSpec
  import opened BookSafety
  import opened CancelIndex
  import opened BookRuns

  /** Two ids share a bucket exactly if their hashes differ by a multiple of 131072. */
  lemma SameBucketExactly(h: Hash, a: Uuid, c: Uuid)
    ensures Bucket(h, a) == Bucket(h, c) <==> (h(a) as int - h(c) as int) % 131072 == 0
  {
  }

  /** Two live orders that an indexed book keeps in one bucket are the same order. */
  lemma SameBucketSameOrder(h: Hash, b: Book, sd: Side, i: nat, j: nat, sd2: Side, a: nat, c: nat)
    requires WellFormed(h, b) && Indexed(h, b) && Rests(b.sides, sd, i, j) && Rests(b.sides, sd2, a, c)
    requires Bucket(h, OrderAt(b.sides, sd, i, j).id) == Bucket(h, OrderAt(b.sides, sd2, a, c).id)
    ensures sd == sd2 && i == a && j == c
  {
    SideOf(h, b, sd, i, j);
    SideOf(h, b, sd2, a, c);
    WellFormedSide(h, b, sd);
    hide WellFormed, Indexed;
    IndexedSide(h, b, sd);
    OneBucketEach(h, sd, b.sides.Get(sd), b.index, i, j, a, c);
  }

  lemma SideOf(h: Hash, b: Book, sd: Side, i: nat, j: nat)
    requires Indexed(h, b) && Rests(b.sides, sd, i, j)
    ensures Bucket(h, OrderAt(b.sides, sd, i, j).id) in b.index
    ensures b.index[Bucket(h, OrderAt(b.sides, sd, i, j).id)].side == sd
  {
  }

  lemma IndexedSide(h: Hash, b: Book, sd: Side)
    requires Indexed(h, b)
    ensures SideIndexed(h, sd, b.sides.Get(sd), b.index)
  {
  }

  /** In an indexed book, cancelling by an id tells truly whether the id is live exactly if no other live id is in
      its bucket. */
  lemma SucceedsExactly(h: Hash, b: Book, id: Uuid)
    requires WellFormed(h, b) && Indexed(h, b)
    ensures (CanCancel(h, b, id) <==> LiveId(b.sides, id)) <==> NoCollision(h, b, id)
  {
    if NoCollision(h, b, id) {
      CancelSucceeds(h, b, id);
    } else {
      var sd: Side, i, j :| Rests(b.sides, sd, i, j) && Bucket(h, OrderAt(b.sides, sd, i, j).id) == Bucket(h, id)
                            && OrderAt(b.sides, sd, i, j).id != id;
      SideOf(h, b, sd, i, j);
      forall sd2: Side, a, c | Rests(b.sides, sd2, a, c) ensures OrderAt(b.sides, sd2, a, c).id != id {
        if Bucket(h, OrderAt(b.sides, sd2, a, c).id) == Bucket(h, id) {
          SameBucketSameOrder(h, b, sd, i, j, sd2, a, c);
        }
      }
    }
  }

  /** Order j of level i is still there after another order has come to rest. */
  lemma StillRests(s: Sides, sd: Side, p: u32, o: Order, sd2: Side, i: nat, j: nat) returns (a: nat)
    requires Rests(s, sd2, i, j)
    requires HasLevelAt(WithLevel(sd, s.Get(sd), p), Position(sd, s.Get(sd), p), p)
    ensures var s' := s.Set(sd, Rested(sd, s.Get(sd), p, o));
            Rests(s', sd2, a, j) && OrderAt(s', sd2, a, j) == OrderAt(s, sd2, i, j)
  {
    a := i;
    if sd2 == sd {
      var levels := s.Get(sd);
      var at, with := Position(sd, levels, p), WithLevel(sd, levels, p);
      if with != levels {
        InsertedIndex(levels, at, Level(p, []));
        a := if i < at then i else i + 1;
      }
      assert with[a] == levels[i];
    }
  }

  /** An order that comes to rest keeps the book indexed exactly if no live order is in its bucket. */
  lemma RestIndexedExactly(h: Hash, b: Book, sd: Side, p: u32, o: Order)
    requires Indexed(h, b) && Absent(b.sides, o.ticket)
    requires HasLevelAt(WithLevel(sd, b.sides.Get(sd), p), Position(sd, b.sides.Get(sd), p), p)
    ensures Indexed(h, Rest(h, b, sd, p, o)) <==> FreshBucket(h, b, o.id)
  {
    if FreshBucket(h, b, o.id) {
      RestIndexed(h, b, sd, p, o);
    } else {
      var sd2, i, j := InBucket(h, b, Bucket(h, o.id));
      var a := StillRests(b.sides, sd, p, o, sd2, i, j);
      var b' := Rest(h, b, sd, p, o);
      NotTheNewOne(b.sides, o.ticket, sd2, i, j);
      if Indexed(h, b') {
        IndexedTicket(h, b', sd2, a, j);
      }
    }
  }

  lemma InBucket(h: Hash, b: Book, k: nat) returns (sd: Side, i: nat, j: nat)
    requires !BucketFree(h, b.sides.bids, k) || !BucketFree(h, b.sides.asks, k)
    ensures Rests(b.sides, sd, i, j) && Bucket(h, OrderAt(b.sides, sd, i, j).id) == k
  {
    sd := if !BucketFree(h, b.sides.bids, k) then Buy else Sell;
    var levels := b.sides.Get(sd);
    var x, y :| 0 <= x < |levels| && 0 <= y < |levels[x].orders| && Bucket(h, levels[x].orders[y].id) == k;
    i, j := x, y;
  }

  lemma NotTheNewOne(s: Sides, ticket: nat, sd: Side, i: nat, j: nat)
    requires Absent(s, ticket) && Rests(s, sd, i, j)
    ensures OrderAt(s, sd, i, j).ticket != ticket
  {
    assert NotQueued(s.Get(sd)[i].orders, ticket);
  }

  lemma IndexedTicket(h: Hash, b: Book, sd: Side, i: nat, j: nat)
    requires Indexed(h, b) && Rests(b.sides, sd, i, j)
    ensures var o := OrderAt(b.sides, sd, i, j);
            Bucket(h, o.id) in b.index && b.index[Bucket(h, o.id)].ticket == o.ticket
  {
  }

  // ----- a run in which cancelling goes wrong

  lemma FirstRests(h: Hash, market: Uuid, id: Uuid, user: Uuid)
    ensures AddLimit(h, market, EmptyBook, id, user, Buy, 5000, 1, 1).book
            == Book(Sides([Level(5000, [Order(0, id, user, 1, 1, 1)])], []),
                    map[Bucket(h, id) := Ref(Buy, 5000, 0)], 1, 1, 0)
  {
    NothingToMatch(h, Taker(market, 0, id, user, Buy, 5000, false), MatchState(Arrive(EmptyBook, 1), 1, []));
    var levels: seq<Level> := [];
    assert Position(Buy, levels, 5000) == 0;
    assert Inserted(levels, 0, Level(5000, [])) == [Level(5000, [])];
    assert Live(Sides([], [])) == 0;
    var o := Order(0, id, user, 1, 1, 1);
    assert WithLevel(Buy, levels, 5000) == [Level(5000, [])];
    assert [] + [o] == [o];
    assert Append([Level(5000, [])], 0, o) == [Level(5000, [o])];
    assert map[][Bucket(h, id) := Ref(Buy, 5000, 0)] == map[Bucket(h, id) := Ref(Buy, 5000, 0)];
  }

  lemma NothingToMatch(h: Hash, t: Taker, m: MatchState)
    requires RestingSide(t, m) == []
    ensures MatchFrom(h, t, m) == m
  {
  }

  lemma SecondRests(h: Hash, market: Uuid, b: Book, x: Order, id: Uuid, user: Uuid)
    requires b == Book(Sides([Level(5000, [x])], []), map[Bucket(h, id) := Ref(Buy, 5000, 0)], 1, 1, 0)
    ensures AddLimit(h, market, b, id, user, Buy, 5000, 1, 2).book
            == Book(Sides([Level(5000, [x, Order(1, id, user, 1, 1, 2)])], []),
                    map[Bucket(h, id) := Ref(Buy, 5000, 1)], 2, 2, 0)
  {
    var o := Order(1, id, user, 1, 1, 2);
    NothingToMatch(h, Taker(market, 1, id, user, Buy, 5000, false), MatchState(Arrive(b, 2), 1, []));
    var levels := [Level(5000, [x])];
    assert Position(Buy, levels, 5000) == 0;
    OneLive(b.sides, x);
    assert [x] + [o] == [x, o];
    assert Rested(Buy, levels, 5000, o) == [Level(5000, [x, o])];
    assert b.index[Bucket(h, id) := Ref(Buy, 5000, 1)] == map[Bucket(h, id) := Ref(Buy, 5000, 1)];
  }

  lemma OneLive(s: Sides, x: Order)
    requires s == Sides([Level(5000, [x])], [])
    ensures Live(s) == 1
  {
    assert s.bids[1..] == [];
  }

  lemma SecondLeaves(h: Hash, b: Book, x: Order, y: Order, id: Uuid)
    requires x.ticket == 0 && y.ticket == 1
    requires b == Book(Sides([Level(5000, [x, y])], []), map[Bucket(h, id) := Ref(Buy, 5000, 1)], 2, 2, 0)
    ensures CanCancel(h, b, id) && Cancel(h, b, id).sides == Sides([Level(5000, [x])], [])
  {
    TicketPositionIs([x, y], 1);
    assert Without([x, y], 1) == [x];
  }

  /** Two live orders whose ids share a bucket: cancelling the first id reports success, takes out the second
      order and leaves the first one live. */
  lemma CollisionCancelsAnother(h: Hash, market: Uuid, first: Uuid, second: Uuid, user: Uuid)
    requires first != second && Bucket(h, first) == Bucket(h, second)
    ensures var b := After(h, market, [Limit(first, user, Buy, 5000, 1, 1), Limit(second, user, Buy, 5000, 1, 2)]).book;
            && CanCancel(h, b, first)
            && Cancel(h, b, first).sides == Sides([Level(5000, [Order(0, first, user, 1, 1, 1)])], [])
  {
    var c1, c2 := Limit(first, user, Buy, 5000, 1, 1), Limit(second, user, Buy, 5000, 1, 2);
    assert [c1, c2][..1] == [c1] && [c1][..0] == [];
    var x, y := Order(0, first, user, 1, 1, 1), Order(1, second, user, 1, 1, 2);
    FirstRests(h, market, first, user);
    hide AddLimit;
    var b1 := After(h, market, [c1]).book;
    assert After(h, market, []) == Start;
    assert b1 == AddLimit(h, market, EmptyBook, first, user, Buy, 5000, 1, 1).book;
    SecondRests(h, market, b1, x, second, user);
    var b2 := After(h, market, [c1, c2]).book;
    assert b2 == AddLimit(h, market, b1, second, user, Buy, 5000, 1, 2).book;
    SecondLeaves(h, b2, x, y, first);
  }
}
