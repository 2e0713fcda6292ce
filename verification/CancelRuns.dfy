/** Cancelling over whole runs: in exactly which runs every live order can be cancelled by its id, and
    what becomes of an order whose bucket another one has taken over. */
module CancelRuns {
  import opened Types
  import opened BookSpec
  import opened BookSafety
  import opened CancelIndex
  import opened BookRuns
  import opened CancelCollisions

  // ----- one command

  /** If the command is a limit order that comes to rest, it finds its bucket unused when it does. */
  ghost predicate RestsFresh(h: Hash, market: Uuid, b: Book, c: Command) {
    c.Limit? && Accepted(c) ==>
      var m := Matched(h, market, b, c);
      m.rem > 0 && Live(m.book.sides) < MAX_ORDERS ==> FreshBucket(h, m.book, c.id)
  }

  lemma LimitIndexedExactly(h: Hash, market: Uuid, b: Book, c: Command)
    requires WellFormed(h, b) && Indexed(h, b) && c.Limit?
    ensures Indexed(h, Apply(h, market, b, c).book) <==> RestsFresh(h, market, b, c)
  {
    hide WellFormed, Indexed, MatchFrom, FreshBucket, Rest, Arrived;
    if Accepted(c) {
      var t := TakerOf(market, b, c);
      var m := Matched(h, market, b, c);
      LimitMatched(h, t, b, c.sequence, c.quantity);
      MatchedArrived(h, t, b, c.sequence, c.quantity);
      if m.rem > 0 && Live(m.book.sides) < MAX_ORDERS {
        ArrivedAbsent(h, m.book, b.arrivals);
        WithLevelHas(c.side, m.book.sides.Get(c.side), c.price);
        RestIndexedExactly(h, m.book, c.side, c.price, Order(b.arrivals, c.id, c.user, c.quantity, m.rem, c.sequence));
      }
    }
  }

  lemma ArrivedAbsent(h: Hash, b: Book, n: nat)
    requires Arrived(h, b, n)
    ensures Absent(b.sides, n)
  {
    forall i | 0 <= i < |b.sides.bids| ensures NotQueued(b.sides.bids[i].orders, n) {
      assert OlderQueue(b.sides.bids[i].orders, n);
    }
    forall i | 0 <= i < |b.sides.asks| ensures NotQueued(b.sides.asks[i].orders, n) {
      assert OlderQueue(b.sides.asks[i].orders, n);
    }
  }

  lemma ApplyIndexedExactly(h: Hash, market: Uuid, b: Book, c: Command)
    requires WellFormed(h, b) && Indexed(h, b)
    ensures Indexed(h, Apply(h, market, b, c).book) <==> RestsFresh(h, market, b, c)
  {
    hide WellFormed, Indexed, FreshBucket;
    match c
    case Limit(_, _, _, _, _, _) => LimitIndexedExactly(h, market, b, c);
    case Market(id, user, sd, quantity, sequence) => AddMarketIndexed(h, market, b, id, user, sd, quantity, sequence);
    case Withdraw(id) => CancelIndexed(h, b, id);
  }

  // ----- in which runs every live order can be cancelled

  ghost predicate AlwaysIndexed(h: Hash, market: Uuid, cs: seq<Command>) {
    forall k :: 0 <= k <= |cs| ==> Indexed(h, After(h, market, cs[..k]).book)
  }

  ghost predicate NeverCollides(h: Hash, market: Uuid, cs: seq<Command>) {
    forall k :: 0 <= k < |cs| ==> RestsFresh(h, market, After(h, market, cs[..k]).book, cs[k])
  }

  lemma OneMoreCommand(h: Hash, market: Uuid, rest: seq<Command>, c: Command)
    ensures AlwaysIndexed(h, market, rest + [c])
            <==> AlwaysIndexed(h, market, rest) && Indexed(h, After(h, market, rest + [c]).book)
    ensures NeverCollides(h, market, rest + [c])
            <==> NeverCollides(h, market, rest) && RestsFresh(h, market, After(h, market, rest).book, c)
    ensures AlwaysIndexed(h, market, rest) ==> Indexed(h, After(h, market, rest).book)
  {
    hide Indexed, RestsFresh, After;
    var cs := rest + [c];
    assert forall k :: 0 <= k <= |rest| ==> cs[..k] == rest[..k];
    assert cs[..|cs|] == cs && cs[..|rest|] == rest == rest[..|rest|];
    assert forall k :: 0 <= k < |rest| ==> cs[k] == rest[k];
  }

  /** Every live order can be cancelled by its id at every point of a run exactly if each order that comes to rest
      finds its bucket unused at that moment. */
  lemma {:induction false} RunIndexedExactly(h: Hash, market: Uuid, cs: seq<Command>)
    ensures AlwaysIndexed(h, market, cs) <==> NeverCollides(h, market, cs)
  {
    hide Indexed, RestsFresh, AlwaysIndexed, NeverCollides, Next, WellFormed, Balanced, Numbered, TradesBelow;
    if cs == [] {
      NothingIndexed(h, market);
    } else {
      var rest, c := cs[..|cs| - 1], cs[|cs| - 1];
      var r := After(h, market, rest);
      assert cs == rest + [c] && After(h, market, cs) == Next(h, market, r, c);
      hide After;
      RunIndexedExactly(h, market, rest);
      OneMoreCommand(h, market, rest, c);
      if AlwaysIndexed(h, market, rest) {
        EveryRun(h, market, rest);
        NextBook(h, market, r, c);
        ApplyIndexedExactly(h, market, r.book, c);
      }
    }
  }

  lemma NothingIndexed(h: Hash, market: Uuid)
    ensures AlwaysIndexed(h, market, []) && NeverCollides(h, market, [])
  {
    EmptyWellFormed(h);
  }

  // ----- after a collision

  /** No bucket names the ticket. */
  ghost predicate Unnamed(index: map<nat, Ref>, ticket: nat) {
    forall k :: k in index ==> index[k].ticket != ticket
  }

  ghost predicate Within(index: map<nat, Ref>, larger: map<nat, Ref>) {
    forall k :: k in index ==> k in larger && larger[k] == index[k]
  }

  lemma {:induction false} MatchingClears(h: Hash, t: Taker, m: MatchState)
    ensures Within(MatchFrom(h, t, m).book.index, m.book.index)
    decreases |RestingSide(t, m)| + OrderCount(RestingSide(t, m)), m.rem
  {
    var levels := RestingSide(t, m);
    if levels == [] {
    } else if levels[0].orders == [] {
      MatchingClears(h, t, DropFront(t, m));
    } else if m.rem == 0 || !Crosses(t, levels[0].price) {
    } else {
      MatchingClears(h, t, FillFront(h, t, m));
    }
  }

  /** What a command may do to the index: clear buckets, and name the order that has just arrived. */
  lemma ApplyNames(h: Hash, market: Uuid, b: Book, c: Command)
    ensures var b' := Apply(h, market, b, c).book;
            && b.arrivals <= b'.arrivals <= b.arrivals + 1
            && forall k :: k in b'.index ==>
                 || (k in b.index && b'.index[k] == b.index[k])
                 || (b'.index[k].ticket == b.arrivals < b'.arrivals && Accepted(c) && c.Limit? && k == Bucket(h, c.id))
  {
    if Accepted(c) {
      var t, m0 := TakerOf(market, b, c), MatchState(Arrive(b, c.sequence), c.quantity, []);
      MatchingClears(h, t, m0);
      MatchFrame(h, t, m0);
      hide MatchFrom, Rested;
    }
  }

  lemma UnnamedStays(h: Hash, market: Uuid, r: Run, c: Command, ticket: nat)
    requires ticket < r.book.arrivals == |r.cancelled| && Unnamed(r.book.index, ticket)
    ensures var r' := Next(h, market, r, c);
            ticket < r'.book.arrivals && Unnamed(r'.book.index, ticket)
    ensures var r' := Next(h, market, r, c);
            |r'.cancelled| >= |r.cancelled| && r'.cancelled[ticket] == r.cancelled[ticket]
  {
    ApplyNames(h, market, r.book, c);
    hide Apply, Matched, CanCancel;
    NextBook(h, market, r, c);
  }

  /** An order that no bucket names cannot be cancelled in any continuation of the run: not by its own id, nor by
      another. */
  lemma {:induction false} NeverCancelled(h: Hash, market: Uuid, cs: seq<Command>, more: seq<Command>, ticket: nat)
    requires var r := After(h, market, cs);
             ticket < r.book.arrivals && Unnamed(r.book.index, ticket)
    ensures var r, r' := After(h, market, cs), After(h, market, cs + more);
            && ticket < r'.book.arrivals == |r'.cancelled| && ticket < |r.cancelled|
            && Unnamed(r'.book.index, ticket) && r'.cancelled[ticket] == r.cancelled[ticket]
  {
    hide WellFormed, Numbered, TradesBelow, Next, Unnamed;
    EveryRun(h, market, cs);
    if more == [] {
      assert cs + more == cs;
    } else {
      var init, last := more[..|more| - 1], more[|more| - 1];
      var all := cs + more;
      assert all[..|all| - 1] == cs + init && all[|all| - 1] == last;
      assert After(h, market, all) == Next(h, market, After(h, market, cs + init), last);
      NeverCancelled(h, market, cs, init, ticket);
      hide After;
      UnnamedStays(h, market, After(h, market, cs + init), last, ticket);
      EveryRun(h, market, all);
    }
  }

  /** Whatever a bucket names can be cancelled, by the id of the order it names. */
  lemma NamedIsCancelled(h: Hash, market: Uuid, r: Run, k: nat) returns (id: Uuid)
    requires WellFormed(h, r.book) && |r.cancelled| == r.book.arrivals && k in r.book.index
    ensures var t := r.book.index[k].ticket;
            t < |r.cancelled| && t < |Next(h, market, r, Withdraw(id)).cancelled|
            && Next(h, market, r, Withdraw(id)).cancelled[t] > r.cancelled[t]
  {
    hide WellFormed, Next, Removed, Cancel;
    id := IdNamed(h, r.book, k);
    var i, j := TargetFound(h, r.book, id);
    var o := OrderAt(r.book.sides, r.book.index[k].side, i, j);
    TargetNamed(h, r.book, id, o);
    PositiveOrder(h, r.book, r.book.index[k].side, i, j);
    NextCancels(h, market, r, id, o);
  }

  lemma TargetNamed(h: Hash, b: Book, id: Uuid, o: Order)
    requires Target(h, b, id) == Some(o)
    ensures Bucket(h, id) in b.index && o.ticket == b.index[Bucket(h, id)].ticket
  {
  }

  lemma PositiveOrder(h: Hash, b: Book, sd: Side, i: nat, j: nat)
    requires WellFormed(h, b) && Rests(b.sides, sd, i, j)
    ensures OrderAt(b.sides, sd, i, j).remaining > 0
  {
    WellFormedSide(h, b, sd);
  }

  lemma NextCancels(h: Hash, market: Uuid, r: Run, id: Uuid, o: Order)
    requires Target(h, r.book, id) == Some(o) && o.ticket < |r.cancelled|
    ensures Next(h, market, r, Withdraw(id)).cancelled == r.cancelled[o.ticket := r.cancelled[o.ticket] + o.remaining]
  {
    hide Target, Apply;
  }

  lemma IdNamed(h: Hash, b: Book, k: nat) returns (id: Uuid)
    requires WellFormed(h, b) && k in b.index
    ensures Bucket(h, id) == k && CanCancel(h, b, id)
  {
    var r := b.index[k];
    var levels := b.sides.Get(r.side);
    var i, j :| 0 <= i < |levels| && 0 <= j < |levels[i].orders| && levels[i].price == r.price
                && levels[i].orders[j].ticket == r.ticket && Bucket(h, levels[i].orders[j].id) == k;
    id := levels[i].orders[j].id;
  }

  ghost predicate CancelledLater(h: Hash, market: Uuid, cs: seq<Command>, more: seq<Command>, ticket: nat) {
    var before, after := After(h, market, cs).cancelled, After(h, market, cs + more).cancelled;
    ticket < |before| && ticket < |after| && after[ticket] > before[ticket]
  }

  /** In any run, collisions or not: an order can be cancelled at some later time exactly if a bucket names it now. */
  lemma CancellableExactly(h: Hash, market: Uuid, cs: seq<Command>, ticket: nat)
    requires ticket < After(h, market, cs).book.arrivals
    ensures (exists more :: CancelledLater(h, market, cs, more, ticket)) <==>
              !Unnamed(After(h, market, cs).book.index, ticket)
  {
    hide WellFormed, Numbered, TradesBelow, Next;
    var r := After(h, market, cs);
    EveryRun(h, market, cs);
    if Unnamed(r.book.index, ticket) {
      forall more ensures !CancelledLater(h, market, cs, more, ticket) {
        hide After, Unnamed, Balanced;
        NeverCancelled(h, market, cs, more, ticket);
      }
    } else {
      var k :| k in r.book.index && r.book.index[k].ticket == ticket;
      var id := NamedIsCancelled(h, market, r, k);
      var all := cs + [Withdraw(id)];
      assert all[..|all| - 1] == cs;
      assert CancelledLater(h, market, cs, [Withdraw(id)], ticket);
    }
  }

  // ----- how an order loses its bucket

  /** Different buckets name different orders, which have arrived. */
  ghost predicate TicketsApart(b: Book) {
    && (forall k :: k in b.index ==> b.index[k].ticket < b.arrivals)
    && (forall j, k :: j in b.index && k in b.index && j != k ==> b.index[j].ticket != b.index[k].ticket)
  }

  lemma {:induction false} RunTicketsApart(h: Hash, market: Uuid, cs: seq<Command>)
    ensures TicketsApart(After(h, market, cs).book)
  {
    if cs != [] {
      var r := After(h, market, cs[..|cs| - 1]);
      RunTicketsApart(h, market, cs[..|cs| - 1]);
      ApplyNames(h, market, r.book, cs[|cs| - 1]);
      hide After, Next, Apply;
      assert After(h, market, cs) == Next(h, market, r, cs[|cs| - 1]) by { LastCommand(h, market, cs); }
      NextBook(h, market, r, cs[|cs| - 1]);
    }
  }

  lemma LastCommand(h: Hash, market: Uuid, cs: seq<Command>)
    requires cs != []
    ensures After(h, market, cs) == Next(h, market, After(h, market, cs[..|cs| - 1]), cs[|cs| - 1])
  {
  }

  /** A limit order that comes to rest on a bucket in use takes it over, and the order named there before can never
      be cancelled again, by any commands. */
  lemma CollisionStrands(h: Hash, market: Uuid, cs: seq<Command>, c: Command, more: seq<Command>)
    requires c.Limit? && Accepted(c)
    requires var m := Matched(h, market, After(h, market, cs).book, c);
             m.rem > 0 && Live(m.book.sides) < MAX_ORDERS && Bucket(h, c.id) in m.book.index
    ensures var old_ := Matched(h, market, After(h, market, cs).book, c).book.index[Bucket(h, c.id)].ticket;
            !CancelledLater(h, market, cs + [c], more, old_)
  {
    var r := After(h, market, cs);
    var m := Matched(h, market, r.book, c);
    var k := Bucket(h, c.id);
    RunTicketsApart(h, market, cs);
    MatchingClears(h, TakerOf(market, r.book, c), MatchState(Arrive(r.book, c.sequence), c.quantity, []));
    MatchFrame(h, TakerOf(market, r.book, c), MatchState(Arrive(r.book, c.sequence), c.quantity, []));
    var b' := Apply(h, market, r.book, c).book;
    assert b'.index == m.book.index[k := Ref(c.side, c.price, r.book.arrivals)];
    assert b'.arrivals == r.book.arrivals + 1;
    var ticket := m.book.index[k].ticket;
    assert ticket == r.book.index[k].ticket < r.book.arrivals;
    assert Unnamed(b'.index, ticket);
    var all := cs + [c];
    assert all[..|all| - 1] == cs;
    LastCommand(h, market, all);
    NextBook(h, market, r, c);
    hide After, Next, Apply, Matched, Unnamed;
    NeverCancelled(h, market, all, more, ticket);
  }
}
