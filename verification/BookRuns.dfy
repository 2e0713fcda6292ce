/** Whole runs of a book: any sequence of limit orders, market orders and cancels from the
    empty book, with the account of every accepted order kept beside it. */
module BookRuns {
  import opened Types
  import opened BookSpec
  import opened BookSafety
  import opened CancelIndex

  datatype Command =
    | Limit(id: Uuid, user: Uuid, side: Side, price: u32, quantity: u64, sequence: u64)
    | Market(id: Uuid, user: Uuid, side: Side, quantity: u64, sequence: u64)
    | Withdraw(id: Uuid)

  /** A book, its fills so far, and for each ticket what was ordered, cancelled and thrown away. */
  datatype Run = Run(book: Book, trades: seq<Trade>, ordered: seq<nat>, cancelled: seq<nat>, discarded: seq<nat>)

  const Start: Run := Run(EmptyBook, [], [], [], [])

  // ----- accounts

  function AsTaker(trades: seq<Trade>, ticket: nat): nat {
    if trades == [] then 0
    else
      var last := trades[|trades| - 1];
      AsTaker(trades[..|trades| - 1], ticket) + if last.taker == ticket then last.fill.quantity else 0
  }

  function AsMaker(trades: seq<Trade>, ticket: nat): nat {
    if trades == [] then 0
    else
      var last := trades[|trades| - 1];
      AsMaker(trades[..|trades| - 1], ticket) + if last.maker == ticket then last.fill.quantity else 0
  }

  function QueueQty(q: seq<Order>, ticket: nat): nat {
    if q == [] then 0 else (if q[0].ticket == ticket then q[0].remaining else 0) + QueueQty(q[1..], ticket)
  }

  function SideQty(levels: seq<Level>, ticket: nat): nat {
    if levels == [] then 0 else QueueQty(levels[0].orders, ticket) + SideQty(levels[1..], ticket)
  }

  function RestingQty(s: Sides, ticket: nat): nat {
    SideQty(s.bids, ticket) + SideQty(s.asks, ticket)
  }

  // ----- one command

  function Apply(h: Hash, market: Uuid, b: Book, c: Command): Outcome {
    match c
    case Limit(id, user, sd, price, quantity, sequence) =>
      AddLimit(h, market, b, id, user, sd, price, quantity, sequence)
    case Market(id, user, sd, quantity, sequence) => AddMarket(h, market, b, id, user, sd, quantity, sequence)
    case Withdraw(id) => Outcome(Cancel(h, b, id), [])
  }

  predicate Accepted(c: Command) {
    match c
    case Limit(_, _, _, price, quantity, _) => 0 < price < MAX_PRICE && quantity > 0
    case Market(_, _, _, quantity, _) => quantity > 0
    case Withdraw(_) => false
  }

  function TakerOf(market: Uuid, b: Book, c: Command): Taker
    requires !c.Withdraw?
  {
    Taker(market, b.arrivals, c.id, c.user, c.side, if c.Limit? then c.price else 0, c.Market?)
  }

  function Matched(h: Hash, market: Uuid, b: Book, c: Command): MatchState
    requires !c.Withdraw?
  {
    MatchFrom(h, TakerOf(market, b, c), MatchState(Arrive(b, c.sequence), c.quantity, []))
  }

  /** The order that cancelling by id takes out. */
  function Target(h: Hash, b: Book, id: Uuid): Option<Order> {
    var k := Bucket(h, id);
    if k !in b.index then None
    else
      var r := b.index[k];
      var levels := b.sides.Get(r.side);
      var i := Position(r.side, levels, r.price);
      if i == |levels| then None
      else
        var j := TicketPosition(levels[i].orders, r.ticket);
        if j == |levels[i].orders| then None else Some(levels[i].orders[j])
  }

  function Next(h: Hash, market: Uuid, r: Run, c: Command): Run {
    var out := Apply(h, market, r.book, c);
    if Accepted(c) then
      var m := Matched(h, market, r.book, c);
      var rests := c.Limit? && Live(m.book.sides) < MAX_ORDERS;
      Run(out.book, r.trades + out.trades, r.ordered + [c.quantity], r.cancelled + [0],
          r.discarded + [if rests then 0 else m.rem])
    else if c.Withdraw? then
      var target := Target(h, r.book, c.id);
      if target.None? || target.value.ticket >= |r.cancelled| then r.(book := out.book)
      else
        var t := target.value.ticket;
        r.(book := out.book, cancelled := r.cancelled[t := r.cancelled[t] + target.value.remaining])
    else r.(book := out.book)
  }

  function After(h: Hash, market: Uuid, cs: seq<Command>): Run {
    if cs == [] then Start else Next(h, market, After(h, market, cs[..|cs| - 1]), cs[|cs| - 1])
  }

  // ----- invariants of a run

  /** Every unit ordered is accounted for. */
  ghost predicate Balanced(r: Run) {
    && |r.ordered| == |r.cancelled| == |r.discarded| == r.book.arrivals
    && forall t :: 0 <= t < r.book.arrivals ==>
         r.ordered[t] == AsTaker(r.trades, t) + AsMaker(r.trades, t) + RestingQty(r.book.sides, t)
                         + r.cancelled[t] + r.discarded[t]
  }

  ghost predicate TradesBelow(trades: seq<Trade>, n: nat) {
    forall k :: 0 <= k < |trades| ==> trades[k].maker < n && trades[k].taker < n
  }

  /** Fills are positive and numbered 1, 2, 3, ... (as 64-bit numbers). */
  ghost predicate Numbered(trades: seq<Trade>, count: nat) {
    && |trades| == count
    && forall k :: 0 <= k < count ==> trades[k].fill.quantity > 0 && trades[k].fill.sequence == (k + 1) % TWO64
  }

  // ----- sums

  lemma AddTrade(trades: seq<Trade>, x: Trade, u: nat)
    ensures AsTaker(trades + [x], u) == AsTaker(trades, u) + if x.taker == u then x.fill.quantity else 0
    ensures AsMaker(trades + [x], u) == AsMaker(trades, u) + if x.maker == u then x.fill.quantity else 0
  {
    assert (trades + [x])[..|trades|] == trades;
  }

  lemma {:induction false} NoTrades(trades: seq<Trade>, u: nat)
    requires TradesBelow(trades, u)
    ensures AsTaker(trades, u) == AsMaker(trades, u) == 0
  {
    if trades != [] {
      NoTrades(trades[..|trades| - 1], u);
    }
  }

  lemma {:induction false} QueueUpdated(q: seq<Order>, j: nat, v: u64, u: nat)
    requires j < |q|
    ensures QueueQty(q[j := q[j].(remaining := v)], u)
            == QueueQty(q, u) - (if q[j].ticket == u then q[j].remaining else 0) + (if q[j].ticket == u then v else 0)
  {
    if j > 0 {
      var q' := q[j := q[j].(remaining := v)];
      assert q'[1..] == q[1..][j - 1 := q[j].(remaining := v)];
      QueueUpdated(q[1..], j - 1, v, u);
    }
  }

  lemma {:induction false} QueueWithout(q: seq<Order>, j: nat, u: nat)
    requires j < |q|
    ensures QueueQty(Without(q, j), u) == QueueQty(q, u) - (if q[j].ticket == u then q[j].remaining else 0)
  {
    var q' := Without(q, j);
    if j == 0 {
      assert q' == q[1..];
    } else {
      assert q'[0] == q[0] && q'[1..] == Without(q[1..], j - 1);
      QueueWithout(q[1..], j - 1, u);
    }
  }

  lemma {:induction false} QueueAppend(q: seq<Order>, o: Order, u: nat)
    ensures QueueQty(q + [o], u) == QueueQty(q, u) + if o.ticket == u then o.remaining else 0
  {
    if q != [] {
      assert (q + [o])[1..] == q[1..] + [o];
      QueueAppend(q[1..], o, u);
    }
  }

  lemma {:induction false} SideReplaced(levels: seq<Level>, i: nat, lv: Level, u: nat)
    requires i < |levels|
    ensures SideQty(levels[i := lv], u) == SideQty(levels, u) - QueueQty(levels[i].orders, u) + QueueQty(lv.orders, u)
    ensures QueueQty(levels[i].orders, u) <= SideQty(levels, u)
  {
    if i > 0 {
      assert levels[i := lv][1..] == levels[1..][i - 1 := lv];
      SideReplaced(levels[1..], i - 1, lv, u);
    }
  }

  lemma {:induction false} SideInserted(levels: seq<Level>, i: nat, p: u32, u: nat)
    requires i <= |levels|
    ensures SideQty(Inserted(levels, i, Level(p, [])), u) == SideQty(levels, u)
  {
    var levels' := Inserted(levels, i, Level(p, []));
    if i == 0 {
      assert levels'[1..] == levels;
    } else {
      InsertedIndex(levels, i, Level(p, []));
      assert levels'[0] == levels[0] && levels'[1..] == Inserted(levels[1..], i - 1, Level(p, []));
      SideInserted(levels[1..], i - 1, p, u);
    }
  }

  lemma {:induction false} SideWithout(levels: seq<Level>, i: nat, u: nat)
    requires i < |levels|
    ensures SideQty(Without(levels, i), u) == SideQty(levels, u) - QueueQty(levels[i].orders, u)
  {
    var levels' := Without(levels, i);
    if i == 0 {
      assert levels' == levels[1..];
    } else {
      assert levels'[0] == levels[0] && levels'[1..] == Without(levels[1..], i - 1);
      SideWithout(levels[1..], i - 1, u);
    }
  }

  lemma {:induction false} NoneResting(levels: seq<Level>, u: nat)
    requires Older(levels, u)
    ensures SideQty(levels, u) == 0
  {
    if levels != [] {
      assert OlderQueue(levels[0].orders, u);
      NoneQueued(levels[0].orders, u);
      forall i | 0 <= i < |levels| - 1 ensures OlderQueue(levels[1..][i].orders, u) {
        assert OlderQueue(levels[i + 1].orders, u);
      }
      NoneResting(levels[1..], u);
    }
  }

  lemma {:induction false} NoneQueued(q: seq<Order>, u: nat)
    requires OlderQueue(q, u)
    ensures QueueQty(q, u) == 0
  {
    if q != [] {
      NoneQueued(q[1..], u);
    }
  }

  // ----- matching moves quantity, it does not make or lose any

  /** What ticket u has sold and still has resting, and what it has bought and may still buy. */
  function Sold(t: Taker, m: MatchState, u: nat): nat {
    AsMaker(m.trades, u) + SideQty(RestingSide(t, m), u)
  }

  function Bought(t: Taker, m: MatchState, u: nat): nat {
    AsTaker(m.trades, u) + if u == t.ticket then m.rem else 0
  }

  lemma FrontQty(levels: seq<Level>, qty: u64, u: nat)
    requires levels != [] && levels[0].orders != [] && qty <= levels[0].orders[0].remaining
    ensures SideQty(levels[0 := levels[0].(orders := FrontTraded(levels[0].orders, qty))], u)
            + (if levels[0].orders[0].ticket == u then qty else 0) == SideQty(levels, u)
  {
    var q := levels[0].orders;
    SideReplaced(levels, 0, levels[0].(orders := FrontTraded(q, qty)), u);
    if q[0].remaining != qty {
      QueueUpdated(q, 0, q[0].remaining - qty, u);
    }
  }

  lemma FillFrontConserves(h: Hash, t: Taker, m: MatchState, u: nat)
    requires RestingSide(t, m) != [] && RestingSide(t, m)[0].orders != []
    ensures Sold(t, FillFront(h, t, m), u) == Sold(t, m, u)
    ensures Bought(t, FillFront(h, t, m), u) == Bought(t, m, u)
  {
    var levels := RestingSide(t, m);
    var maker := levels[0].orders[0];
    var qty: u64 := Min(m.rem, maker.remaining);
    FrontQty(levels, qty, u);
    AddTrade(m.trades, Trade(maker.ticket, t.ticket, FillOf(t, levels[0].price, maker, qty, m.book.fillCount + 1)), u);
  }

  lemma {:induction false} MatchConserves(h: Hash, t: Taker, m: MatchState, u: nat)
    ensures Sold(t, MatchFrom(h, t, m), u) == Sold(t, m, u)
    ensures Bought(t, MatchFrom(h, t, m), u) == Bought(t, m, u)
    decreases |RestingSide(t, m)| + OrderCount(RestingSide(t, m)), m.rem
  {
    var levels := RestingSide(t, m);
    if levels == [] {
    } else if levels[0].orders == [] {
      MatchConserves(h, t, DropFront(t, m), u);
    } else if m.rem == 0 || !Crosses(t, levels[0].price) {
    } else {
      FillFrontConserves(h, t, m, u);
      MatchConserves(h, t, FillFront(h, t, m), u);
    }
  }

  /** New fills continue the numbering, are positive, and are between tickets below n. */
  lemma {:induction false} MatchNumbers(h: Hash, t: Taker, m: MatchState, n: nat)
    requires Matching(h, t, m, t.ticket) && t.ticket < n
    requires Numbered(m.trades, m.book.fillCount) && TradesBelow(m.trades, n)
    ensures var m' := MatchFrom(h, t, m);
            Numbered(m'.trades, m'.book.fillCount) && TradesBelow(m'.trades, n)
    decreases |RestingSide(t, m)| + OrderCount(RestingSide(t, m)), m.rem
  {
    var levels := RestingSide(t, m);
    if levels == [] {
    } else if levels[0].orders == [] {
      hide Matching, Numbered, TradesBelow;
      DropFrontKeeps(h, t, m, t.ticket);
      MatchNumbers(h, t, DropFront(t, m), n);
    } else if m.rem == 0 || !Crosses(t, levels[0].price) {
    } else {
      FillNumbers(h, t, m, n);
      hide Matching, Numbered, TradesBelow;
      FillFrontKeeps(h, t, m, t.ticket);
      MatchNumbers(h, t, FillFront(h, t, m), n);
    }
  }

  lemma FillNumbers(h: Hash, t: Taker, m: MatchState, n: nat)
    requires Matching(h, t, m, t.ticket) && t.ticket < n && m.rem > 0
    requires RestingSide(t, m) != [] && RestingSide(t, m)[0].orders != []
    requires Numbered(m.trades, m.book.fillCount) && TradesBelow(m.trades, n)
    ensures var m1 := FillFront(h, t, m);
            Numbered(m1.trades, m1.book.fillCount) && TradesBelow(m1.trades, n)
  {
    var levels := RestingSide(t, m);
    var maker := levels[0].orders[0];
    assert maker.remaining > 0;
    assert OlderQueue(levels[0].orders, t.ticket);
    assert maker.ticket < t.ticket;
  }

  // ----- one command keeps the accounts

  /** Between arrival and resting: everything but the taker's remainder is accounted for. */
  lemma MatchedQty(h: Hash, market: Uuid, r: Run, c: Command, u: nat)
    requires WellFormed(h, r.book) && Accepted(c) && TradesBelow(r.trades, r.book.arrivals)
    ensures var m := Matched(h, market, r.book, c);
            var trades := r.trades + m.trades;
            && AsTaker(trades, u) + AsMaker(trades, u) + RestingQty(m.book.sides, u)
               + (if u == r.book.arrivals then m.rem else 0)
               == AsTaker(r.trades, u) + AsMaker(r.trades, u) + RestingQty(r.book.sides, u)
                  + (if u == r.book.arrivals then c.quantity else 0)
  {
    hide WellFormed, AsTaker, AsMaker, SideQty, TradesBelow, MatchFrom;
    var t := TakerOf(market, r.book, c);
    var m0 := MatchState(Arrive(r.book, c.sequence), c.quantity, []);
    var m1 := m0.(trades := r.trades);
    MatchPrefix(h, t, m0, r.trades);
    assert r.trades + m0.trades == r.trades;
    MatchConserves(h, t, m1, u);
    MatchFrame(h, t, m0);
    var m := MatchFrom(h, t, m0);
    assert MatchFrom(h, t, m1) == m.(trades := r.trades + m.trades);
    assert RestingQty(m.book.sides, u) == SideQty(RestingSide(t, m), u) + SideQty(r.book.sides.Get(t.side), u);
    assert RestingQty(r.book.sides, u) == SideQty(RestingSide(t, m1), u) + SideQty(r.book.sides.Get(t.side), u);
  }

  lemma RestedQty(s: Sides, sd: Side, p: u32, o: Order, u: nat)
    ensures RestingQty(s.Set(sd, Rested(sd, s.Get(sd), p, o)), u)
            == RestingQty(s, u) + if o.ticket == u then o.remaining else 0
  {
    var levels := s.Get(sd);
    var i, with := Position(sd, levels, p), WithLevel(sd, levels, p);
    InsertedIndex(levels, i, Level(p, []));
    SideInserted(levels, i, p, u);
    SideReplaced(with, i, Append(with, i, o)[i], u);
    QueueAppend(with[i].orders, o, u);
  }

  lemma RemovedQty(levels: seq<Level>, i: nat, j: nat, u: nat)
    requires i < |levels| && j < |levels[i].orders|
    ensures var o := levels[i].orders[j];
            && SideQty(Removed(levels, i, j), u) == SideQty(levels, u) - (if o.ticket == u then o.remaining else 0)
            && (o.ticket == u ==> o.remaining <= SideQty(levels, u))
  {
    var q := levels[i].orders;
    var q' := Without(q, j);
    QueueWithout(q, j, u);
    SideReplaced(levels, i, levels[i].(orders := q'), u);
    SideWithout(levels, i, u);
    if q' == [] {
      assert QueueQty(q', u) == 0;
    }
  }

  lemma NewTicketEmpty(h: Hash, r: Run)
    requires WellFormed(h, r.book) && TradesBelow(r.trades, r.book.arrivals)
    ensures AsTaker(r.trades, r.book.arrivals) == AsMaker(r.trades, r.book.arrivals) == 0
    ensures RestingQty(r.book.sides, r.book.arrivals) == 0
  {
    NoTrades(r.trades, r.book.arrivals);
    NoneResting(r.book.sides.bids, r.book.arrivals);
    NoneResting(r.book.sides.asks, r.book.arrivals);
  }

  /** What an accepted order's remainder becomes: it rests, or it is discarded. */
  lemma AcceptedQty(h: Hash, market: Uuid, r: Run, c: Command, u: nat)
    requires WellFormed(h, r.book) && Accepted(c)
    ensures var m := Matched(h, market, r.book, c);
            var r' := Next(h, market, r, c);
            && r'.trades == r.trades + m.trades && r'.book.arrivals == r.book.arrivals + 1
            && RestingQty(r'.book.sides, u) + (if u == r.book.arrivals then r'.discarded[|r.discarded|] else 0)
               == RestingQty(m.book.sides, u) + (if u == r.book.arrivals then m.rem else 0)
  {
    var m := Matched(h, market, r.book, c);
    AcceptedIs(h, market, r, c, m);
    hide WellFormed, Matched, Next, RestingQty, Rested;
    if c.Limit? && m.rem > 0 && Live(m.book.sides) < MAX_ORDERS {
      RestedQty(m.book.sides, c.side, c.price, Order(r.book.arrivals, c.id, c.user, c.quantity, m.rem, c.sequence), u);
    }
  }

  lemma AcceptedIs(h: Hash, market: Uuid, r: Run, c: Command, m: MatchState)
    requires Accepted(c) && m == Matched(h, market, r.book, c)
    ensures var r' := Next(h, market, r, c);
            var rests := c.Limit? && Live(m.book.sides) < MAX_ORDERS;
            && r'.trades == r.trades + m.trades && r'.book.arrivals == r.book.arrivals + 1
            && r'.discarded == r.discarded + [if rests then 0 else m.rem]
            && r'.book.sides == if rests && m.rem > 0 then
                 m.book.sides.Set(c.side, Rested(c.side, m.book.sides.Get(c.side), c.price,
                                                 Order(r.book.arrivals, c.id, c.user, c.quantity, m.rem, c.sequence)))
               else m.book.sides
  {
    MatchFrame(h, TakerOf(market, r.book, c), MatchState(Arrive(r.book, c.sequence), c.quantity, []));
    hide MatchFrom, Rested, OrderCount;
  }

  lemma AcceptedBalanced(h: Hash, market: Uuid, r: Run, c: Command)
    requires WellFormed(h, r.book) && Balanced(r) && TradesBelow(r.trades, r.book.arrivals) && Accepted(c)
    ensures Balanced(Next(h, market, r, c))
  {
    var r' := Next(h, market, r, c);
    var n := r.book.arrivals;
    AcceptedQty(h, market, r, c, 0);
    forall u | 0 <= u < r'.book.arrivals
      ensures r'.ordered[u] == AsTaker(r'.trades, u) + AsMaker(r'.trades, u) + RestingQty(r'.book.sides, u)
                               + r'.cancelled[u] + r'.discarded[u]
    {
      hide WellFormed, TradesBelow, Matched, Next, Apply, AsTaker, AsMaker, RestingQty;
      MatchedQty(h, market, r, c, u);
      AcceptedQty(h, market, r, c, u);
      AcceptedLists(h, market, r, c);
      if u == n { NewTicketEmpty(h, r); }
    }
  }

  lemma AcceptedLists(h: Hash, market: Uuid, r: Run, c: Command)
    requires Accepted(c)
    ensures var r' := Next(h, market, r, c);
            && r'.ordered == r.ordered + [c.quantity] && r'.cancelled == r.cancelled + [0]
            && |r'.discarded| == |r.discarded| + 1 && r'.discarded[..|r.discarded|] == r.discarded
  {
  }

  lemma TargetFound(h: Hash, b: Book, id: Uuid) returns (i: nat, j: nat)
    requires WellFormed(h, b) && CanCancel(h, b, id)
    ensures var sd := b.index[Bucket(h, id)].side;
            && Rests(b.sides, sd, i, j) && Target(h, b, id) == Some(OrderAt(b.sides, sd, i, j))
            && Cancel(h, b, id) == b.(sides := b.sides.Set(sd, Removed(b.sides.Get(sd), i, j)),
                                      index := b.index - {Bucket(h, id)})
            && OrderAt(b.sides, sd, i, j).ticket < b.arrivals
  {
    var sd := b.index[Bucket(h, id)].side;
    i, j := CancelPosition(h, b, id);
    WellFormedSide(h, b, sd);
    assert OlderQueue(b.sides.Get(sd)[i].orders, b.arrivals);
  }

  lemma CancelledQty(h: Hash, market: Uuid, r: Run, c: Command, sd: Side, i: nat, j: nat, u: nat)
    requires c.Withdraw? && CanCancel(h, r.book, c.id) && sd == r.book.index[Bucket(h, c.id)].side
    requires Rests(r.book.sides, sd, i, j) && Target(h, r.book, c.id) == Some(OrderAt(r.book.sides, sd, i, j))
    requires Cancel(h, r.book, c.id).sides == r.book.sides.Set(sd, Removed(r.book.sides.Get(sd), i, j))
    requires u < |r.cancelled| && OrderAt(r.book.sides, sd, i, j).ticket < |r.cancelled|
    ensures var r' := Next(h, market, r, c);
            && r'.ordered == r.ordered && r'.discarded == r.discarded && r'.trades == r.trades
            && |r'.cancelled| == |r.cancelled|
            && RestingQty(r'.book.sides, u) + r'.cancelled[u] == RestingQty(r.book.sides, u) + r.cancelled[u]
  {
    RemovedQty(r.book.sides.Get(sd), i, j, u);
    hide Removed, SideQty, Bucket;
  }

  lemma CancelBalanced(h: Hash, market: Uuid, r: Run, c: Command)
    requires WellFormed(h, r.book) && Balanced(r) && c.Withdraw?
    ensures Balanced(Next(h, market, r, c))
  {
    if CanCancel(h, r.book, c.id) {
      var i, j := TargetFound(h, r.book, c.id);
      var sd := r.book.index[Bucket(h, c.id)].side;
      hide WellFormed, Apply, RestingQty, AsTaker, AsMaker, CanCancel;
      var r' := Next(h, market, r, c);
      CancelledQty(h, market, r, c, sd, i, j, OrderAt(r.book.sides, sd, i, j).ticket);
      NextBook(h, market, r, c);
      assert r'.book.arrivals == r.book.arrivals by {
        assert Apply(h, market, r.book, c).book == Cancel(h, r.book, c.id) by { CancelApplied(h, market, r.book, c); }
      }
      forall u | 0 <= u < r'.book.arrivals
        ensures r'.ordered[u] == AsTaker(r'.trades, u) + AsMaker(r'.trades, u) + RestingQty(r'.book.sides, u)
                                 + r'.cancelled[u] + r'.discarded[u]
      {
        CancelledQty(h, market, r, c, sd, i, j, u);
      }
    }
  }

  lemma CancelApplied(h: Hash, market: Uuid, b: Book, c: Command)
    requires c.Withdraw?
    ensures Apply(h, market, b, c).book == Cancel(h, b, c.id)
  {
  }

  lemma NextNumbered(h: Hash, market: Uuid, r: Run, c: Command)
    requires WellFormed(h, r.book) && Numbered(r.trades, r.book.fillCount) && TradesBelow(r.trades, r.book.arrivals)
    ensures var r' := Next(h, market, r, c);
            Numbered(r'.trades, r'.book.fillCount) && TradesBelow(r'.trades, r'.book.arrivals)
  {
    if Accepted(c) {
      var t := TakerOf(market, r.book, c);
      var m0 := MatchState(Arrive(r.book, c.sequence), c.quantity, []);
      var m1 := m0.(trades := r.trades);
      WellFormedSide(h, r.book, t.side.Opposite());
      assert Matching(h, t, m1, t.ticket);
      MatchPrefix(h, t, m0, r.trades);
      assert r.trades + m0.trades == r.trades;
      MatchNumbers(h, t, m1, r.book.arrivals + 1);
      MatchFrame(h, t, m0);
      hide MatchFrom, Matching, Numbered, TradesBelow, WellFormed, Arrived;
    } else if c.Withdraw? && CanCancel(h, r.book, c.id) {
      var i, j := TargetFound(h, r.book, c.id);
    }
  }

  lemma ApplyKeeps(h: Hash, market: Uuid, b: Book, c: Command)
    requires WellFormed(h, b)
    ensures WellFormed(h, Apply(h, market, b, c).book)
  {
    match c
    case Limit(id, user, sd, price, quantity, sequence) =>
      AddLimitKeeps(h, market, b, id, user, sd, price, quantity, sequence);
    case Market(id, user, sd, quantity, sequence) => AddMarketKeeps(h, market, b, id, user, sd, quantity, sequence);
    case Withdraw(id) => CancelKeeps(h, b, id);
  }

  lemma EmptyWellFormed(h: Hash)
    ensures WellFormed(h, EmptyBook) && Indexed(h, EmptyBook)
  {
  }

  // ----- main results, over every run

  /** In every run the book stays well formed, every unit of every accepted order is accounted for, and fills are
      positive and numbered without gaps. */
  lemma {:induction false} EveryRun(h: Hash, market: Uuid, cs: seq<Command>)
    ensures var r := After(h, market, cs);
            && WellFormed(h, r.book) && Balanced(r)
            && Numbered(r.trades, r.book.fillCount) && TradesBelow(r.trades, r.book.arrivals)
  {
    hide WellFormed, Balanced, Numbered, TradesBelow, Next;
    if cs == [] {
      NothingYet(h);
    } else {
      var rest, last := cs[..|cs| - 1], cs[|cs| - 1];
      assert After(h, market, cs) == Next(h, market, After(h, market, rest), last);
      hide After;
      EveryRun(h, market, rest);
      NextSound(h, market, After(h, market, rest), last);
    }
  }

  lemma NothingYet(h: Hash)
    ensures WellFormed(h, Start.book) && Balanced(Start)
    ensures Numbered(Start.trades, Start.book.fillCount) && TradesBelow(Start.trades, Start.book.arrivals)
  {
    EmptyWellFormed(h);
  }

  lemma NextSound(h: Hash, market: Uuid, r: Run, c: Command)
    requires WellFormed(h, r.book) && Balanced(r)
    requires Numbered(r.trades, r.book.fillCount) && TradesBelow(r.trades, r.book.arrivals)
    ensures var r' := Next(h, market, r, c);
            && WellFormed(h, r'.book) && Balanced(r')
            && Numbered(r'.trades, r'.book.fillCount) && TradesBelow(r'.trades, r'.book.arrivals)
  {
    hide WellFormed, Balanced, Numbered, TradesBelow, Next, Apply;
    NextBook(h, market, r, c);
    ApplyKeeps(h, market, r.book, c);
    NextNumbered(h, market, r, c);
    if Accepted(c) { AcceptedBalanced(h, market, r, c); }
    else if c.Withdraw? { CancelBalanced(h, market, r, c); }
    else { RejectedSame(h, market, r, c); }
  }

  lemma NextBook(h: Hash, market: Uuid, r: Run, c: Command)
    ensures Next(h, market, r, c).book == Apply(h, market, r.book, c).book
  {
  }

  lemma RejectedSame(h: Hash, market: Uuid, r: Run, c: Command)
    requires !Accepted(c) && !c.Withdraw?
    ensures Next(h, market, r, c) == r
  {
  }
}
