/** The limit order book as a pure value: two lists of price levels, best price first,
    each level a first-in-first-out queue of resting orders.

    Every accepted order gets a ticket, its arrival number. Tickets do not exist in the
    engine; they give each order an identity that survives equal or colliding order ids. */
module BookSpec {
  import opened Types

  const MAX_ORDERS: nat := 131072
  const MAX_LEVELS: nat := 16384
  const MAX_PRICE: nat := 10000

  type Hash = Uuid -> nat

  datatype Order = Order(ticket: nat, id: Uuid, user: Uuid, quantity: u64, remaining: u64, sequence: u64)

  datatype Level = Level(price: u32, orders: seq<Order>)

  datatype Sides = Sides(bids: seq<Level>, asks: seq<Level>) {
    function Get(sd: Side): seq<Level> {
      if sd.Buy? then bids else asks
    }

    function Set(sd: Side, levels: seq<Level>): Sides {
      if sd.Buy? then this.(bids := levels) else this.(asks := levels)
    }
  }

  /** What a cancel-index bucket names. */
  datatype Ref = Ref(side: Side, price: u32, ticket: nat)

  datatype Book = Book(sides: Sides, index: map<nat, Ref>, arrivals: nat, sequence: u64, fillCount: nat)

  const EmptyBook: Book := Book(Sides([], []), map[], 0, 0, 0)

  /** A fill as published, without its random id and its clock reading. */
  datatype Fill = Fill(market: Uuid, makerOrder: Uuid, takerOrder: Uuid, makerUser: Uuid, takerUser: Uuid,
                       quantity: u64, sequence: u64, price: u32, aggressor: Side)

  /** A fill together with the tickets of the two orders it is between. */
  datatype Trade = Trade(maker: nat, taker: nat, fill: Fill)

  datatype Taker = Taker(market: Uuid, ticket: nat, id: Uuid, user: Uuid, side: Side, limit: u32, isMarket: bool)

  datatype MatchState = MatchState(book: Book, rem: u64, trades: seq<Trade>)

  datatype Outcome = Outcome(book: Book, trades: seq<Trade>)

  function Bucket(h: Hash, id: Uuid): nat {
    h(id) % MAX_ORDERS
  }

  /** Price p stands before price q on side sd. */
  predicate Better(sd: Side, p: int, q: int) {
    if sd.Buy? then p > q else p < q
  }

  predicate Crosses(t: Taker, price: int) {
    t.isMarket || if t.side.Buy? then t.limit >= price else t.limit <= price
  }

  function OrderCount(levels: seq<Level>): nat {
    if levels == [] then 0 else |levels[0].orders| + OrderCount(levels[1..])
  }

  function Live(s: Sides): nat {
    OrderCount(s.bids) + OrderCount(s.asks)
  }

  function Total(q: seq<Order>): nat {
    if q == [] then 0 else q[0].remaining + Total(q[1..])
  }

  // ----- order within a book

  ghost predicate Fifo(q: seq<Order>) {
    forall j, k :: 0 <= j < k < |q| ==> q[j].ticket < q[k].ticket
  }

  ghost predicate Sorted(sd: Side, levels: seq<Level>) {
    && (forall i :: 0 <= i < |levels| ==> 0 < levels[i].price < MAX_PRICE)
    && (forall i, k :: 0 <= i < k < |levels| ==> Better(sd, levels[i].price, levels[k].price))
  }

  ghost predicate Ordered(sd: Side, levels: seq<Level>) {
    Sorted(sd, levels) && forall i :: 0 <= i < |levels| ==> Fifo(levels[i].orders)
  }

  ghost predicate NotQueued(q: seq<Order>, ticket: nat) {
    forall j :: 0 <= j < |q| ==> q[j].ticket != ticket
  }

  ghost predicate Absent(s: Sides, ticket: nat) {
    && (forall i :: 0 <= i < |s.bids| ==> NotQueued(s.bids[i].orders, ticket))
    && (forall i :: 0 <= i < |s.asks| ==> NotQueued(s.asks[i].orders, ticket))
  }

  ghost predicate OlderQueue(q: seq<Order>, ticket: nat) {
    forall j :: 0 <= j < |q| ==> q[j].ticket < ticket
  }

  ghost predicate Older(levels: seq<Level>, ticket: nat) {
    forall i :: 0 <= i < |levels| ==> OlderQueue(levels[i].orders, ticket)
  }

  ghost predicate OlderSides(s: Sides, ticket: nat) {
    Older(s.bids, ticket) && Older(s.asks, ticket)
  }

  // ----- matching

  function RestingSide(t: Taker, m: MatchState): seq<Level> {
    m.book.sides.Get(t.side.Opposite())
  }

  function FillOf(t: Taker, price: u32, maker: Order, qty: u64, number: nat): Fill {
    Fill(t.market, maker.id, t.id, maker.user, t.user, qty, number % TWO64, price, t.side)
  }

  /** Queue q after its front order has traded qty. */
  function FrontTraded(q: seq<Order>, qty: u64): seq<Order>
    requires q != [] && qty <= q[0].remaining
  {
    if q[0].remaining == qty then q[1..] else q[0 := q[0].(remaining := q[0].remaining - qty)]
  }

  /** The taker trades with the front order of the best level. */
  function FillFront(h: Hash, t: Taker, m: MatchState): MatchState
    requires RestingSide(t, m) != [] && RestingSide(t, m)[0].orders != []
  {
    var levels := RestingSide(t, m);
    var lv := levels[0];
    var maker := lv.orders[0];
    var qty := Min(m.rem, maker.remaining);
    var number := m.book.fillCount + 1;
    var index := if maker.remaining == qty then m.book.index - {Bucket(h, maker.id)} else m.book.index;
    var levels' := levels[0 := lv.(orders := FrontTraded(lv.orders, qty))];
    MatchState(
      m.book.(sides := m.book.sides.Set(t.side.Opposite(), levels'), index := index, fillCount := number),
      m.rem - qty,
      m.trades + [Trade(maker.ticket, t.ticket, FillOf(t, lv.price, maker, qty, number))])
  }

  function DropFront(t: Taker, m: MatchState): MatchState
    requires RestingSide(t, m) != []
  {
    m.(book := m.book.(sides := m.book.sides.Set(t.side.Opposite(), RestingSide(t, m)[1..])))
  }

  /** Trades until the taker is done, the resting side is empty or its best price no longer crosses. */
  function MatchFrom(h: Hash, t: Taker, m: MatchState): MatchState
    decreases |RestingSide(t, m)| + OrderCount(RestingSide(t, m)), m.rem
  {
    var levels := RestingSide(t, m);
    if levels == [] then m
    else if levels[0].orders == [] then MatchFrom(h, t, DropFront(t, m))
    else if m.rem == 0 || !Crosses(t, levels[0].price) then m
    else MatchFrom(h, t, FillFront(h, t, m))
  }

  // ----- resting

  /** Number of leading levels with a better price than p. */
  function Position(sd: Side, levels: seq<Level>, p: int): (i: nat)
    ensures i <= |levels|
  {
    if levels == [] || !Better(sd, levels[0].price, p) then 0
    else 1 + Position(sd, levels[1..], p)
  }

  predicate HasLevelAt(levels: seq<Level>, i: int, p: int) {
    0 <= i < |levels| && levels[i].price == p
  }

  function WithLevel(sd: Side, levels: seq<Level>, p: u32): seq<Level> {
    var i := Position(sd, levels, p);
    if HasLevelAt(levels, i, p) then levels else Inserted(levels, i, Level(p, []))
  }

  function Append(levels: seq<Level>, i: nat, o: Order): seq<Level>
    requires i < |levels|
  {
    levels[i := levels[i].(orders := levels[i].orders + [o])]
  }

  function Rested(sd: Side, levels: seq<Level>, p: u32, o: Order): seq<Level> {
    var i := Position(sd, levels, p);
    var with := WithLevel(sd, levels, p);
    Append(with, i, o)
  }

  function Rest(h: Hash, b: Book, sd: Side, p: u32, o: Order): Book {
    b.(sides := b.sides.Set(sd, Rested(sd, b.sides.Get(sd), p, o)),
       index := b.index[Bucket(h, o.id) := Ref(sd, p, o.ticket)])
  }

  // ----- the three operations

  function Arrive(b: Book, sequence: u64): Book {
    b.(arrivals := b.arrivals + 1, sequence := sequence)
  }

  function AddLimit(h: Hash, market: Uuid, b: Book, id: Uuid, user: Uuid, sd: Side, price: u32, quantity: u64,
                    sequence: u64): Outcome {
    if price == 0 || price >= MAX_PRICE || quantity == 0 then Outcome(b, [])
    else
      var t := Taker(market, b.arrivals, id, user, sd, price, false);
      var m := MatchFrom(h, t, MatchState(Arrive(b, sequence), quantity, []));
      if m.rem == 0 || Live(m.book.sides) >= MAX_ORDERS then Outcome(m.book, m.trades)
      else Outcome(Rest(h, m.book, sd, price, Order(b.arrivals, id, user, quantity, m.rem, sequence)), m.trades)
  }

  function AddMarket(h: Hash, market: Uuid, b: Book, id: Uuid, user: Uuid, sd: Side, quantity: u64,
                     sequence: u64): Outcome {
    if quantity == 0 then Outcome(b, [])
    else
      var t := Taker(market, b.arrivals, id, user, sd, 0, true);
      var m := MatchFrom(h, t, MatchState(Arrive(b, sequence), quantity, []));
      Outcome(m.book, m.trades)
  }

  function TicketPosition(q: seq<Order>, ticket: nat): (j: nat)
    ensures j <= |q|
    ensures j < |q| ==> q[j].ticket == ticket
    ensures forall k :: 0 <= k < j ==> q[k].ticket != ticket
  {
    if q == [] || q[0].ticket == ticket then 0 else 1 + TicketPosition(q[1..], ticket)
  }

  /** Levels after order j of level i has left; an emptied level leaves with it. */
  function Removed(levels: seq<Level>, i: nat, j: nat): seq<Level>
    requires i < |levels| && j < |levels[i].orders|
  {
    var q := Without(levels[i].orders, j);
    if q == [] then Without(levels, i) else levels[i := levels[i].(orders := q)]
  }

  predicate CanCancel(h: Hash, b: Book, id: Uuid) {
    Bucket(h, id) in b.index
  }

  function Cancel(h: Hash, b: Book, id: Uuid): Book {
    var k := Bucket(h, id);
    if k !in b.index then b
    else
      var r := b.index[k];
      var levels := b.sides.Get(r.side);
      var i := Position(r.side, levels, r.price);
      if i == |levels| then b
      else
        var j := TicketPosition(levels[i].orders, r.ticket);
        if j == |levels[i].orders| then b
        else b.(sides := b.sides.Set(r.side, Removed(levels, i, j)), index := b.index - {k})
  }
}
