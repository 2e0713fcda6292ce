/** First-in-first-out lots of api/crates/analytics/src/pnl.rs. Fill prices and balances are counted
    in millionths, in which they are whole numbers; the price a lot is marked at may be any real. */
module LotSpec {
  import opened Types
  import opened MapSums

  datatype Lot = Lot(entry: nat, quantity: nat, current: real, unrealized: real)

  // ----- a queue of single shares

  function Copies(entry: nat, n: nat): (r: seq<nat>)
    ensures |r| == n && forall i :: 0 <= i < n ==> r[i] == entry
  {
    seq(n, _ => entry)
  }

  /** The entry price of each open share, oldest first. */
  function Shares(lots: seq<Lot>): seq<nat> {
    if lots == [] then [] else Copies(lots[0].entry, lots[0].quantity) + Shares(lots[1..])
  }

  function Smaller(a: nat, b: nat): nat {
    if a < b then a else b
  }

  // ----- what a sell does to the lots

  /** The lots after closing n shares; the last lot touched may be partly closed. */
  function Kept(lots: seq<Lot>, n: nat): seq<Lot> {
    if n == 0 || lots == [] then lots
    else if n < lots[0].quantity then [lots[0].(quantity := lots[0].quantity - n)] + lots[1..]
    else Kept(lots[1..], n - lots[0].quantity)
  }

  function Amount(price: nat, n: nat): nat {
    price * n
  }

  function Gain(price: nat, entry: nat, n: nat): int {
    (price - entry) * n
  }

  lemma GainIs(price: nat, entry: nat, n: nat)
    ensures Gain(price, entry, n) == Amount(price, n) - Amount(entry, n)
  {
  }

  lemma AmountSum(price: nat, a: nat, b: nat)
    ensures Amount(price, a + b) == Amount(price, a) + Amount(price, b) && Amount(price, 0) == 0
            && Amount(price, 1) == price
  {
  }

  /** The profit booked for them at the given price. */
  function Realized(lots: seq<Lot>, n: nat, price: nat): int {
    if n == 0 || lots == [] then 0
    else
      var closed := Smaller(n, lots[0].quantity);
      Gain(price, lots[0].entry, closed) + Realized(lots[1..], n - closed, price)
  }

  function Cost(lots: seq<Lot>): nat {
    if lots == [] then 0 else Amount(lots[0].entry, lots[0].quantity) + Cost(lots[1..])
  }

  lemma {:induction false} SumSplit(a: seq<nat>, b: seq<nat>)
    ensures SumNat(a + b) == SumNat(a) + SumNat(b)
  {
    if a == [] {
      assert a + b == b;
    } else {
      assert (a + b)[1..] == a[1..] + b;
      SumSplit(a[1..], b);
    }
  }

  lemma {:induction false} SumCopies(entry: nat, n: nat)
    ensures SumNat(Copies(entry, n)) == Amount(entry, n)
  {
    hide Amount;
    AmountSum(entry, 0, 0);
    if n > 0 {
      assert Copies(entry, n)[1..] == Copies(entry, n - 1);
      SumCopies(entry, n - 1);
      AmountSum(entry, n - 1, 1);
    }
  }

  lemma {:induction false} CostIsSum(lots: seq<Lot>)
    ensures Cost(lots) == SumNat(Shares(lots))
  {
    if lots != [] {
      CostIsSum(lots[1..]);
      SumCopies(lots[0].entry, lots[0].quantity);
      SumSplit(Copies(lots[0].entry, lots[0].quantity), Shares(lots[1..]));
    }
  }

  lemma {:induction false} SharesAppended(lots: seq<Lot>, lot: Lot)
    ensures Shares(lots + [lot]) == Shares(lots) + Copies(lot.entry, lot.quantity)
  {
    if lots == [] {
      assert [lot][1..] == [];
      assert lots + [lot] == [lot];
    } else {
      assert (lots + [lot])[1..] == lots[1..] + [lot];
      SharesAppended(lots[1..], lot);
    }
  }

  /** A sell closes the oldest shares. */
  lemma {:induction false} OldestFirst(lots: seq<Lot>, n: nat)
    ensures Shares(Kept(lots, n)) == Shares(lots)[Smaller(n, |Shares(lots)|)..]
  {
    if n == 0 || lots == [] {
      assert Shares(lots)[0..] == Shares(lots);
    } else if n < lots[0].quantity {
      var lot, rest := lots[0], lots[1..];
      assert Kept(lots, n)[1..] == rest;
      assert Copies(lot.entry, lot.quantity)[n..] == Copies(lot.entry, lot.quantity - n);
    } else {
      OldestFirst(lots[1..], n - lots[0].quantity);
      DropPast(Copies(lots[0].entry, lots[0].quantity), Shares(lots[1..]), Smaller(n, |Shares(lots)|));
    }
  }

  lemma DropPast(a: seq<nat>, b: seq<nat>, n: nat)
    requires |a| <= n <= |a| + |b|
    ensures (a + b)[n..] == b[n - |a|..] && (a + b)[..n] == a + b[..n - |a|]
  {
  }

  /** The profit is the proceeds of the shares closed less what they cost. */
  lemma {:induction false} ProfitIs(lots: seq<Lot>, n: nat, price: nat)
    ensures var closed := Smaller(n, |Shares(lots)|);
            Realized(lots, n, price) == Amount(price, closed) - SumNat(Shares(lots)[..closed])
  {
    hide Amount, Gain;
    if n == 0 || lots == [] {
      assert Shares(lots)[..0] == [];
      AmountSum(price, 0, 0);
    } else if n < lots[0].quantity {
      ProfitOfPart(lots, n, price);
    } else {
      ProfitIs(lots[1..], n - lots[0].quantity, price);
      ProfitOfWhole(lots, n, price);
    }
  }

  lemma ProfitOfPart(lots: seq<Lot>, n: nat, price: nat)
    requires lots != [] && 0 < n < lots[0].quantity
    ensures Smaller(n, |Shares(lots)|) == n && Realized(lots, n, price) == Amount(price, n) - SumNat(Shares(lots)[..n])
  {
    hide Amount, Gain;
    var lot := lots[0];
    assert (Copies(lot.entry, lot.quantity) + Shares(lots[1..]))[..n] == Copies(lot.entry, n);
    SumCopies(lot.entry, n);
    GainIs(price, lot.entry, n);
    assert Realized(lots[1..], 0, price) == 0;
  }

  lemma ProfitOfWhole(lots: seq<Lot>, n: nat, price: nat)
    requires lots != [] && n >= lots[0].quantity && n > 0
    requires var closed := Smaller(n - lots[0].quantity, |Shares(lots[1..])|);
             Realized(lots[1..], n - lots[0].quantity, price)
             == Amount(price, closed) - SumNat(Shares(lots[1..])[..closed])
    ensures var closed := Smaller(n, |Shares(lots)|);
            Realized(lots, n, price) == Amount(price, closed) - SumNat(Shares(lots)[..closed])
  {
    var lot, rest := lots[0], Shares(lots[1..]);
    var all := Copies(lot.entry, lot.quantity);
    var closed := Smaller(n - lot.quantity, |rest|);
    assert Realized(lots, n, price) == Gain(price, lot.entry, lot.quantity)
           + Realized(lots[1..], n - lot.quantity, price);
    hide Amount, Gain, Realized, SumNat;
    DropPast(all, rest, closed + lot.quantity);
    SumSplit(all, rest[..closed]);
    SumCopies(lot.entry, lot.quantity);
    GainIs(price, lot.entry, lot.quantity);
    AmountSum(price, closed, lot.quantity);
  }

  /** Selling moves the profit out of the cost of what stays open. */
  lemma CostAfter(lots: seq<Lot>, n: nat, price: nat)
    ensures Cost(Kept(lots, n)) == Cost(lots) + Realized(lots, n, price) - Amount(price, Smaller(n, |Shares(lots)|))
  {
    hide Amount, Gain, Kept, Realized, Shares, Cost, SumNat;
    var shares, closed := Shares(lots), Smaller(n, |Shares(lots)|);
    OldestFirst(lots, n);
    ProfitIs(lots, n, price);
    CostIsSum(lots);
    CostIsSum(Kept(lots, n));
    assert shares[..closed] + shares[closed..] == shares;
    SumSplit(shares[..closed], shares[closed..]);
  }

  // ----- marking to market

  function Profit(price: real, entry: nat, quantity: nat): real {
    (price - entry as real) * quantity as real
  }

  function MarkOf(lot: Lot): real {
    Profit(lot.current, lot.entry, lot.quantity)
  }

  function Marked(lot: Lot, price: real): Lot {
    lot.(current := price, unrealized := Profit(price, lot.entry, lot.quantity))
  }

  function MarkedAll(lots: seq<Lot>, price: real): (r: seq<Lot>)
    ensures |r| == |lots| && forall i :: 0 <= i < |lots| ==> r[i] == Marked(lots[i], price)
  {
    seq(|lots|, i requires 0 <= i < |lots| => Marked(lots[i], price))
  }

  /** Every lot's unrealised profit is that of the shares it still holds. */
  ghost predicate MarksExact(lots: seq<Lot>) {
    forall i :: 0 <= i < |lots| ==> lots[i].unrealized == MarkOf(lots[i])
  }

  /** The lot that a sell of n shares would close in part. */
  function PartlyClosed(lots: seq<Lot>, n: nat): Option<Lot> {
    if n == 0 || lots == [] then None
    else if n < lots[0].quantity then Some(lots[0])
    else PartlyClosed(lots[1..], n - lots[0].quantity)
  }

  /** A sell leaves the unrealised profit of a partly closed lot as it was. The marks stay exact exactly if there is
      no such lot or it is marked at its entry price; otherwise they are wrong until prices are next updated. */
  lemma {:induction false} SellKeepsMarks(lots: seq<Lot>, n: nat)
    requires MarksExact(lots)
    ensures MarksExact(Kept(lots, n)) <==>
              || PartlyClosed(lots, n).None?
              || PartlyClosed(lots, n).value.current == PartlyClosed(lots, n).value.entry as real
  {
    if n == 0 || lots == [] {
    } else if n < lots[0].quantity {
      var part := lots[0].(quantity := lots[0].quantity - n);
      PartMark(lots[0], part, n);
      hide MarkOf;
      assert Kept(lots, n) == [part] + lots[1..];
      MarksSplit(part, lots[1..]);
      MarksSplit(lots[0], lots[1..]);
      assert lots == [lots[0]] + lots[1..];
    } else {
      hide MarkOf;
      SellKeepsMarks(lots[1..], n - lots[0].quantity);
    }
  }

  lemma MarksSplit(lot: Lot, rest: seq<Lot>)
    ensures MarksExact([lot] + rest) <==> lot.unrealized == MarkOf(lot) && MarksExact(rest)
  {
    hide MarkOf;
    var all := [lot] + rest;
    assert all[0] == lot && forall i :: 0 <= i < |rest| ==> rest[i] == all[i + 1];
  }

  /** A lot closed in part keeps an exact mark only if the mark is nothing. */
  lemma PartMark(lot: Lot, part: Lot, n: nat)
    requires 0 < n < lot.quantity && part == lot.(quantity := lot.quantity - n) && lot.unrealized == MarkOf(lot)
    ensures part.unrealized == MarkOf(part) <==> lot.current == lot.entry as real
  {
    var gap := lot.current - lot.entry as real;
    assert lot.quantity as real - part.quantity as real == n as real;
    MarkGap(gap, lot.quantity as real, part.quantity as real);
  }

  lemma MarkGap(gap: real, q: real, p: real)
    requires p < q
    ensures gap * q == gap * p <==> gap == 0.0
  {
    var d := q - p;
    assert gap * q == gap * p + gap * d;
    if gap > 0.0 { assert gap * d > 0.0; }
    if gap < 0.0 { assert (-gap) * d > 0.0; }
  }

  /** A lot is entered at the price of the fill and marked at the price of the day: its unrealised profit is exact, and
      nothing exactly if the two are the same or it has no shares. */
  lemma NewLotIsExact(lots: seq<Lot>, price: nat, quantity: nat, current: real)
    ensures var lot := NewLot(price, quantity, current);
            && lot.entry == price && lot.quantity == quantity && lot.current == current
            && lot.unrealized == (current - price as real) * quantity as real
            && (MarksExact(lots + [lot]) <==> MarksExact(lots))
  {
    var lot := NewLot(price, quantity, current);
    hide MarkOf;
    var all := lots + [lot];
    assert lot.unrealized == MarkOf(lot) by { MarkIs(lot); }
    assert all[|lots|] == lot && forall i :: 0 <= i < |lots| ==> all[i] == lots[i];
  }

  lemma MarkIs(lot: Lot)
    ensures MarkOf(lot) == (lot.current - lot.entry as real) * lot.quantity as real
  {
  }

  /** What a price update does to the lots of a holder: in the market all are marked at the price, elsewhere none. */
  lemma MarkExactly(t: Tracker, market: Uuid, price: real, k: Holder)
    requires k in t.lots
    ensures var t' := Next(t, Mark(market, price));
            && t'.balances == t.balances && t'.lots.Keys == t.lots.Keys
            && var lots, lots' := t.lots[k], t'.lots[k];
               && |lots'| == |lots|
               && if k.1 != market then lots' == lots
                  else forall i :: 0 <= i < |lots| ==>
                         && lots'[i].entry == lots[i].entry && lots'[i].quantity == lots[i].quantity
                         && lots'[i].current == price
                         && lots'[i].unrealized == (price - lots[i].entry as real) * lots[i].quantity as real
  {
  }

  /** Holders in the market, and only they, are marked at the price, exactly. */
  ghost predicate MarkedAt(before: map<Holder, seq<Lot>>, after: map<Holder, seq<Lot>>, market: Uuid, price: real) {
    && after.Keys == before.Keys
    && (forall k :: k in before && k.1 != market ==> after[k] == before[k])
    && forall k :: k in before && k.1 == market ==>
         MarksExact(after[k]) && forall i :: 0 <= i < |after[k]| ==> after[k][i].current == price
  }

  lemma MarkMarks(t: Tracker, market: Uuid, price: real)
    ensures MarkedAt(t.lots, Next(t, Mark(market, price)).lots, market, price)
  {
    forall k | k in t.lots && k.1 == market ensures MarksExact(MarkedAll(t.lots[k], price)) {
      PricesMakeMarksExact(t.lots[k], price);
    }
  }

  /** A price update makes every mark exact and leaves the shares as they are. */
  lemma PricesMakeMarksExact(lots: seq<Lot>, price: real)
    ensures MarksExact(MarkedAll(lots, price)) && Shares(MarkedAll(lots, price)) == Shares(lots)
  {
    SharesMarked(lots, price);
  }

  lemma {:induction false} SharesMarked(lots: seq<Lot>, price: real)
    ensures Shares(MarkedAll(lots, price)) == Shares(lots) && Cost(MarkedAll(lots, price)) == Cost(lots)
  {
    if lots != [] {
      assert MarkedAll(lots, price)[1..] == MarkedAll(lots[1..], price);
      SharesMarked(lots[1..], price);
    }
  }

  function Unrealized(lots: seq<Lot>): real {
    if lots == [] then 0.0 else lots[0].unrealized + Unrealized(lots[1..])
  }

  function Worth(price: real, n: nat): real {
    price * n as real
  }

  lemma GapSum(price: real, entry: nat, q: nat, n: nat)
    ensures Profit(price, entry, q) + Worth(price, n) == Worth(price, q + n) - Amount(entry, q) as real
            && Worth(price, 0) == 0.0
  {
    assert entry as real * q as real == (entry * q) as real;
    assert price * (q + n) as real == price * q as real + price * n as real;
  }

  /** With all lots marked at one price, the unrealised profit is what the open shares are worth less their cost. */
  lemma {:induction false} WorthLessCost(lots: seq<Lot>, price: real)
    ensures Unrealized(MarkedAll(lots, price)) == Worth(price, |Shares(lots)|) - Cost(lots) as real
  {
    hide Amount, Worth, Profit;
    if lots == [] {
      GapSum(price, 0, 0, 0);
    } else {
      WorthLessCost(lots[1..], price);
      assert MarkedAll(lots, price)[1..] == MarkedAll(lots[1..], price);
      GapSum(price, lots[0].entry, lots[0].quantity, |Shares(lots[1..])|);
    }
  }

  // ----- whole runs

  type Holder = (Uuid, Uuid)

  datatype Event = Buy(user: Uuid, market: Uuid, price: nat, quantity: nat, current: real)
                 | Sell(user: Uuid, market: Uuid, price: nat, quantity: nat)
                 | Mark(market: Uuid, mark: real)

  datatype Tracker = Tracker(lots: map<Holder, seq<Lot>>, balances: map<Uuid, int>)

  function NewLot(price: nat, quantity: nat, current: real): Lot {
    Lot(price, quantity, current, Profit(current, price, quantity))
  }

  function LotsOf(t: Tracker, user: Uuid, market: Uuid): seq<Lot> {
    if (user, market) in t.lots then t.lots[(user, market)] else []
  }

  function BalanceOf(t: Tracker, user: Uuid): int {
    if user in t.balances then t.balances[user] else 0
  }

  function Next(t: Tracker, e: Event): Tracker {
    match e
    case Buy(u, m, price, quantity, current) =>
      var lot := NewLot(price, quantity, current);
      t.(lots := t.lots[(u, m) := LotsOf(t, u, m) + [lot]])
    case Sell(u, m, price, quantity) =>
      var lots := LotsOf(t, u, m);
      Tracker(t.lots[(u, m) := Kept(lots, quantity)],
              t.balances[u := BalanceOf(t, u) + Realized(lots, quantity, price)])
    case Mark(m, price) =>
      t.(lots := map k | k in t.lots :: if k.1 == m then MarkedAll(t.lots[k], price) else t.lots[k])
  }

  function After(es: seq<Event>): Tracker {
    if es == [] then Tracker(map[], map[]) else Next(After(es[..|es| - 1]), es[|es| - 1])
  }

  // ----- the plain queue

  /** Every share the user ever bought in the market, in order. */
  function Bought(es: seq<Event>, u: Uuid, m: Uuid): seq<nat> {
    if es == [] then []
    else
      var rest, e := Bought(es[..|es| - 1], u, m), es[|es| - 1];
      if e.Buy? && e.user == u && e.market == m then rest + Copies(e.price, e.quantity) else rest
  }

  /** How many of them have been sold; selling more than is open sells what is open. */
  function Closed(es: seq<Event>, u: Uuid, m: Uuid): (n: nat)
    ensures n <= |Bought(es, u, m)|
  {
    if es == [] then 0
    else
      var rest, e := Closed(es[..|es| - 1], u, m), es[|es| - 1];
      if e.Sell? && e.user == u && e.market == m then Smaller(rest + e.quantity, |Bought(es[..|es| - 1], u, m)|)
      else rest
  }

  /** In every run the lots of a user in a market are the plain queue: all shares bought, without the oldest ones
      sold. */
  lemma {:induction false} LotsAreAQueue(es: seq<Event>, u: Uuid, m: Uuid)
    ensures Shares(LotsOf(After(es), u, m)) == Bought(es, u, m)[Closed(es, u, m)..]
  {
    if es != [] {
      var rest, e := es[..|es| - 1], es[|es| - 1];
      LotsAreAQueue(rest, u, m);
      QueueStep(After(rest), e, u, m, Bought(rest, u, m), Closed(rest, u, m));
      hide Next;
    }
  }

  lemma QueueStep(t: Tracker, e: Event, u: Uuid, m: Uuid, bought: seq<nat>, closed: nat)
    requires closed <= |bought| && Shares(LotsOf(t, u, m)) == bought[closed..]
    ensures Shares(LotsOf(Next(t, e), u, m))
            == if e.Buy? && e.user == u && e.market == m then (bought + Copies(e.price, e.quantity))[closed..]
               else if e.Sell? && e.user == u && e.market == m then bought[Smaller(closed + e.quantity, |bought|)..]
               else bought[closed..]
  {
    hide Kept, Realized, Copies, Shares, Bought;
    match e
    case Buy(v, w, price, quantity, current) =>
      BuyStep(t, price, quantity, current, u, m, bought, closed);
    case Sell(v, w, price, quantity) =>
      OldestFirst(LotsOf(t, u, m), quantity);
      DropTwice(bought, closed, quantity);
    case Mark(w, mark) => SharesMarked(LotsOf(t, u, m), mark);
  }

  lemma BuyStep(t: Tracker, price: nat, quantity: nat, current: real, u: Uuid, m: Uuid, bought: seq<nat>, closed: nat)
    requires closed <= |bought| && Shares(LotsOf(t, u, m)) == bought[closed..]
    ensures Shares(LotsOf(Next(t, Event.Buy(u, m, price, quantity, current)), u, m))
            == (bought + Copies(price, quantity))[closed..]
  {
    var lot := NewLot(price, quantity, current);
    SharesAppended(LotsOf(t, u, m), lot);
    hide Shares;
    assert LotsOf(Next(t, Event.Buy(u, m, price, quantity, current)), u, m) == LotsOf(t, u, m) + [lot];
    assert bought[closed..] + Copies(price, quantity) == (bought + Copies(price, quantity))[closed..];
  }

  lemma DropTwice(xs: seq<nat>, a: nat, n: nat)
    requires a <= |xs|
    ensures xs[a..][Smaller(n, |xs| - a)..] == xs[Smaller(a + n, |xs|)..]
  {
  }

  // ----- the books balance

  /** What a user has spent on shares, and what sales have brought in for the shares they closed. */
  function Spent(es: seq<Event>, u: Uuid): nat {
    if es == [] then 0
    else
      var e := es[|es| - 1];
      Spent(es[..|es| - 1], u) + if e.Buy? && e.user == u then Amount(e.price, e.quantity) else 0
  }

  function Proceeds(t: Tracker, e: Event): nat
    requires e.Sell?
  {
    Amount(e.price, Smaller(e.quantity, |Shares(LotsOf(t, e.user, e.market))|))
  }

  function Earned(es: seq<Event>, u: Uuid): nat {
    if es == [] then 0
    else
      var rest, e := es[..|es| - 1], es[|es| - 1];
      Earned(rest, u) + if e.Sell? && e.user == u then Proceeds(After(rest), e) else 0
  }

  ghost function Costs(t: Tracker, u: Uuid): map<Holder, int> {
    map k | k in t.lots && k.0 == u :: Cost(t.lots[k])
  }

  /** The cost of everything the user still holds, over all markets. */
  ghost function OpenCost(t: Tracker, u: Uuid): int {
    Sum(Costs(t, u))
  }

  lemma CostsSet(t: Tracker, k: Holder, lots: seq<Lot>, u: Uuid)
    ensures var t' := t.(lots := t.lots[k := lots]);
            OpenCost(t', u) == OpenCost(t, u) + if k.0 == u then Cost(lots) - Cost(LotsOf(t, k.0, k.1)) else 0
  {
    hide Cost, Sum;
    var t' := t.(lots := t.lots[k := lots]);
    if k.0 == u {
      assert Costs(t', u) == Costs(t, u)[k := Cost(lots)];
      NoCost();
      hide Costs;
      if k in t.lots { SumUpdate(Costs(t, u), k, Cost(lots)); } else { SumInsert(Costs(t, u), k, Cost(lots)); }
    } else {
      assert Costs(t', u) == Costs(t, u);
    }
  }

  lemma NoCost()
    ensures Cost([]) == 0
  {
  }

  lemma BoughtCost(lots: seq<Lot>, lot: Lot)
    ensures Cost(lots + [lot]) == Cost(lots) + Amount(lot.entry, lot.quantity)
  {
    hide Amount;
    SharesAppended(lots, lot);
    CostIsSum(lots);
    CostIsSum(lots + [lot]);
    SumSplit(Shares(lots), Copies(lot.entry, lot.quantity));
    SumCopies(lot.entry, lot.quantity);
  }

  lemma MarkCosts(t: Tracker, m: Uuid, price: real, u: Uuid)
    ensures OpenCost(Next(t, Mark(m, price)), u) == OpenCost(t, u)
  {
    var t' := Next(t, Mark(m, price));
    forall k | k in t.lots ensures Cost(t'.lots[k]) == Cost(t.lots[k]) {
      SharesMarked(t.lots[k], price);
    }
    assert Costs(t', u) == Costs(t, u);
  }

  lemma BalanceStep(t: Tracker, e: Event, u: Uuid)
    ensures var t' := Next(t, e);
            BalanceOf(t', u) - OpenCost(t', u) == BalanceOf(t, u) - OpenCost(t, u)
              - (if e.Buy? && e.user == u then Amount(e.price, e.quantity) else 0)
              + (if e.Sell? && e.user == u then Proceeds(t, e) else 0)
  {
    hide OpenCost, Kept, Realized, Shares, Cost, Amount;
    match e
    case Buy(v, m, price, quantity, current) =>
      var lot := NewLot(price, quantity, current);
      BoughtCost(LotsOf(t, v, m), lot);
      CostsSet(t, (v, m), LotsOf(t, v, m) + [lot], u);
    case Sell(v, m, price, quantity) =>
      var lots := LotsOf(t, v, m);
      CostAfter(lots, quantity, price);
      CostsSet(t, (v, m), Kept(lots, quantity), u);
      SameLots(t.(lots := t.lots[(v, m) := Kept(lots, quantity)]), Next(t, e), u);
    case Mark(m, mark) => MarkCosts(t, m, mark, u);
  }

  lemma SameLots(t: Tracker, t': Tracker, u: Uuid)
    requires t.lots == t'.lots
    ensures OpenCost(t, u) == OpenCost(t', u)
  {
    assert Costs(t, u) == Costs(t', u);
  }

  /** In every run a user's realised balance is what sales brought in, less everything spent, plus the cost of
      what is still open. */
  lemma {:induction false} BooksBalance(es: seq<Event>, u: Uuid)
    ensures BalanceOf(After(es), u) == Earned(es, u) - Spent(es, u) + OpenCost(After(es), u)
  {
    if es == [] {
      assert Costs(After(es), u) == map[];
    } else {
      BooksBalance(es[..|es| - 1], u);
      hide Next, OpenCost, BalanceOf;
      BalanceStep(After(es[..|es| - 1]), es[|es| - 1], u);
    }
  }
}
