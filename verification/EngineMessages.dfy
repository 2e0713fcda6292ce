/** What one message from the API does to the engine, from its bytes to the fills it causes, the books it
    changes and the entry it leaves in the log. */
module EngineMessages {
  import opened Types
  import opened LittleEndian
  import opened BookSpec
  import opened BookSafety
  import opened PriceTime
  import Wire
  import opened WriteAheadLog
  import opened Replay

  /** The engine knows the market, or has room for one more. */
  predicate HasRoomFor(s: Shop, market: Uuid) {
    market in s.books || |s.books| < 256
  }

  /** Only the book of one market has changed, or is new. */
  ghost predicate OnlyBookOf(s: Shop, s': Shop, market: Uuid) {
    && s'.books.Keys == s.books.Keys + {market}
    && forall k :: k in s.books && k != market ==> s'.books[k] == s.books[k]
  }

  lemma OrderIsAdded(h: Hash, s: Shop, m: Wire.OrderMsg)
    requires !s.halted
    ensures var s' := Dispatch(h, s, Wire.OrderBytes(m));
            if !HasRoomFor(s, m.marketId) then s'.halted && s'.books == s.books && s'.fills == s.fills
            else
              && !s'.halted && OnlyBookOf(s, s', m.marketId) && s.fills <= s'.fills
              && var out := if m.isMarket
                            then AddMarket(h, m.marketId, BookOf(s, m.marketId), m.orderId, m.userId, m.side,
                                           m.quantity,
                                           m.sequence)
                            else AddLimit(h, m.marketId, BookOf(s, m.marketId), m.orderId, m.userId, m.side, m.price,
                                          m.quantity, m.sequence);
                 s'.books[m.marketId] == out.book && s'.fills == s.fills + out.trades
  {
    hide Wire.Decode, Wire.OrderBytes, AddMarket, AddLimit, Execute;
    Wire.OrderRoundTrip(m);
    assert Dispatch(h, s, Wire.OrderBytes(m)) == Placed(h, s, m);
    hide Dispatch;
    var out := Execute(h, BookOf(s, m.marketId), m);
    PlacedIs(h, s, m, out);
    hide Placed;
    ExecuteIs(h, BookOf(s, m.marketId), m);
  }

  lemma PlacedIs(h: Hash, s: Shop, m: Wire.OrderMsg, out: Outcome)
    requires !s.halted && out == Execute(h, BookOf(s, m.marketId), m)
    ensures var s' := Placed(h, s, m);
            if !HasRoomFor(s, m.marketId) then s'.halted && s'.books == s.books && s'.fills == s.fills
            else
              && !s'.halted && OnlyBookOf(s, s', m.marketId)
              && s'.books[m.marketId] == out.book && s'.fills == s.fills + out.trades
  {
    hide Execute;
  }

  lemma ExecuteIs(h: Hash, b: Book, m: Wire.OrderMsg)
    ensures Execute(h, b, m)
            == if m.isMarket then AddMarket(h, m.marketId, b, m.orderId, m.userId, m.side, m.quantity, m.sequence)
               else AddLimit(h, m.marketId, b, m.orderId, m.userId, m.side, m.price, m.quantity, m.sequence)
  {
    hide AddMarket, AddLimit;
  }

  /** The k-th fill caused by an order message exists exactly if there is a k-th order on the other side's priority list
      whose price the message accepts, and the orders before it have less to offer than the message asks for. It names
      the order and the user of the message, its market and side, and is at the maker's price. */
  lemma OrderIsServed(h: Hash, s: Shop, m: Wire.OrderMsg, k: nat)
    requires !s.halted && HasRoomFor(s, m.marketId) && WellFormed(h, BookOf(s, m.marketId))
    ensures var b, s' := BookOf(s, m.marketId), Dispatch(h, s, Wire.OrderBytes(m));
            var flat := Flatten(b.sides.Get(m.side.Opposite()));
            && |s.fills| <= |s'.fills| && s'.fills[..|s.fills|] == s.fills
            && (k < |s'.fills| - |s.fills| <==>
                  && k < |flat| && Ahead(flat, k) < m.quantity as int
                  && (m.isMarket || (1 <= m.price <= 9999
                                     && if m.side == Buy then flat[k].price <= m.price else flat[k].price >= m.price)))
            && (k < |s'.fills| - |s.fills| ==>
                  Fair(s'.fills[|s.fills| + k], m.marketId, b, m.orderId, m.userId, m.side, m.quantity, flat, k))
  {
    hide WellFormed, Dispatch, Flatten, Ahead, AddMarket, AddLimit, Fair, Wire.OrderBytes;
    OrderIsAdded(h, s, m);
    var b := BookOf(s, m.marketId);
    if m.isMarket {
      MarketFillIsFair(h, m.marketId, b, m.orderId, m.userId, m.side, m.quantity, m.sequence, k);
    } else {
      FillIsFair(h, m.marketId, b, m.orderId, m.userId, m.side, m.price, m.quantity, m.sequence, k);
    }
  }

  /** A cancel message cancels by its order id on the book of its market; without that book it does nothing. */
  lemma CancelIsServed(h: Hash, s: Shop, c: Wire.CancelMsg)
    requires !s.halted
    ensures var s' := Dispatch(h, s, Wire.CancelBytes(c));
            if c.marketId in s.books then
              && !s'.halted && s'.fills == s.fills && OnlyBookOf(s, s', c.marketId)
              && s'.books[c.marketId] == BookSpec.Cancel(h, s.books[c.marketId], c.orderId)
            else s' == s
  {
    Wire.CancelRoundTrip(c);
    hide Wire.Decode, Wire.CancelBytes, BookSpec.Cancel;
  }

  /** Every order is logged as it came, with operation 1, also the one that finds no room; a cancel with operation 2, if
      its market has a book. Nothing else is. */
  lemma LoggedExactly(s: Shop, m: Wire.OrderMsg, c: Wire.CancelMsg)
    requires !s.halted
    ensures Logged(s, Wire.OrderBytes(m)) == [Entry(1, Wire.OrderBytes(m))]
    ensures Logged(s, Wire.CancelBytes(c)) == if c.marketId in s.books then [Entry(2, Wire.CancelBytes(c))] else []
  {
    Wire.OrderRoundTrip(m);
    Wire.CancelRoundTrip(c);
    assert |Wire.OrderBytes(m)| == 71 && |Wire.CancelBytes(c)| == 41;
    ShortIsFaithful(Wire.OrderBytes(m));
    ShortIsFaithful(Wire.CancelBytes(c));
    hide Wire.Decode, Wire.OrderBytes, Wire.CancelBytes;
  }

  /** A message that is neither does nothing, and leaves nothing in the log. */
  lemma OthersAreIgnored(h: Hash, s: Shop, data: Bytes)
    requires !(|data| >= 71 && data[0] == 1) && !(|data| >= 41 && data[0] == 2)
    ensures Dispatch(h, s, data) == s && Logged(s, data) == []
  {
    Wire.DecodeExactly(data);
  }
}
