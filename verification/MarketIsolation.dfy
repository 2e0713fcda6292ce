/** Markets do not influence each other: the book and the fills of a market are those of a run of
    that market's own commands, whatever else the engine serves in between. */
module MarketIsolation {
  import opened Types
  import opened LittleEndian
  import opened BookSpec
  import opened BookSafety
  import opened BookRuns
  import Wire
  import opened Replay

  function CommandOf(m: Wire.OrderMsg): Command {
    if m.isMarket then Market(m.orderId, m.userId, m.side, m.quantity, m.sequence)
    else Limit(m.orderId, m.userId, m.side, m.price, m.quantity, m.sequence)
  }

  /** What a message asks of a market: nothing or one command. */
  function Asked(data: Bytes, market: Uuid): seq<Command> {
    match Wire.Decode(data)
    case Add(m) => if m.marketId == market then [CommandOf(m)] else []
    case Cancel(c) => if c.marketId == market then [Withdraw(c.orderId)] else []
    case Ignored => []
  }

  function CommandsFor(messages: seq<Bytes>, market: Uuid): seq<Command> {
    if messages == [] then []
    else CommandsFor(messages[..|messages| - 1], market) + Asked(messages[|messages| - 1], market)
  }

  /** The fills of one market, in order. */
  function FillsOf(fills: seq<Trade>, market: Uuid): seq<Trade> {
    if fills == [] then []
    else
      var last := fills[|fills| - 1];
      FillsOf(fills[..|fills| - 1], market) + if last.fill.market == market then [last] else []
  }

  ghost predicate AllIn(fills: seq<Trade>, market: Uuid) {
    forall k :: 0 <= k < |fills| ==> fills[k].fill.market == market
  }

  lemma {:induction false} FillsAppended(fills: seq<Trade>, more: seq<Trade>, from: Uuid, market: Uuid)
    requires AllIn(more, from)
    ensures FillsOf(fills + more, market) == FillsOf(fills, market) + if from == market then more else []
  {
    if more == [] {
      assert fills + more == fills;
    } else {
      var init, last := more[..|more| - 1], more[|more| - 1];
      FillsAppended(fills, init, from, market);
      assert (fills + more)[..|fills + more| - 1] == fills + init;
      assert more == init + [last];
    }
  }

  lemma {:induction false} TradesInMarket(h: Hash, t: Taker, m: MatchState)
    requires AllIn(m.trades, t.market)
    ensures AllIn(MatchFrom(h, t, m).trades, t.market)
    decreases |RestingSide(t, m)| + OrderCount(RestingSide(t, m)), m.rem
  {
    var levels := RestingSide(t, m);
    if levels == [] {
    } else if levels[0].orders == [] {
      TradesInMarket(h, t, DropFront(t, m));
    } else if m.rem == 0 || !Crosses(t, levels[0].price) {
    } else {
      TradesInMarket(h, t, FillFront(h, t, m));
    }
  }

  lemma ExecuteIs(h: Hash, b: Book, m: Wire.OrderMsg)
    ensures Execute(h, b, m) == Apply(h, m.marketId, b, CommandOf(m))
    ensures AllIn(Execute(h, b, m).trades, m.marketId)
  {
    hide MatchFrom, Rest;
    var limit := if m.isMarket then 0 else m.price;
    var t := Taker(m.marketId, b.arrivals, m.orderId, m.userId, m.side, limit, m.isMarket);
    TradesInMarket(h, t, MatchState(Arrive(b, m.sequence), m.quantity, []));
  }

  /** A command's book and fills are those of Apply. */
  lemma NextIs(h: Hash, market: Uuid, r: Run, c: Command)
    ensures Next(h, market, r, c).book == Apply(h, market, r.book, c).book
    ensures Next(h, market, r, c).trades == r.trades + Apply(h, market, r.book, c).trades
  {
    hide MatchFrom, Rest, Cancel, Target;
  }

  /** A run that has been asked for one more command. */
  lemma AfterOneMore(h: Hash, market: Uuid, cs: seq<Command>, c: Command)
    ensures After(h, market, cs + [c]).book == Apply(h, market, After(h, market, cs).book, c).book
    ensures After(h, market, cs + [c]).trades
            == After(h, market, cs).trades + Apply(h, market, After(h, market, cs).book, c).trades
  {
    assert (cs + [c])[..|cs|] == cs;
    hide Next, Apply;
    NextIs(h, market, After(h, market, cs), c);
  }

  ghost predicate Agrees(h: Hash, s: Shop, market: Uuid, cs: seq<Command>) {
    && BookOf(s, market) == After(h, market, cs).book
    && FillsOf(s.fills, market) == After(h, market, cs).trades
  }

  lemma PlacedAgrees(h: Hash, s: Shop, m: Wire.OrderMsg, market: Uuid, cs: seq<Command>)
    requires Agrees(h, s, market, cs) && !Placed(h, s, m).halted && !s.halted
    ensures Agrees(h, Placed(h, s, m), market, if m.marketId == market then cs + [CommandOf(m)] else cs)
  {
    hide After, Apply, Execute, FillsOf;
    var out := Execute(h, BookOf(s, m.marketId), m);
    ExecuteIs(h, BookOf(s, m.marketId), m);
    FillsAppended(s.fills, out.trades, m.marketId, market);
    if m.marketId == market {
      AfterOneMore(h, market, cs, CommandOf(m));
    } else {
      assert FillsOf(s.fills, market) + [] == FillsOf(s.fills, market);
    }
  }

  lemma WithdrawnAgrees(h: Hash, s: Shop, c: Wire.CancelMsg, market: Uuid, cs: seq<Command>)
    requires Agrees(h, s, market, cs)
    ensures c.marketId in s.books ==>
              Agrees(h, Withdrawn(h, s, c), market, if c.marketId == market then cs + [Withdraw(c.orderId)] else cs)
    ensures c.marketId !in s.books ==>
              Agrees(h, s, market, if c.marketId == market then cs + [Withdraw(c.orderId)] else cs)
  {
    hide After, FillsOf;
    if c.marketId == market {
      AfterOneMore(h, market, cs, Withdraw(c.orderId));
      assert After(h, market, cs).trades + [] == After(h, market, cs).trades;
      assert Cancel(h, EmptyBook, c.orderId) == EmptyBook;
    }
  }

  lemma DispatchAgrees(h: Hash, s: Shop, data: Bytes, market: Uuid, cs: seq<Command>)
    requires Agrees(h, s, market, cs) && !s.halted && !Dispatch(h, s, data).halted
    ensures Agrees(h, Dispatch(h, s, data), market, cs + Asked(data, market))
  {
    assert cs + [] == cs;
    hide Agrees, Placed, Withdrawn, CommandOf, Wire.Decode;
    match Wire.Decode(data)
    case Add(m) => PlacedAgrees(h, s, m, market, cs);
    case Cancel(c) => WithdrawnAgrees(h, s, c, market, cs);
    case Ignored =>
  }

  // ----- which messages stop the engine

  /** The market that a message asks for a book, if any: only orders do. */
  function Named(data: Bytes): set<Uuid> {
    match Wire.Decode(data)
    case Add(m) => {m.marketId}
    case _ => {}
  }

  /** The markets for which orders have come. */
  function OrderMarkets(messages: seq<Bytes>): set<Uuid> {
    if messages == [] then {} else OrderMarkets(messages[..|messages| - 1]) + Named(messages[|messages| - 1])
  }

  predicate FewMarkets(messages: seq<Bytes>) {
    |OrderMarkets(messages)| <= 256
  }

  lemma DispatchHalts(h: Hash, s: Shop, data: Bytes)
    requires !s.halted && |s.books| <= MAX_MARKETS
    ensures var s' := Dispatch(h, s, data);
            && (s'.halted <==> |s.books.Keys + Named(data)| > MAX_MARKETS)
            && (!s'.halted ==> s'.books.Keys == s.books.Keys + Named(data))
  {
    hide Execute, Cancel, Wire.Decode;
    var keys := s.books.Keys;
    assert |keys| == |s.books|;
    match Wire.Decode(data)
    case Add(m) =>
      if m.marketId in keys { assert keys + {m.marketId} == keys; } else { assert |keys + {m.marketId}| == |keys| + 1; }
    case Cancel(c) => assert keys + {} == keys;
    case Ignored => assert keys + {} == keys;
  }

  /** The engine dies exactly if orders come for more than 256 markets; until then it has a book for each market
      for which an order has come. */
  lemma {:induction false} StopsAt257(h: Hash, messages: seq<Bytes>)
    ensures Serve(h, messages).halted <==> |OrderMarkets(messages)| > 256
    ensures !Serve(h, messages).halted ==> Serve(h, messages).books.Keys == OrderMarkets(messages)
  {
    if messages != [] {
      var rest, last := messages[..|messages| - 1], messages[|messages| - 1];
      StopsAt257(h, rest);
      hide Dispatch, Named;
      if Serve(h, rest).halted {
        SubsetSize(OrderMarkets(rest), OrderMarkets(messages));
        assert Dispatch(h, Serve(h, rest), last) == Serve(h, rest) by { HaltedStays(h, Serve(h, rest), last); }
      } else {
        DispatchHalts(h, Serve(h, rest), last);
      }
    }
  }

  lemma HaltedStays(h: Hash, s: Shop, data: Bytes)
    requires s.halted
    ensures Dispatch(h, s, data) == s
  {
  }

  lemma {:induction false} SubsetSize<T>(a: set<T>, b: set<T>)
    requires a <= b
    ensures |a| <= |b|
  {
    assert b == a + (b - a) && a !! b - a;
  }

  /** For any stream of orders for at most 256 markets, each market's book and its fills, in order, are those of a
      run of the market's own commands. All that BookRuns.EveryRun says about runs holds of them. */
  lemma {:induction false} EveryMarketIsARun(h: Hash, messages: seq<Bytes>, market: Uuid)
    requires FewMarkets(messages)
    ensures BookOf(Serve(h, messages), market) == After(h, market, CommandsFor(messages, market)).book
    ensures FillsOf(Serve(h, messages).fills, market) == After(h, market, CommandsFor(messages, market)).trades
  {
    if messages != [] {
      var rest, last := messages[..|messages| - 1], messages[|messages| - 1];
      StopsAt257(h, messages);
      StopsAt257(h, rest);
      SubsetSize(OrderMarkets(rest), OrderMarkets(messages));
      EveryMarketIsARun(h, rest, market);
      hide Dispatch, After, FillsOf, Asked, OrderMarkets;
      DispatchAgrees(h, Serve(h, rest), last, market, CommandsFor(rest, market));
    }
  }

  lemma {:induction false} MarketsBounded(h: Hash, messages: seq<Bytes>)
    ensures |Serve(h, messages).books| <= MAX_MARKETS
  {
    if messages != [] {
      MarketsBounded(h, messages[..|messages| - 1]);
      hide Dispatch;
      DispatchBounded(h, Serve(h, messages[..|messages| - 1]), messages[|messages| - 1]);
    }
  }

  lemma DispatchBounded(h: Hash, s: Shop, data: Bytes)
    requires |s.books| <= MAX_MARKETS
    ensures |Dispatch(h, s, data).books| <= MAX_MARKETS
  {
    hide Execute, BookSpec.Cancel, Wire.Decode;
    match Wire.Decode(data)
    case Add(m) => Resized(s.books, m.marketId, Execute(h, BookOf(s, m.marketId), m).book);
    case Cancel(c) =>
      if c.marketId in s.books {
        Resized(s.books, c.marketId, BookSpec.Cancel(h, s.books[c.marketId], c.orderId));
      }
    case Ignored =>
  }

  lemma Resized<K, V>(m: map<K, V>, k: K, v: V)
    ensures |m[k := v]| == if k in m then |m| else |m| + 1
  {
    assert m[k := v].Keys == m.Keys + {k};
  }

  /** So in every state of such an engine each book is well formed, and each market's fills are positive and numbered
      1, 2, 3, ... without gaps. */
  lemma EveryBookWellFormed(h: Hash, messages: seq<Bytes>, market: Uuid)
    requires FewMarkets(messages)
    ensures var b := BookOf(Serve(h, messages), market);
            WellFormed(h, b) && Numbered(FillsOf(Serve(h, messages).fills, market), b.fillCount)
  {
    hide WellFormed, Numbered, Balanced, TradesBelow, Serve, After;
    EveryMarketIsARun(h, messages, market);
    EveryRun(h, market, CommandsFor(messages, market));
  }

  // ----- replaying the log of two processes

  lemma {:induction false} CommandsJoined(a: seq<Bytes>, b: seq<Bytes>, market: Uuid)
    ensures CommandsFor(a + b, market) == CommandsFor(a, market) + CommandsFor(b, market)
  {
    if b == [] {
      assert a + b == a;
    } else {
      var init, last := b[..|b| - 1], b[|b| - 1];
      assert (a + b)[..|a + b| - 1] == a + init && (a + b)[|a + b| - 1] == last;
      CommandsJoined(a, init, market);
      hide Asked;
    }
  }

  /** Nothing is logged for a market for which no order has come: cancels for it find no book. */
  lemma {:induction false} NothingLogged(h: Hash, messages: seq<Bytes>, market: Uuid)
    requires AllFaithful(messages) && FewMarkets(messages) && market !in OrderMarkets(messages)
    ensures CommandsFor(Payloads(LogOf(h, messages)), market) == []
  {
    if messages != [] {
      var rest, last := messages[..|messages| - 1], messages[|messages| - 1];
      assert AllFaithful(rest) && Faithful(last);
      SubsetSize(OrderMarkets(rest), OrderMarkets(messages));
      assert market !in OrderMarkets(rest) && market !in Named(last);
      assert LogOf(h, messages) == LogOf(h, rest) + Logged(Serve(h, rest), last);
      hide Logged, Faithful, AllFaithful, Asked, Named, OrderMarkets, LogOf, Serve, CommandsFor;
      NothingLogged(h, rest, market);
      StopsAt257(h, rest);
      if Logged(Serve(h, rest), last) != [] { LoggedElsewhere(h, Serve(h, rest), last, market); }
      OneMoreEntry(LogOf(h, rest), Logged(Serve(h, rest), last), market);
    }
  }

  lemma OneMoreEntry(log: seq<Entry>, more: seq<Entry>, market: Uuid)
    requires |more| <= 1
    ensures CommandsFor(Payloads(log + more), market)
            == CommandsFor(Payloads(log), market) + if more == [] then [] else Asked(more[0].payload, market)
  {
    hide Asked;
    if more == [] {
      assert log + more == log;
    } else {
      var ps := Payloads(log + more);
      assert ps[..|ps| - 1] == Payloads(log) && ps[|ps| - 1] == more[0].payload;
    }
  }

  lemma LoggedElsewhere(h: Hash, s: Shop, data: Bytes, market: Uuid)
    requires Faithful(data) && market !in s.books && market !in Named(data) && Logged(s, data) != []
    ensures |Logged(s, data)| == 1
    ensures Asked(Logged(s, data)[0].payload, market) == []
  {
    KeptDecodes(data);
    hide Wire.Decode;
  }

  /** Replaying a log that two processes have written gives each market the book of one run: what the first process
      logged for it, and then what the second did. For a market in which only one of them had orders that is the book
      that process had. */
  lemma TwoProcesses(h: Hash, a: seq<Bytes>, b: seq<Bytes>, market: Uuid)
    requires AllFaithful(a) && AllFaithful(b)
    requires |OrderMarkets(a) + OrderMarkets(b)| <= MAX_MARKETS
    ensures var replayed := BookOf(Serve(h, Payloads(LogOf(h, a) + LogOf(h, b))), market);
            && replayed == After(h, market, CommandsFor(Payloads(LogOf(h, a)), market)
                                            + CommandsFor(Payloads(LogOf(h, b)), market)).book
            && (market !in OrderMarkets(a) ==> replayed == BookOf(Serve(h, b), market))
            && (market !in OrderMarkets(b) ==> replayed == BookOf(Serve(h, a), market))
  {
    hide Serve, LogOf, After, CommandsFor, OrderMarkets, AllFaithful, Payloads;
    SubsetSize(OrderMarkets(a), OrderMarkets(a) + OrderMarkets(b));
    SubsetSize(OrderMarkets(b), OrderMarkets(a) + OrderMarkets(b));
    var la, lb := LogOf(h, a), LogOf(h, b);
    var pa, pb := Payloads(la), Payloads(lb);
    PayloadsJoined(la, lb);
    LoggedMarkets(h, a);
    LoggedMarkets(h, b);
    MarketsJoined(pa, pb);
    hide FewMarkets;
    EveryMarketIsARun(h, pa + pb, market);
    CommandsJoined(pa, pb, market);
    if market !in OrderMarkets(a) {
      NothingLogged(h, a, market);
      LoggedRun(h, b, market);
      assert [] + CommandsFor(pb, market) == CommandsFor(pb, market);
    }
    if market !in OrderMarkets(b) {
      NothingLogged(h, b, market);
      LoggedRun(h, a, market);
      assert CommandsFor(pa, market) + [] == CommandsFor(pa, market);
    }
  }

  lemma PayloadsJoined(a: seq<Entry>, b: seq<Entry>)
    ensures Payloads(a + b) == Payloads(a) + Payloads(b)
  {
  }

  /** A process has the books of the runs of what it has logged. */
  lemma LoggedRun(h: Hash, messages: seq<Bytes>, market: Uuid)
    requires AllFaithful(messages) && FewMarkets(messages)
    ensures BookOf(Serve(h, messages), market)
            == After(h, market, CommandsFor(Payloads(LogOf(h, messages)), market)).book
  {
    hide Serve, LogOf, After, CommandsFor, OrderMarkets, AllFaithful;
    LoggedMarkets(h, messages);
    ReplayIsFaithful(h, messages);
    EveryMarketIsARun(h, Payloads(LogOf(h, messages)), market);
  }

  lemma {:induction false} MarketsJoined(a: seq<Bytes>, b: seq<Bytes>)
    ensures OrderMarkets(a + b) == OrderMarkets(a) + OrderMarkets(b)
  {
    if b == [] {
      assert a + b == a;
    } else {
      var init, last := b[..|b| - 1], b[|b| - 1];
      assert (a + b)[..|a + b| - 1] == a + init && (a + b)[|a + b| - 1] == last;
      MarketsJoined(a, init);
      hide Named;
    }
  }

  /** The log names the markets that the messages have ordered in. */
  lemma LoggedMarkets(h: Hash, messages: seq<Bytes>)
    requires AllFaithful(messages) && FewMarkets(messages)
    ensures OrderMarkets(Payloads(LogOf(h, messages))) == OrderMarkets(messages)
  {
    hide Serve, LogOf, AllFaithful, OrderMarkets;
    ReplayIsFaithful(h, messages);
    StopsAt257(h, messages);
    StopsAt257(h, Payloads(LogOf(h, messages)));
  }
}
