/** Every fill an engine ever makes has a price between 1 and 9999: what the fills table asks for. */
module FillPrices {
  import opened Types
  import opened LittleEndian
  import opened BookSpec
  import opened BookSafety
  import opened BookRuns
  import Replay
  import MarketIsolation

  ghost predicate Priced(trades: seq<Trade>) {
    forall k :: 0 <= k < |trades| ==> 0 < trades[k].fill.price < MAX_PRICE
  }

  lemma FrontPriced(h: Hash, t: Taker, m: MatchState, n: nat)
    requires Matching(h, t, m, n) && Priced(m.trades)
    requires RestingSide(t, m) != [] && RestingSide(t, m)[0].orders != []
    ensures Priced(FillFront(h, t, m).trades)
  {
    assert 0 < RestingSide(t, m)[0].price < MAX_PRICE;
  }

  lemma {:induction false} MatchPriced(h: Hash, t: Taker, m: MatchState, n: nat)
    requires Matching(h, t, m, n) && Priced(m.trades)
    ensures Priced(MatchFrom(h, t, m).trades)
    decreases |RestingSide(t, m)| + OrderCount(RestingSide(t, m)), m.rem
  {
    hide Matching, Priced;
    var levels := RestingSide(t, m);
    if levels == [] {
    } else if levels[0].orders == [] {
      DropFrontKeeps(h, t, m, n);
      MatchPriced(h, t, DropFront(t, m), n);
    } else if m.rem == 0 || !Crosses(t, levels[0].price) {
    } else {
      FrontPriced(h, t, m, n);
      FillFrontKeeps(h, t, m, n);
      MatchPriced(h, t, FillFront(h, t, m), n);
    }
  }

  lemma ApplyPriced(h: Hash, market: Uuid, b: Book, c: Command)
    requires WellFormed(h, b)
    ensures Priced(Apply(h, market, b, c).trades)
  {
    if Accepted(c) {
      var t := TakerOf(market, b, c);
      var m := MatchState(Arrive(b, c.sequence), c.quantity, []);
      WellFormedSide(h, b, t.side.Opposite());
      assert Matching(h, t, m, b.arrivals);
      MatchPriced(h, t, m, b.arrivals);
      hide MatchFrom, Rest;
    }
  }

  lemma {:induction false} RunPriced(h: Hash, market: Uuid, cs: seq<Command>)
    ensures Priced(After(h, market, cs).trades)
  {
    if cs != [] {
      var rest, c := cs[..|cs| - 1], cs[|cs| - 1];
      var r := After(h, market, rest);
      RunPriced(h, market, rest);
      EveryRun(h, market, rest);
      hide WellFormed, Balanced, Numbered, TradesBelow, Next, Apply;
      ApplyPriced(h, market, r.book, c);
      MarketIsolation.NextIs(h, market, r, c);
    }
  }

  /** The fills of an engine, over all markets. */
  lemma EngineFillsPriced(h: Hash, messages: seq<Bytes>, i: nat)
    requires MarketIsolation.FewMarkets(messages) && i < |Replay.Serve(h, messages).fills|
    ensures var f := Replay.Serve(h, messages).fills[i].fill;
            0 < f.price < MAX_PRICE && f.quantity > 0
  {
    hide Replay.Serve, WellFormed;
    var fills := Replay.Serve(h, messages).fills;
    var market := fills[i].fill.market;
    var p := PlaceInMarket(fills, market, i);
    MarketIsolation.EveryBookWellFormed(h, messages, market);
    MarketIsolation.EveryMarketIsARun(h, messages, market);
    RunPriced(h, market, MarketIsolation.CommandsFor(messages, market));
  }

  /** Where the i-th fill stands among those of its market. */
  lemma {:induction false} PlaceInMarket(fills: seq<Trade>, market: Uuid, i: nat) returns (p: nat)
    requires i < |fills| && fills[i].fill.market == market
    ensures var own := MarketIsolation.FillsOf(fills, market);
            p < |own| && own[p] == fills[i] && p == |MarketIsolation.FillsOf(fills[..i], market)|
  {
    var rest := fills[..|fills| - 1];
    if i == |fills| - 1 {
      p := |MarketIsolation.FillsOf(rest, market)|;
    } else {
      p := PlaceInMarket(rest, market, i);
      assert rest[..i] == fills[..i];
    }
  }
}
