/** How the fills of engine runs meet what the fill table assumes: their keys, their values, what a
    restarted engine does to them, and the positions they give. */
module EngineFills {
  import opened Types
  import opened LittleEndian
  import opened BookSpec
  import opened PositionSpec
  import BookRuns
  import BookSafety
  import Replay
  import MarketIsolation
  import opened FillPrices

  // ----- the fills of an engine run

  function Published(trades: seq<Trade>): (fs: seq<Fill>)
    ensures |fs| == |trades| && forall i :: 0 <= i < |trades| ==> fs[i] == trades[i].fill
  {
    seq(|trades|, i requires 0 <= i < |trades| => trades[i].fill)
  }

  lemma {:induction false} PlacesGrow(fills: seq<Trade>, market: Uuid, i: nat, k: nat)
    requires i < k <= |fills| && fills[i].fill.market == market
    ensures |MarketIsolation.FillsOf(fills[..i], market)| < |MarketIsolation.FillsOf(fills[..k], market)|
  {
    assert fills[..k][..k - 1] == fills[..k - 1];
    if i < k - 1 {
      PlacesGrow(fills, market, i, k - 1);
    } else {
      assert fills[..k][k - 1] == fills[i];
    }
  }

  /** The fills of an engine, as it publishes them. */
  function FillsFrom(h: Hash, messages: seq<Bytes>): seq<Fill> {
    Published(Replay.Serve(h, messages).fills)
  }

  /** How many of them are of one market. */
  function CountIn(h: Hash, messages: seq<Bytes>, market: Uuid): nat {
    |MarketIsolation.FillsOf(Replay.Serve(h, messages).fills, market)|
  }

  /** Streams the engine survives, with fewer than 2^64 fills. */
  predicate Serveable(h: Hash, messages: seq<Bytes>) {
    MarketIsolation.FewMarkets(messages) && |Replay.Serve(h, messages).fills| < TWO64
  }

  lemma NumberAt(trades: seq<Trade>, count: nat, p: nat)
    requires BookRuns.Numbered(trades, count) && p < |trades| < TWO64
    ensures trades[p].fill.sequence as int == p + 1
  {
  }

  /** A fill carries its place among the fills of its market. */
  lemma NumberInMarket(h: Hash, messages: seq<Bytes>, i: nat) returns (p: nat)
    requires Serveable(h, messages) && i < |FillsFrom(h, messages)|
    ensures var f := FillsFrom(h, messages)[i];
            && p == |MarketIsolation.FillsOf(Replay.Serve(h, messages).fills[..i], f.market)|
            && f.sequence as int == p + 1 <= CountIn(h, messages, f.market)
  {
    var fills := Replay.Serve(h, messages).fills;
    var market := fills[i].fill.market;
    hide Replay.Serve, MarketIsolation.FillsOf, MarketIsolation.FewMarkets, BookSafety.WellFormed, BookRuns.Numbered;
    MarketIsolation.EveryBookWellFormed(h, messages, market);
    p := PlaceInMarket(fills, market, i);
    FewInMarket(fills, market);
    NumberAt(MarketIsolation.FillsOf(fills, market), Replay.BookOf(Replay.Serve(h, messages), market).fillCount, p);
  }

  /** And each place of a market is that of a fill. */
  lemma FillAtPlace(h: Hash, messages: seq<Bytes>, market: Uuid, p: nat) returns (f: Fill)
    requires Serveable(h, messages) && p < CountIn(h, messages, market)
    ensures f in FillsFrom(h, messages) && f.market == market && f.sequence as int == p + 1
  {
    var fills := Replay.Serve(h, messages).fills;
    hide Replay.Serve, MarketIsolation.FewMarkets, BookSafety.WellFormed, BookRuns.Numbered;
    MarketIsolation.EveryBookWellFormed(h, messages, market);
    FewInMarket(fills, market);
    NumberAt(MarketIsolation.FillsOf(fills, market), Replay.BookOf(Replay.Serve(h, messages), market).fillCount, p);
    var i := IndexInRun(fills, market, p);
    f := fills[i].fill;
    assert FillsFrom(h, messages)[i] == f;
  }

  lemma {:induction false} IndexInRun(fills: seq<Trade>, market: Uuid, p: nat) returns (i: nat)
    requires p < |MarketIsolation.FillsOf(fills, market)|
    ensures i < |fills| && fills[i] == MarketIsolation.FillsOf(fills, market)[p] && fills[i].fill.market == market
  {
    var rest := fills[..|fills| - 1];
    if p < |MarketIsolation.FillsOf(rest, market)| {
      i := IndexInRun(rest, market, p);
    } else {
      i := |fills| - 1;
    }
  }

  /** In one engine run no two fills of a market have the same sequence number, as long as a market has fewer
      than 2^64 fills. */
  lemma EngineFillsDistinct(h: Hash, messages: seq<Bytes>)
    requires Serveable(h, messages)
    ensures DistinctKeys(FillsFrom(h, messages))
  {
    var fills, fs := Replay.Serve(h, messages).fills, FillsFrom(h, messages);
    hide Replay.Serve, MarketIsolation.FillsOf, Serveable;
    forall i, k | 0 <= i < k < |fs| && fs[i].market == fs[k].market ensures fs[i].sequence != fs[k].sequence {
      var p := NumberInMarket(h, messages, i);
      var q := NumberInMarket(h, messages, k);
      PlacesGrow(fills, fs[i].market, i, k);
    }
  }

  // ----- an engine that is started again

  /** A restarted engine numbers its fills from 1 again. One of them carries a key of the run before exactly if its
      number is not above the fills that run made in its market. */
  lemma KeyKnownExactly(h: Hash, a: seq<Bytes>, b: seq<Bytes>, f: Fill)
    requires Serveable(h, a) && Serveable(h, b) && f in FillsFrom(h, b)
    ensures KeyOf(f) in Keys(FillsFrom(h, a)) <==> f.sequence as int <= CountIn(h, a, f.market)
  {
    hide FillsFrom, CountIn, Serveable;
    if KeyOf(f) in Keys(FillsFrom(h, a)) {
      var g :| g in FillsFrom(h, a) && KeyOf(g) == KeyOf(f);
      var i :| 0 <= i < |FillsFrom(h, a)| && FillsFrom(h, a)[i] == g;
      var p := NumberInMarket(h, a, i);
    }
    if f.sequence as int <= CountIn(h, a, f.market) {
      var k :| 0 <= k < |FillsFrom(h, b)| && FillsFrom(h, b)[k] == f;
      var q := NumberInMarket(h, b, k);
      var g := FillAtPlace(h, a, f.market, q);
      assert KeyOf(g) == KeyOf(f);
    }
  }

  /** Two runs of the engine make fills with keys of their own exactly if they have no fills in a common market. */
  lemma RestartDistinctExactly(h: Hash, a: seq<Bytes>, b: seq<Bytes>)
    requires Serveable(h, a) && Serveable(h, b)
    ensures DistinctKeys(FillsFrom(h, a) + FillsFrom(h, b))
            <==> forall m :: CountIn(h, a, m) == 0 || CountIn(h, b, m) == 0
  {
    var fs, gs := FillsFrom(h, a), FillsFrom(h, b);
    hide FillsFrom, CountIn, Serveable;
    if m :| CountIn(h, a, m) > 0 && CountIn(h, b, m) > 0 {
      var f := FillAtPlace(h, a, m, 0);
      var g := FillAtPlace(h, b, m, 0);
      NotDistinct(fs, gs, f, g);
    } else {
      EngineFillsDistinct(h, a);
      EngineFillsDistinct(h, b);
      forall f, g | f in fs && g in gs ensures KeyOf(f) != KeyOf(g) {
        var i :| 0 <= i < |fs| && fs[i] == f;
        var k :| 0 <= k < |gs| && gs[k] == g;
        var p := NumberInMarket(h, a, i);
        var q := NumberInMarket(h, b, k);
      }
      DistinctJoined(fs, gs);
    }
  }

  lemma NotDistinct(fs: seq<Fill>, gs: seq<Fill>, f: Fill, g: Fill)
    requires f in fs && g in gs && KeyOf(f) == KeyOf(g)
    ensures !DistinctKeys(fs + gs)
  {
    var i :| 0 <= i < |fs| && fs[i] == f;
    var k :| 0 <= k < |gs| && gs[k] == g;
    assert (fs + gs)[i] == f && (fs + gs)[|fs| + k] == g;
  }

  lemma DistinctJoined(fs: seq<Fill>, gs: seq<Fill>)
    requires DistinctKeys(fs) && DistinctKeys(gs) && forall f, g :: f in fs && g in gs ==> KeyOf(f) != KeyOf(g)
    ensures DistinctKeys(fs + gs)
  {
    hide KeyOf;
  }

  /** The fills whose numbers go beyond the fills an earlier run made in their market. */
  function Renewed(h: Hash, a: seq<Bytes>, fs: seq<Fill>): seq<Fill> {
    if fs == [] then []
    else
      var last := fs[|fs| - 1];
      Renewed(h, a, fs[..|fs| - 1]) + if last.sequence as int <= CountIn(h, a, last.market) then [] else [last]
  }

  lemma {:induction false} RenewedIsUnseen(h: Hash, a: seq<Bytes>, b: seq<Bytes>, fs: seq<Fill>)
    requires Serveable(h, a) && Serveable(h, b) && forall f :: f in fs ==> f in FillsFrom(h, b)
    ensures Renewed(h, a, fs) == Unseen(FillsFrom(h, a), fs)
  {
    hide FillsFrom, CountIn, Serveable;
    if fs != [] {
      RenewedIsUnseen(h, a, b, fs[..|fs| - 1]);
      KeyKnownExactly(h, a, b, fs[|fs| - 1]);
    }
  }

  /** What a restart costs: of the second run's fills exactly those numbered up to the first run's fills in their
      market are lost to the positions. */
  lemma RestartPositions(h: Hash, a: seq<Bytes>, b: seq<Bytes>, user: Uuid, market: Uuid)
    requires Serveable(h, a) && Serveable(h, b)
    requires QuantitiesFit(FillsFrom(h, a)) && QuantitiesFit(FillsFrom(h, b))
    ensures Net(Deliver(FillsFrom(h, a) + FillsFrom(h, b)).changes, user, market)
            == DirectNet(FillsFrom(h, a), user, market) + DirectNet(Renewed(h, a, FillsFrom(h, b)), user, market)
  {
    EngineFillsDistinct(h, a);
    EngineFillsDistinct(h, b);
    EngineFillsAcceptable(h, a);
    EngineFillsAcceptable(h, b);
    hide FillsFrom, Acceptable, Serveable, QuantitiesFit, Deliver;
    SecondRunIsDropped(FillsFrom(h, a), FillsFrom(h, b), user, market);
    DeliveredOnce(FillsFrom(h, a), user, market);
    RenewedIsUnseen(h, a, b, FillsFrom(h, b));
  }

  /** However the fills of two runs are delivered, in any order, mixed and repeated: in each market one fill counts for
      each number up to the larger of the two runs' fills there, the one that came first. */
  lemma RestartDeliveries(h: Hash, a: seq<Bytes>, b: seq<Bytes>, delivery: seq<Fill>, user: Uuid, market: Uuid)
    requires Serveable(h, a) && Serveable(h, b)
    requires QuantitiesFit(FillsFrom(h, a)) && QuantitiesFit(FillsFrom(h, b))
    requires SameFills(FillsFrom(h, a) + FillsFrom(h, b), delivery)
    ensures Net(Deliver(delivery).changes, user, market) == DirectNet(Firsts(delivery), user, market)
    ensures DistinctKeys(Firsts(delivery))
    ensures forall f :: f in Firsts(delivery) ==> f in FillsFrom(h, a) || f in FillsFrom(h, b)
    ensures forall s: u64 :: (market, s) in Keys(Firsts(delivery)) <==>
                               1 <= s as int <= Max(CountIn(h, a, market), CountIn(h, b, market))
  {
    var fs, gs := FillsFrom(h, a), FillsFrom(h, b);
    EngineFillsAcceptable(h, a);
    EngineFillsAcceptable(h, b);
    hide FillsFrom, CountIn, Serveable, QuantitiesFit, Deliver;
    AllOf(fs, gs, delivery);
    hide AllAcceptable, Acceptable, SameFills;
    CountsFirsts(delivery, user, market);
    FirstsAre(delivery);
    forall s: u64 ensures (market, s) in Keys(delivery) <==>
                            1 <= s as int <= Max(CountIn(h, a, market), CountIn(h, b, market)) {
      KeysOfRun(h, a, market, s);
      KeysOfRun(h, b, market, s);
    }
  }

  lemma AllOf(fs: seq<Fill>, gs: seq<Fill>, delivery: seq<Fill>)
    requires AllAcceptable(fs) && AllAcceptable(gs) && SameFills(fs + gs, delivery)
    ensures AllAcceptable(delivery) && Keys(delivery) == Keys(fs) + Keys(gs)
    ensures forall f :: f in delivery <==> f in fs || f in gs
  {
    hide Acceptable, KeyOf;
    KeysJoined(fs, gs);
    forall i | 0 <= i < |delivery| ensures Acceptable(delivery[i]) {
      assert delivery[i] in fs + gs;
    }
  }

  /** The numbers of a run's fills in a market are 1, 2, 3, ... */
  lemma KeysOfRun(h: Hash, messages: seq<Bytes>, market: Uuid, s: u64)
    requires Serveable(h, messages)
    ensures (market, s) in Keys(FillsFrom(h, messages)) <==> 1 <= s as int <= CountIn(h, messages, market)
  {
    var fs := FillsFrom(h, messages);
    hide FillsFrom, CountIn, Serveable;
    if (market, s) in Keys(fs) {
      var f :| f in fs && KeyOf(f) == (market, s);
      var i :| 0 <= i < |fs| && fs[i] == f;
      var p := NumberInMarket(h, messages, i);
    }
    if 1 <= s as int <= CountIn(h, messages, market) {
      var f := FillAtPlace(h, messages, market, s as int - 1);
      assert KeyOf(f) == (market, s);
    }
  }

  lemma {:induction false} FewInMarket(fills: seq<Trade>, market: Uuid)
    ensures |MarketIsolation.FillsOf(fills, market)| <= |fills|
  {
    if fills != [] {
      FewInMarket(fills[..|fills| - 1], market);
    }
  }

  /** Quantities that a signed 64-bit column holds. */
  ghost predicate QuantitiesFit(fs: seq<Fill>) {
    forall i :: 0 <= i < |fs| ==> fs[i].quantity < 0x8000_0000_0000_0000
  }

  /** The fills table accepts every fill an engine makes whose quantity it can hold. */
  lemma EngineFillsAcceptable(h: Hash, messages: seq<Bytes>)
    requires MarketIsolation.FewMarkets(messages) && QuantitiesFit(FillsFrom(h, messages))
    ensures AllAcceptable(FillsFrom(h, messages))
  {
    hide Replay.Serve;
    var run := FillsFrom(h, messages);
    forall i | 0 <= i < |run| ensures Acceptable(run[i]) {
      EngineFillsPriced(h, messages, i);
    }
  }

  /** From the engine to the positions: however the fills of a run are delivered, each position is that of
      applying every fill exactly once. */
  lemma EngineToPositions(h: Hash, messages: seq<Bytes>, delivery: seq<Fill>, user: Uuid, market: Uuid)
    requires Serveable(h, messages) && QuantitiesFit(FillsFrom(h, messages))
    requires SameFills(FillsFrom(h, messages), delivery)
    ensures Net(Deliver(delivery).changes, user, market) == DirectNet(FillsFrom(h, messages), user, market)
  {
    EngineFillsDistinct(h, messages);
    EngineFillsAcceptable(h, messages);
    hide FillsFrom, Acceptable, Deliver, QuantitiesFit;
    ExactlyOnce(FillsFrom(h, messages), delivery, user, market);
  }

  /** The positions are what the users hold exactly where fills with a selling taker cancel out. */
  lemma EngineRecordsHeld(h: Hash, messages: seq<Bytes>, delivery: seq<Fill>, user: Uuid, market: Uuid)
    requires Serveable(h, messages) && QuantitiesFit(FillsFrom(h, messages))
    requires SameFills(FillsFrom(h, messages), delivery)
    ensures Net(Deliver(delivery).changes, user, market) == Held(FillsFrom(h, messages), user, market)
            <==> SellSide(FillsFrom(h, messages), user, market) == 0
  {
    EngineFillsDistinct(h, messages);
    EngineFillsAcceptable(h, messages);
    hide FillsFrom, Acceptable, Deliver, QuantitiesFit;
    RecordedIsHeld(FillsFrom(h, messages), delivery, user, market);
  }
}
