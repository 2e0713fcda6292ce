/** PnLTracker of api/crates/analytics/src/pnl.rs: fills open and close lots in place, price
    updates mark them, and realised profit goes to the user's balance. */
module PnlTrackers {
  import opened Types
  import opened LotSpec

  class PnLTracker {
    var positions: map<Holder, seq<Lot>>
    var userBalances: map<Uuid, int>

    ghost function State(): Tracker
      reads this
    {
      Tracker(positions, userBalances)
    }

    constructor ()
      ensures State() == Tracker(map[], map[])
    {
      positions, userBalances := map[], map[];
    }

    method UpdateBalance(user: Uuid, pnl: int)
      modifies this`userBalances
      ensures userBalances == old(userBalances)[user := BalanceOf(old(State()), user) + pnl]
    {
      var balance := if user in userBalances then userBalances[user] else 0;
      userBalances := userBalances[user := balance + pnl];
    }

    /** The retain loop of a sell: goes over the lots in order and keeps what is not closed. */
    method CloseLots(lots: seq<Lot>, quantity: nat, price: nat) returns (kept: seq<Lot>, realized: int)
      ensures kept == Kept(lots, quantity) && realized == Realized(lots, quantity, price)
    {
      hide Gain, Kept, Realized, Smaller;
      kept, realized := [], 0;
      var remaining: nat := quantity;
      assert lots[0..] == lots;
      ghost var left, due := Kept(lots, quantity), Realized(lots, quantity, price);
      for i := 0 to |lots|
        invariant left == Kept(lots[i..], remaining) && kept + left == Kept(lots, quantity)
        invariant due == Realized(lots[i..], remaining, price) && realized + due == Realized(lots, quantity, price)
      {
        var lot := lots[i];
        LotStep(lots, i, remaining, price);
        var closed := Smaller(remaining, lot.quantity);
        ghost var rest := Kept(lots[i + 1..], remaining - closed);
        if remaining == 0 {
          Regrouped(kept, [lot], rest);
          kept := kept + [lot];
        } else {
          realized := realized + Gain(price, lot.entry, closed);
          remaining := remaining - closed;
          if closed < lot.quantity {
            Regrouped(kept, [lot.(quantity := lot.quantity - closed)], rest);
            kept := kept + [lot.(quantity := lot.quantity - closed)];
          }
        }
        left, due := rest, Realized(lots[i + 1..], remaining, price);
      }
      NothingLeft(remaining, price);
      assert lots[|lots|..] == [];
    }

    /** A buy opens a lot; a sell closes the oldest and books the profit. */
    method RecordFill(user: Uuid, market: Uuid, aggressor: Side, price: nat, quantity: nat, current: real)
      modifies this
      ensures State() == Next(old(State()), if aggressor.Buy? then Event.Buy(user, market, price, quantity, current)
                                            else Event.Sell(user, market, price, quantity))
    {
      var lots := if (user, market) in positions then positions[(user, market)] else [];
      if aggressor == Side.Buy {
        positions := positions[(user, market) := lots + [NewLot(price, quantity, current)]];
      } else {
        var kept, realized := CloseLots(lots, quantity, price);
        positions := positions[(user, market) := kept];
        UpdateBalance(user, realized);
      }
    }

    /** Marks every user's lots in the market. */
    method UpdatePrices(market: Uuid, price: real)
      modifies this`positions
      ensures State() == Next(old(State()), Mark(market, price))
      ensures MarkedAt(old(positions), positions, market, price)
    {
      hide MarkedAt, Next, MarkedAll, Reached;
      MarkMarks(State(), market, price);
      ghost var before := positions;
      var holders := positions.Keys;
      NoneReached(before, market, price);
      while holders != {}
        invariant Reached(before, positions, holders, market, price)
        decreases |holders|
      {
        var k :| k in holders;
        OneReached(before, positions, holders, market, price, k);
        if k.1 == market {
          var lots := MarkLots(positions[k], price);
          positions := positions[k := lots];
        }
        holders := holders - {k};
      }
      AllReached(Tracker(before, userBalances), positions, market, price);
    }

    method MarkLots(lots: seq<Lot>, price: real) returns (marked: seq<Lot>)
      ensures marked == MarkedAll(lots, price)
    {
      marked := lots;
      for i := 0 to |lots|
        invariant |marked| == |lots|
        invariant forall k :: 0 <= k < i ==> marked[k] == Marked(lots[k], price)
        invariant forall k :: i <= k < |lots| ==> marked[k] == lots[k]
      {
        marked := marked[i := Marked(marked[i], price)];
      }
    }
  }

  /** The holders in the market that are not left have been marked; no other lots have changed. */
  ghost predicate Reached(before: map<Holder, seq<Lot>>, lots: map<Holder, seq<Lot>>, left: set<Holder>, market: Uuid,
                          price: real) {
    && left <= before.Keys && lots.Keys == before.Keys
    && forall k :: k in before ==>
         lots[k] == if k.1 == market && k !in left then MarkedAll(before[k], price) else before[k]
  }

  lemma NoneReached(before: map<Holder, seq<Lot>>, market: Uuid, price: real)
    ensures Reached(before, before, before.Keys, market, price)
  {
  }

  lemma OneReached(before: map<Holder, seq<Lot>>, lots: map<Holder, seq<Lot>>, left: set<Holder>, market: Uuid,
                   price: real, k: Holder)
    requires Reached(before, lots, left, market, price) && k in left
    ensures k in lots
    ensures var lots' := if k.1 == market then lots[k := MarkedAll(lots[k], price)] else lots;
            Reached(before, lots', left - {k}, market, price)
  {
    hide MarkedAll;
  }

  lemma AllReached(t: Tracker, lots: map<Holder, seq<Lot>>, market: Uuid, price: real)
    requires Reached(t.lots, lots, {}, market, price)
    ensures Next(t, Mark(market, price)) == t.(lots := lots)
  {
    hide MarkedAll;
  }

  lemma LotStep(lots: seq<Lot>, i: nat, remaining: nat, price: nat)
    requires i < |lots|
    ensures var lot, rest := lots[i], lots[i + 1..];
            var closed := Smaller(remaining, lot.quantity);
            && closed <= remaining && closed <= lot.quantity && (remaining == 0 ==> closed == 0)
            && Realized(lots[i..], remaining, price)
               == (if remaining == 0 then 0 else Gain(price, lot.entry, closed))
                  + Realized(rest, remaining - closed, price)
            && Kept(lots[i..], remaining)
               == if remaining == 0 then [lot] + Kept(rest, remaining - closed)
                  else if closed < lot.quantity then [lot.(quantity := lot.quantity - closed)]
                      + Kept(rest, remaining - closed)
                  else Kept(rest, remaining - closed)
  {
    hide Gain;
    assert lots[i..][1..] == lots[i + 1..] && lots[i..] == [lots[i]] + lots[i + 1..];
  }

  lemma NothingLeft(n: nat, price: nat)
    ensures Kept([], n) == [] && Realized([], n, price) == 0
  {
  }
}
