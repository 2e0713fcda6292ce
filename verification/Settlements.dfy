/** The settlement service as it updates its tables (api/crates/settlement/src/lib.rs,
    db/src/balances.rs). */
module Settlements {
  import opened Types
  import opened PositionSpec
  import opened SettlementSpec
  import LedgerSpec
  import Ledgers

  // ----- paying out

  /** The credits of a settlement, one after the other, all or none. */
  function PayAll(t: LedgerSpec.Tables, ps: seq<Payout>): LedgerSpec.Outcome {
    if ps == [] then LedgerSpec.Committed(t)
    else
      var before := PayAll(t, ps[..|ps| - 1]);
      if before.RolledBack? then before
      else LedgerSpec.Credit(before.tables, ps[|ps| - 1].user, ps[|ps| - 1].amount)
  }

  /** Each user's available balance grows by what the user is paid; nothing else changes. */
  lemma {:induction false} PayAllIs(t: LedgerSpec.Tables, ps: seq<Payout>, user: Uuid)
    requires PayAll(t, ps).Committed?
    ensures var t' := PayAll(t, ps).tables;
            && LedgerSpec.BalanceOf(t', user).available == LedgerSpec.BalanceOf(t, user).available + PaidTo(ps, user)
            && LedgerSpec.BalanceOf(t', user).reserved == LedgerSpec.BalanceOf(t, user).reserved
            && t'.withdrawals == t.withdrawals && t'.holds == t.holds && t'.deposits == t.deposits
  {
    if ps != [] {
      PayAllIs(t, ps[..|ps| - 1], user);
    }
  }

  datatype MarketStatus = Open | Paused | Settled | Cancelled
  datatype MarketRow = MarketRow(status: MarketStatus, resolvesAt: Option<int>, outcome: Option<Verdict>)
  datatype Refusal = MarketNotFound | BadStatus | TooEarly | RowsUnreadable | PaymentFailed

  /** UPDATE markets SET status = 'settled' ... WHERE id = market, which passes over a market that is not there. */
  function MarkedSettled(markets: map<Uuid, MarketRow>, market: Uuid, verdict: Verdict): map<Uuid, MarketRow> {
    if market in markets then markets[market := SettledRow(markets[market], verdict)] else markets
  }

  /** The market has the status settled and the outcome given; nothing else has changed. */
  ghost predicate IsSettled(before: map<Uuid, MarketRow>, after: map<Uuid, MarketRow>, market: Uuid, verdict: Verdict) {
    && market in before && after.Keys == before.Keys
    && after[market].status == Settled && after[market].outcome == Some(verdict)
    && after[market].resolvesAt == before[market].resolvesAt
    && forall m :: m in before && m != market ==> after[m] == before[m]
  }

  function SettledRow(row: MarketRow, verdict: Verdict): MarketRow {
    row.(status := Settled, outcome := Some(verdict))
  }

  predicate Settleable(markets: map<Uuid, MarketRow>, market: Uuid, now: int) {
    && market in markets && (markets[market].status.Open? || markets[market].status.Paused?)
    && (markets[market].resolvesAt.Some? ==> now >= markets[market].resolvesAt.value)
  }

  class SettlementService {
    const db: Ledgers.Db
    var markets: map<Uuid, MarketRow>

    constructor (db: Ledgers.Db, markets: map<Uuid, MarketRow>)
      ensures this.db == db && this.markets == markets
    {
      this.db, this.markets := db, markets;
    }

    /** One transaction: the market's status, then a credit for each payout. */
    method ApplySettlementPayouts(market: Uuid, verdict: Verdict, payouts: seq<Payout>) returns (ok: bool)
      requires db.Valid()
      modifies this`markets, db
      ensures db.Valid()
      ensures var paid := PayAll(old(db.State()), payouts);
              && (ok <==> paid.Committed?)
              && db.State() == (if ok then paid.tables else old(db.State()))
              && markets == if ok then MarkedSettled(old(markets), market, verdict) else old(markets)
      ensures ok && market in old(markets) ==> IsSettled(old(markets), markets, market, verdict)
      ensures !ok || market !in old(markets) ==> markets == old(markets)
    {
      var rows, b, w, h, d := markets, db.balances, db.withdrawals, db.holds, db.deposits;
      ghost var t := db.State();
      if market in markets {
        markets := markets[market := SettledRow(markets[market], verdict)];
      }
      for i := 0 to |payouts|
        invariant markets == MarkedSettled(rows, market, verdict)
        invariant db.Valid() && PayAll(t, payouts[..i]) == LedgerSpec.Committed(db.State())
      {
        assert payouts[..i + 1][..i] == payouts[..i];
        ok := db.UpsertAvailable(payouts[i].user, payouts[i].amount);
        if !ok {
          FailureStays(t, payouts, i + 1);
          markets := rows;
          db.Restore(b, w, h, d);
          return;
        }
      }
      assert payouts[..|payouts|] == payouts;
      return true;
    }

    /** Settles a market on the rows of the position query. A market is settled at most once. If fits, the row type
        decodes the query's rows; otherwise reading any row fails, and a market in which anyone has a position cannot
        be settled. */
    method Settle(market: Uuid, verdict: Verdict, now: int, fits: bool, rows: seq<Row>, ghost cs: seq<Change>)
      returns (total: int, failure: Option<Refusal>)
      requires db.Valid() && IsQuery(rows, cs, market)
      modifies this`markets, db
      ensures db.Valid()
      ensures failure.None? <==>
                && Settleable(old(markets), market, now)
                && (fits || forall u :: Net(cs, u, market) == 0)
                && PayAll(old(db.State()), PayoutsOf(rows, verdict)).Committed?
      ensures failure.None? ==>
                && (old(markets)[market].status == Open || old(markets)[market].status == Paused)
                && (old(markets)[market].resolvesAt == None || now >= old(markets)[market].resolvesAt.value)
      ensures failure == Some(MarketNotFound) <==> market !in old(markets)
      ensures failure == Some(BadStatus) <==>
                market in old(markets) && old(markets)[market].status != Open && old(markets)[market].status != Paused
      ensures failure == Some(TooEarly) <==>
                && market in old(markets)
                && (old(markets)[market].status == Open || old(markets)[market].status == Paused)
                && old(markets)[market].resolvesAt.Some? && now < old(markets)[market].resolvesAt.value
      ensures failure.None? ==>
                && total == (if verdict.Yes? then RowSum(rows, Long) else 0)
                && IsSettled(old(markets), markets, market, verdict)
                && forall u :: LedgerSpec.BalanceOf(db.State(), u).available
                               == LedgerSpec.BalanceOf(old(db.State()), u).available
                                  + if verdict.Yes? then Long(Net(cs, u, market)) else 0
      ensures failure.None? ==> forall later :: !Settleable(markets, market, later)
      ensures failure.Some? ==> markets == old(markets) && db.State() == old(db.State())
    {
      total := 0;
      if market !in markets {
        return 0, Some(MarketNotFound);
      }
      if markets[market].status != Open && markets[market].status != Paused {
        return 0, Some(BadStatus);
      }
      if markets[market].resolvesAt.Some? && now < markets[market].resolvesAt.value {
        return 0, Some(TooEarly);
      }
      NobodyHasARow(rows, cs, market);
      if !fits && rows != [] {
        return 0, Some(RowsUnreadable);
      }
      ghost var t := db.State();
      var payouts, sum := ComputePayouts(rows, verdict);
      var ok := ApplySettlementPayouts(market, verdict, payouts);
      if !ok {
        return 0, Some(PaymentFailed);
      }
      forall u ensures LedgerSpec.BalanceOf(db.State(), u).available
                       == LedgerSpec.BalanceOf(t, u).available + if verdict.Yes? then Long(Net(cs, u, market)) else 0 {
        PayAllIs(t, payouts, u);
        EachIsPaidTheirShares(cs, market, rows, u);
      }
      return sum, None;
    }
  }

  lemma {:induction false} FailureStays(t: LedgerSpec.Tables, ps: seq<Payout>, k: nat)
    requires k <= |ps| && PayAll(t, ps[..k]).RolledBack?
    ensures PayAll(t, ps).RolledBack?
    decreases |ps| - k
  {
    if k == |ps| {
      assert ps[..k] == ps;
    } else {
      assert ps[..k + 1][..k] == ps[..k];
      FailureStays(t, ps, k + 1);
    }
  }
}
