/** What a settlement pays (api/crates/settlement/src/lib.rs): long positions get one unit a share
    when the outcome is Yes, nobody gets anything when it is No. */
module SettlementSpec {
  import opened Types
  import opened BookSpec
  import opened MapSums
  import opened PositionSpec

  datatype Verdict = Yes | No

  /** A row of get_user_positions, and a payout. */
  datatype Row = Row(user: Uuid, net: int)
  datatype Payout = Payout(user: Uuid, amount: int)

  /** rows is the answer of the grouped sum for a market, in any order: each user with a position, once. */
  ghost predicate IsQuery(rows: seq<Row>, cs: seq<Change>, market: Uuid) {
    RowsOf(rows, Positions(cs, market))
  }

  ghost predicate RowsOf(rows: seq<Row>, m: map<Uuid, int>) {
    && (forall i :: 0 <= i < |rows| ==> rows[i].user in m && rows[i].net == m[rows[i].user] != 0)
    && (forall i, k :: 0 <= i < k < |rows| ==> rows[i].user != rows[k].user)
    && (forall u :: u in m && m[u] != 0 ==> Row(u, m[u]) in rows)
  }

  function PayoutsOf(rows: seq<Row>, verdict: Verdict): seq<Payout> {
    if rows == [] then []
    else
      var rest, last := PayoutsOf(rows[..|rows| - 1], verdict), rows[|rows| - 1];
      if last.net > 0 && verdict.Yes? then rest + [Payout(last.user, last.net)] else rest
  }

  function TotalOf(ps: seq<Payout>): int {
    if ps == [] then 0 else TotalOf(ps[..|ps| - 1]) + ps[|ps| - 1].amount
  }

  /** The loops of settle: filter_map over the rows, and the sum of the amounts. */
  method ComputePayouts(rows: seq<Row>, verdict: Verdict) returns (payouts: seq<Payout>, total: int)
    ensures payouts == PayoutsOf(rows, verdict) && total == TotalOf(payouts)
    ensures verdict.No? ==> payouts == [] && total == 0
    ensures verdict.Yes? ==> total == RowSum(rows, Long)
  {
    payouts := [];
    for i := 0 to |rows|
      invariant payouts == PayoutsOf(rows[..i], verdict)
    {
      assert rows[..i + 1][..i] == rows[..i];
      var net := rows[i].net;
      if net > 0 {
        var amount := if verdict.Yes? then net else 0;
        if amount != 0 {
          payouts := payouts + [Payout(rows[i].user, amount)];
        }
      }
    }
    assert rows[..|rows|] == rows;
    total := 0;
    for i := 0 to |payouts|
      invariant total == TotalOf(payouts[..i])
    {
      assert payouts[..i + 1][..i] == payouts[..i];
      total := total + payouts[i].amount;
    }
    assert payouts[..|payouts|] == payouts;
    PayoutTotal(rows, verdict);
  }

  // ----- sums over rows

  function Long(net: int): int {
    if net > 0 then net else 0
  }

  function Short(net: int): int {
    if net < 0 then -net else 0
  }

  function RowSum(rows: seq<Row>, g: int -> int): int {
    if rows == [] then 0 else RowSum(rows[..|rows| - 1], g) + g(rows[|rows| - 1].net)
  }

  ghost function Mapped(m: map<Uuid, int>, g: int -> int): map<Uuid, int> {
    map u | u in m :: g(m[u])
  }

  lemma {:induction false} PayoutTotal(rows: seq<Row>, verdict: Verdict)
    ensures verdict.No? ==> PayoutsOf(rows, verdict) == []
    ensures verdict.Yes? ==> TotalOf(PayoutsOf(rows, verdict)) == RowSum(rows, Long)
  {
    if rows != [] {
      var rest, last := rows[..|rows| - 1], rows[|rows| - 1];
      PayoutTotal(rest, verdict);
      if verdict.Yes? && last.net > 0 {
        var ps := PayoutsOf(rest, verdict) + [Payout(last.user, last.net)];
        assert ps[..|ps| - 1] == PayoutsOf(rest, verdict);
      }
    }
  }

  lemma {:induction false} AllZero(m: map<Uuid, int>)
    requires forall u :: u in m ==> m[u] == 0
    ensures Sum(m) == 0
  {
    if m != map[] {
      var u :| u in m;
      SumRemove(m, u);
      AllZero(m - {u});
    }
  }

  /** Summing over the rows is summing over all positions: users without a row have no position. */
  lemma {:induction false} RowsCover(rows: seq<Row>, m: map<Uuid, int>, g: int -> int)
    requires RowsOf(rows, m) && g(0) == 0
    ensures RowSum(rows, g) == Sum(Mapped(m, g))
  {
    if rows == [] {
      AllZero(Mapped(m, g));
    } else {
      var rest, last := rows[..|rows| - 1], rows[|rows| - 1];
      var m' := m - {last.user};
      RestOf(rows, m);
      RowsCover(rest, m', g);
      assert Mapped(m, g) - {last.user} == Mapped(m', g);
      SumRemove(Mapped(m, g), last.user);
    }
  }

  lemma RestOf(rows: seq<Row>, m: map<Uuid, int>)
    requires RowsOf(rows, m) && rows != []
    ensures RowsOf(rows[..|rows| - 1], m - {rows[|rows| - 1].user})
  {
    var rest, last := rows[..|rows| - 1], rows[|rows| - 1];
    var m' := m - {last.user};
    forall u | u in m' && m'[u] != 0 ensures Row(u, m'[u]) in rest {
      assert Row(u, m[u]) in rows && rows == rest + [last];
    }
  }

  // ----- longs, shorts and the volume traded

  lemma MappedSet(m: map<Uuid, int>, k: Uuid, v: int, g: int -> int)
    ensures Sum(Mapped(m[k := v], g)) == Sum(Mapped(m, g)) + g(v) - if k in m then g(m[k]) else 0
  {
    assert Mapped(m[k := v], g) == Mapped(m, g)[k := g(v)];
    SumSet(Mapped(m, g), k, g(v));
  }

  /** One more change raises the long total by at most its positive part. */
  lemma LongsAppended(cs: seq<Change>, c: Change, market: Uuid)
    ensures Sum(Mapped(Positions(cs + [c], market), Long))
            <= Sum(Mapped(Positions(cs, market), Long)) + if c.market == market then Long(c.delta) else 0
  {
    var ps, u := Positions(cs, market), c.user;
    PositionsAppended(cs, c, market);
    PositionAt(cs, u, market);
    hide Positions, Net, Sum;
    MappedSet(ps, u, Net(cs, u, market) + c.delta, Long);
  }

  ghost function Volumes(fills: map<Key, Fill>, market: Uuid): map<Key, int> {
    map k | k in fills :: if fills[k].market == market then fills[k].quantity else 0
  }

  /** The quantity traded in a market. */
  ghost function Volume(fills: map<Key, Fill>, market: Uuid): int {
    Sum(Volumes(fills, market))
  }

  lemma VolumeAdded(fills: map<Key, Fill>, f: Fill, market: Uuid)
    requires KeyOf(f) !in fills
    ensures Volume(fills[KeyOf(f) := f], market) == Volume(fills, market) + if f.market == market then f.quantity else 0
  {
    var v := if f.market == market then f.quantity else 0;
    assert Volumes(fills[KeyOf(f) := f], market) == Volumes(fills, market)[KeyOf(f) := v];
    SumInsert(Volumes(fills, market), KeyOf(f), v);
  }

  lemma {:induction false} LongsWithinVolume(fs: seq<Fill>, market: Uuid)
    ensures Sum(Mapped(Positions(Deliver(fs).changes, market), Long)) <= Volume(Deliver(fs).fills, market)
  {
    if fs == [] {
      assert Mapped(Positions([], market), Long) == map[] && Volumes(map[], market) == map[];
    } else {
      var rest, f := fs[..|fs| - 1], fs[|fs| - 1];
      LongsWithinVolume(rest, market);
      LongsStep(Deliver(rest), f, market);
    }
  }

  lemma LongsStep(j: Journal, f: Fill, market: Uuid)
    ensures Sum(Mapped(Positions(Process(j, f).changes, market), Long))
            - Sum(Mapped(Positions(j.changes, market), Long))
            <= Volume(Process(j, f).fills, market) - Volume(j.fills, market)
  {
    if Acceptable(f) && KeyOf(f) !in j.fills {
      var a, b := Change(f.takerUser, f.market, AsI64(f.quantity)), Change(f.makerUser, f.market, -AsI64(f.quantity));
      assert 0 < AsI64(f.quantity) == f.quantity;
      assert Process(j, f) == Journal(j.fills[KeyOf(f) := f], j.changes + [a, b]);
      hide Positions, Sum, Volume, Mapped, Acceptable, Process, AsI64, KeyOf;
      LongsAppendedTwice(j.changes, a, b, market);
      VolumeAdded(j.fills, f, market);
    }
  }

  lemma LongsAppendedTwice(cs: seq<Change>, a: Change, b: Change, market: Uuid)
    requires a.market == b.market
    ensures Sum(Mapped(Positions(cs + [a, b], market), Long))
            <= Sum(Mapped(Positions(cs, market), Long))
               + if a.market == market then Long(a.delta) + Long(b.delta) else 0
  {
    hide Positions, Sum, Mapped;
    assert cs + [a, b] == (cs + [a]) + [b];
    LongsAppended(cs, a, market);
    LongsAppended(cs + [a], b, market);
  }

  lemma LongsAreShorts(m: map<Uuid, int>)
    requires Sum(m) == 0
    ensures Sum(Mapped(m, Long)) == Sum(Mapped(m, Short))
  {
    SumAdd(Mapped(m, Long), m, Mapped(m, Short));
  }

  /** The query has no rows exactly if nobody has a position. */
  lemma NobodyHasARow(rows: seq<Row>, cs: seq<Change>, market: Uuid)
    requires IsQuery(rows, cs, market)
    ensures rows == [] <==> forall u :: Net(cs, u, market) == 0
  {
    var m := Positions(cs, market);
    forall u ensures Net(cs, u, market) == if u in m then m[u] else 0 {
      PositionAt(cs, u, market);
    }
    hide Positions, Net;
    if rows != [] {
      assert Net(cs, rows[0].user, market) == rows[0].net != 0;
    }
  }

  // ----- main result

  /** After any delivery of fills, and whatever order the rows come in: a Yes settlement pays exactly what the
      holders of short positions are short of, at most the quantity traded in the market; a No settlement pays
      nothing. */
  lemma PayoutIsShorts(fs: seq<Fill>, market: Uuid, rows: seq<Row>)
    requires IsQuery(rows, Deliver(fs).changes, market)
    ensures TotalOf(PayoutsOf(rows, Yes)) == RowSum(rows, Short) <= Volume(Deliver(fs).fills, market)
    ensures PayoutsOf(rows, No) == []
  {
    var m := Positions(Deliver(fs).changes, market);
    PayoutTotal(rows, Yes);
    PayoutTotal(rows, No);
    RowsCover(rows, m, Long);
    RowsCover(rows, m, Short);
    ZeroSum(fs, market);
    LongsAreShorts(m);
    LongsWithinVolume(fs, market);
  }

  /** What a user is paid. */
  function PaidTo(ps: seq<Payout>, user: Uuid): int {
    if ps == [] then 0 else PaidTo(ps[..|ps| - 1], user) + if ps[|ps| - 1].user == user then ps[|ps| - 1].amount else 0
  }

  lemma PaidAppended(ps: seq<Payout>, p: Payout, user: Uuid)
    ensures PaidTo(ps + [p], user) == PaidTo(ps, user) + if p.user == user then p.amount else 0
  {
    assert (ps + [p])[..|ps|] == ps;
  }

  lemma {:induction false} PaidFromMap(rows: seq<Row>, m: map<Uuid, int>, user: Uuid)
    requires RowsOf(rows, m)
    ensures PaidTo(PayoutsOf(rows, Yes), user) == if user in m then Long(m[user]) else 0
  {
    if rows != [] {
      var rest, last := rows[..|rows| - 1], rows[|rows| - 1];
      RestOf(rows, m);
      PaidFromMap(rest, m - {last.user}, user);
      PaidAppended(PayoutsOf(rest, Yes), Payout(last.user, last.net), user);
    }
  }

  /** A Yes settlement pays each user one unit for each share the changes record, and nothing to the others. */
  lemma EachIsPaidTheirShares(cs: seq<Change>, market: Uuid, rows: seq<Row>, user: Uuid)
    requires IsQuery(rows, cs, market)
    ensures PaidTo(PayoutsOf(rows, Yes), user) == Long(Net(cs, user, market))
  {
    PaidFromMap(rows, Positions(cs, market), user);
    PositionAt(cs, user, market);
  }

  /** After any delivery of a run's fills, a Yes settlement pays a user for the shares held exactly if the user's
      fills with a selling taker cancel out, or the user is long neither in truth nor on record. */
  lemma PaidForShares(run: seq<Fill>, delivery: seq<Fill>, market: Uuid, rows: seq<Row>, user: Uuid)
    requires DistinctKeys(run) && AllAcceptable(run) && SameFills(run, delivery)
    requires IsQuery(rows, Deliver(delivery).changes, market)
    ensures PaidTo(PayoutsOf(rows, Yes), user) == Long(Held(run, user, market)) <==>
              || SellSide(run, user, market) == 0
              || (Held(run, user, market) <= 0 && Held(run, user, market) + 2 * SellSide(run, user, market) <= 0)
  {
    EachIsPaidTheirShares(Deliver(delivery).changes, market, rows, user);
    RecordedIsHeld(run, delivery, user, market);
  }
}
