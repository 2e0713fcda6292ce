/** The fill processor as it updates its tables (api/crates/positions/src/lib.rs, db/src/fills.rs,
    positions.rs, balances.rs), and when a whole subscription goes through. */
module FillProcessors {
  import opened Types
  import opened BookSpec
  import opened PositionSpec
  import opened OrderFills
  import LedgerSpec
  import Ledgers

  // ----- receiving fills

  datatype Insertion = Inserted | Duplicate | Refused

  /** price * quantity / 10000 in signed 64 bits, or 0 if the product does not fit. */
  function FillCost(f: Fill): LedgerSpec.i64
    requires Acceptable(f)
  {
    var product := f.price as int * AsI64(f.quantity);
    if product <= LedgerSpec.MAX_I64 then product / 10000 else 0
  }

  /** The cost of a fill is its price times its quantity in units of ten thousand, rounded down; nothing if the product
      does not fit 64 bits. */
  lemma FillCostIs(f: Fill)
    requires Acceptable(f)
    ensures var product, cost := f.price as int * f.quantity as int, FillCost(f) as int;
            if product <= 0x7FFF_FFFF_FFFF_FFFF then 10000 * cost <= product < 10000 * (cost + 1) else cost == 0
  {
  }

  /** The cost leaves the reserved balances of taker and maker, not below zero, and goes to the available balance of the
      maker; nothing else moves. */
  ghost predicate CostMoved(t: LedgerSpec.Tables, t': LedgerSpec.Tables, f: Fill, cost: int) {
    && t' == t.(balances := t'.balances) && t'.balances.Keys == t.balances.Keys
    && forall u :: u in t.balances ==>
         var taken := (if u == f.takerUser then cost else 0) + (if u == f.makerUser then cost else 0);
         && t'.balances[u].available == t.balances[u].available + (if u == f.makerUser then cost else 0)
         && t'.balances[u].reserved
            == if t.balances[u].reserved <= taken then 0 else t.balances[u].reserved - taken
  }

  lemma TradeMoves(t: LedgerSpec.Tables, f: Fill, cost: LedgerSpec.i64)
    requires LedgerSpec.BalancesOk(t) && cost >= 0
    requires LedgerSpec.Trade(t, f.takerUser, f.makerUser, cost).Committed?
    ensures CostMoved(t, LedgerSpec.Trade(t, f.takerUser, f.makerUser, cost).tables, f, cost)
  {
  }

  /** What a fill does to the money: if it is new, gets past its insertion and the maker's balance has room, its cost
      moves; otherwise nothing. */
  lemma PaidExactly(j: Journal, t: LedgerSpec.Tables, f: Fill, survives: nat)
    requires LedgerSpec.BalancesOk(t)
    ensures if IsNew(j, f) && survives > 0
               && (f.makerUser in t.balances ==>
                     t.balances[f.makerUser].available + FillCost(f) <= 0x7FFF_FFFF_FFFF_FFFF)
            then CostMoved(t, Paid(j, t, f, survives), f, FillCost(f))
            else Paid(j, t, f, survives) == t
  {
    if IsNew(j, f) {
      CostNotNegative(f);
      TradeCommits(t, f.takerUser, f.makerUser, FillCost(f));
      hide LedgerSpec.Trade, FillCost, Acceptable, LedgerSpec.BalancesOk, CostMoved;
      var out := LedgerSpec.Trade(t, f.takerUser, f.makerUser, FillCost(f));
      if out.Committed? { TradeMoves(t, f, FillCost(f)); }
    }
  }

  /** How far the processing of a fill comes: survives is the number of statements behind the insertion that do not
      fail for reasons outside the tables. */
  function Recorded(j: Journal, t: LedgerSpec.Tables, f: Fill, survives: nat): nat {
    if IsNew(j, f) && survives > 0 && LedgerSpec.Trade(t, f.takerUser, f.makerUser, FillCost(f)).Committed? then
      Min(survives - 1, 2)
    else 0
  }

  function Paid(j: Journal, t: LedgerSpec.Tables, f: Fill, survives: nat): LedgerSpec.Tables {
    if IsNew(j, f) && survives > 0 then
      match LedgerSpec.Trade(t, f.takerUser, f.makerUser, FillCost(f))
      case Committed(t') => t'
      case RolledBack(_) => t
    else t
  }

  // ----- a whole subscription, as a function of what comes in

  /** The fill tables and the money tables. */
  datatype Progress = Progress(journal: Journal, tables: LedgerSpec.Tables)

  function Handled(p: Progress, f: Fill, survives: nat): Progress {
    Progress(Receive(p.journal, Attempt(f, Recorded(p.journal, p.tables, f, survives))),
             Paid(p.journal, p.tables, f, survives))
  }

  function Progressed(t: LedgerSpec.Tables, fs: seq<Fill>, survives: seq<nat>): Progress
    requires |fs| == |survives|
  {
    if fs == [] then Progress(Blank, t)
    else
      var n := |fs| - 1;
      Handled(Progressed(t, fs[..n], survives[..n]), fs[n], survives[n])
  }

  function AttemptsOf(t: LedgerSpec.Tables, fs: seq<Fill>, survives: seq<nat>): seq<Attempt>
    requires |fs| == |survives|
  {
    if fs == [] then []
    else
      var n := |fs| - 1;
      var p := Progressed(t, fs[..n], survives[..n]);
      AttemptsOf(t, fs[..n], survives[..n]) + [Attempt(fs[n], Recorded(p.journal, p.tables, fs[n], survives[n]))]
  }

  lemma {:induction false} AttemptsAre(t: LedgerSpec.Tables, fs: seq<Fill>, survives: seq<nat>)
    requires |fs| == |survives|
    ensures FillsIn(AttemptsOf(t, fs, survives)) == fs
    ensures Received(AttemptsOf(t, fs, survives)) == Progressed(t, fs, survives).journal
  {
    if fs != [] {
      var n := |fs| - 1;
      AttemptsAre(t, fs[..n], survives[..n]);
      hide Receive, Recorded, Paid;
      var rest, all := AttemptsOf(t, fs[..n], survives[..n]), AttemptsOf(t, fs, survives);
      assert all[..|all| - 1] == rest && |rest| == |FillsIn(rest)| == n;
      assert FillsIn(all)[..n] == FillsIn(rest) && FillsIn(all)[n] == fs[n];
      assert fs == fs[..n] + [fs[n]] && FillsIn(all) == FillsIn(all)[..n] + [FillsIn(all)[n]];
    }
  }

  /** What the fills credit to a user's available balance: the cost of each that is the first with its key and has
      the user as maker. */
  ghost function CreditsTo(fs: seq<Fill>, user: Uuid): int {
    if fs == [] then 0
    else
      var n := |fs| - 1;
      CreditsTo(fs[..n], user) + if FirstOfItsKey(fs, n) && fs[n].makerUser == user then FillCost(fs[n]) else 0
  }

  /** The balance column has room for what the fills up to the i-th one credit to its maker. */
  ghost predicate HasRoom(t: LedgerSpec.Tables, fs: seq<Fill>, i: nat)
    requires i < |fs|
  {
    var maker := fs[i].makerUser;
    maker in t.balances ==> t.balances[maker].available + CreditsTo(fs[..i + 1], maker) <= LedgerSpec.MAX_I64
  }

  /** No first delivery of a fill is interrupted, and none finds its maker's balance column full. */
  ghost predicate GoesThrough(t: LedgerSpec.Tables, fs: seq<Fill>, survives: seq<nat>)
    requires |fs| == |survives|
  {
    forall i :: 0 <= i < |fs| && FirstOfItsKey(fs, i) ==> survives[i] >= 3 && HasRoom(t, fs, i)
  }

  /** The balances after fills that have all gone through. */
  ghost predicate Credited(t: LedgerSpec.Tables, t': LedgerSpec.Tables, fs: seq<Fill>) {
    && t'.balances.Keys == t.balances.Keys
    && forall u :: u in t.balances ==> t'.balances[u].available == t.balances[u].available + CreditsTo(fs, u)
  }

  lemma TradeCommits(t: LedgerSpec.Tables, buyer: Uuid, seller: Uuid, cost: LedgerSpec.i64)
    requires LedgerSpec.BalancesOk(t) && cost >= 0
    ensures LedgerSpec.Trade(t, buyer, seller, cost).Committed?
            <==> (seller in t.balances ==> t.balances[seller].available + cost <= LedgerSpec.MAX_I64)
    ensures LedgerSpec.Trade(t, buyer, seller, cost).Committed? ==>
              var t' := LedgerSpec.Trade(t, buyer, seller, cost).tables;
              && LedgerSpec.BalancesOk(t') && t'.balances.Keys == t.balances.Keys
              && forall u :: u in t.balances ==>
                   t'.balances[u].available == t.balances[u].available + if u == seller then cost else 0
  {
  }

  lemma PrefixGoes(t: LedgerSpec.Tables, fs: seq<Fill>, survives: seq<nat>)
    requires fs != [] && |fs| == |survives|
    ensures var n := |fs| - 1;
            GoesThrough(t, fs, survives) <==>
              && GoesThrough(t, fs[..n], survives[..n])
              && (FirstOfItsKey(fs, n) ==> survives[n] >= 3 && HasRoom(t, fs, n))
  {
    var n := |fs| - 1;
    var rest := fs[..n];
    hide Acceptable, KeyOf, CreditsTo;
    forall i | 0 <= i < n
      ensures FirstOfItsKey(rest, i) <==> FirstOfItsKey(fs, i)
      ensures HasRoom(t, rest, i) <==> HasRoom(t, fs, i)
    {
      assert rest[..i + 1] == fs[..i + 1];
      assert forall k :: 0 <= k <= i ==> rest[k] == fs[k];
    }
  }

  /** One more fill goes through exactly if both its changes are recorded. */
  lemma HandledExactly(t: LedgerSpec.Tables, p: Progress, fs: seq<Fill>, survives: nat)
    requires fs != [] && LedgerSpec.BalancesOk(p.tables) && Credited(t, p.tables, fs[..|fs| - 1])
    requires IsNew(p.journal, fs[|fs| - 1]) <==> FirstOfItsKey(fs, |fs| - 1)
    ensures var n := |fs| - 1;
            var goes := FirstOfItsKey(fs, n) ==> survives >= 3 && HasRoom(t, fs, n);
            && ((IsNew(p.journal, fs[n]) ==> Recorded(p.journal, p.tables, fs[n], survives) >= 2) <==> goes)
            && (goes ==> Credited(t, Handled(p, fs[n], survives).tables, fs))
  {
    var n := |fs| - 1;
    var f := fs[n];
    assert fs[..n + 1] == fs;
    if IsNew(p.journal, f) {
      CostNotNegative(f);
      TradeCommits(p.tables, f.takerUser, f.makerUser, FillCost(f));
      hide LedgerSpec.Trade, FillCost, Acceptable, LedgerSpec.BalancesOk, FirstOfItsKey, Receive;
    }
  }

  lemma CostNotNegative(f: Fill)
    requires Acceptable(f)
    ensures FillCost(f) >= 0
  {
    assert f.price as int * AsI64(f.quantity) >= 0;
  }

  lemma PaidKeeps(p: Progress, f: Fill, survives: nat)
    requires LedgerSpec.BalancesOk(p.tables)
    ensures LedgerSpec.BalancesOk(Handled(p, f, survives).tables)
  {
    if IsNew(p.journal, f) {
      CostNotNegative(f);
      TradeCommits(p.tables, f.takerUser, f.makerUser, FillCost(f));
      hide LedgerSpec.Trade, FillCost, Acceptable, LedgerSpec.BalancesOk;
    }
  }

  lemma {:induction false} GoesThroughExactly(t: LedgerSpec.Tables, fs: seq<Fill>, survives: seq<nat>)
    requires LedgerSpec.BalancesOk(t) && |fs| == |survives|
    ensures FirstsComplete(AttemptsOf(t, fs, survives)) <==> GoesThrough(t, fs, survives)
    ensures LedgerSpec.BalancesOk(Progressed(t, fs, survives).tables)
    ensures GoesThrough(t, fs, survives) ==> Credited(t, Progressed(t, fs, survives).tables, fs)
  {
    if fs != [] {
      hide LedgerSpec.BalancesOk, Acceptable, Recorded, Paid, Receive, FirstsComplete, GoesThrough, Credited, Handled,
           FirstOfItsKey, HasRoom, IsNew;
      var n := |fs| - 1;
      var p, rest := Progressed(t, fs[..n], survives[..n]), AttemptsOf(t, fs[..n], survives[..n]);
      GoesThroughExactly(t, fs[..n], survives[..n]);
      AttemptsAre(t, fs[..n], survives[..n]);
      PrefixGoes(t, fs, survives);
      PaidKeeps(p, fs[n], survives[n]);
      FirstsSplit(rest, Attempt(fs[n], Recorded(p.journal, p.tables, fs[n], survives[n])));
      NewIsFirst(rest, fs, p.journal);
      if GoesThrough(t, fs[..n], survives[..n]) { HandledExactly(t, p, fs, survives[n]); }
    }
  }

  lemma NewIsFirst(rest: seq<Attempt>, fs: seq<Fill>, j: Journal)
    requires fs != [] && FillsIn(rest) == fs[..|fs| - 1] && Received(rest) == j
    ensures IsNew(j, fs[|fs| - 1]) <==> FirstOfItsKey(fs, |fs| - 1)
  {
    FailuresLose(rest, fs[|fs| - 1].takerUser, fs[|fs| - 1].market);
    FirstIsNew(fs, |fs| - 1);
  }

  // ----- the orders of the fills

  /** The orders table after a subscription: a fill reaches its two orders when both its changes are recorded. */
  function OrdersAfter(orders: Orders, t: LedgerSpec.Tables, fs: seq<Fill>, survives: seq<nat>): Orders
    requires |fs| == |survives|
  {
    if fs == [] then orders
    else
      var n := |fs| - 1;
      var p, rest := Progressed(t, fs[..n], survives[..n]), OrdersAfter(orders, t, fs[..n], survives[..n]);
      if Recorded(p.journal, p.tables, fs[n], survives[n]) == 2 then UpdatedBoth(rest, fs[n]) else rest
  }

  /** If every fill goes through when it first comes in, the orders table reflects each fill once, however often it is
      delivered; OrderFills.FilledExactly says what that means for an order. */
  lemma {:induction false} OrdersReflectFills(orders: Orders, t: LedgerSpec.Tables, fs: seq<Fill>, survives: seq<nat>)
    requires LedgerSpec.BalancesOk(t) && |fs| == |survives| && GoesThrough(t, fs, survives)
    ensures OrdersAfter(orders, t, fs, survives) == UpdatedAll(orders, Firsts(fs))
  {
    if fs != [] {
      hide LedgerSpec.BalancesOk, Acceptable, Paid, Receive, GoesThrough, Credited, Handled, FirstOfItsKey, HasRoom,
           UpdatedBoth, Recorded, IsNew, Progressed, AttemptsOf;
      var n := |fs| - 1;
      var p, rest := Progressed(t, fs[..n], survives[..n]), AttemptsOf(t, fs[..n], survives[..n]);
      PrefixGoes(t, fs, survives);
      OrdersReflectFills(orders, t, fs[..n], survives[..n]);
      GoesThroughExactly(t, fs[..n], survives[..n]);
      AttemptsAre(t, fs[..n], survives[..n]);
      NewIsFirst(rest, fs, p.journal);
      HandledExactly(t, p, fs, survives[n]);
      RecordedOnlyNew(p, fs[n], survives[n]);
      UpdatedOnce(orders, Firsts(fs[..n]), fs[n]);
    }
  }

  lemma UpdatedOnce(orders: Orders, fs: seq<Fill>, f: Fill)
    ensures UpdatedAll(orders, fs + [f]) == UpdatedBoth(UpdatedAll(orders, fs), f)
    ensures fs + [] == fs
  {
    assert (fs + [f])[..|fs|] == fs;
  }

  lemma RecordedOnlyNew(p: Progress, f: Fill, survives: nat)
    ensures Recorded(p.journal, p.tables, f, survives) <= 2
    ensures !IsNew(p.journal, f) ==> Recorded(p.journal, p.tables, f, survives) == 0
  {
  }

  class FillProcessor {
    const db: Ledgers.Db
    var orders: Orders
    var fills: map<Key, Fill>
    var changes: seq<Change>

    ghost function State(): Journal
      reads this
    {
      Journal(fills, changes)
    }

    constructor (db: Ledgers.Db, orders: Orders)
      ensures State() == Blank && this.db == db && this.orders == orders
    {
      this.db, this.orders, fills, changes := db, orders, map[], [];
    }

    /** INSERT ... ON CONFLICT (market_id, sequence) DO NOTHING; the constraints are checked first. */
    method InsertFillDedup(f: Fill) returns (out: Insertion)
      modifies this`fills
      ensures out.Refused? <==> !(1 <= f.price <= 9999 && 1 <= f.quantity < 0x8000_0000_0000_0000)
      ensures out.Duplicate? <==> !out.Refused? && (f.market, f.sequence) in old(fills)
      ensures out == if !Acceptable(f) then Refused else if KeyOf(f) in old(fills) then Duplicate else Inserted
      ensures fills == if out.Inserted? then old(fills)[KeyOf(f) := f] else old(fills)
    {
      if !Acceptable(f) {
        return Refused;
      }
      if KeyOf(f) in fills {
        return Duplicate;
      }
      fills := fills[KeyOf(f) := f];
      return Inserted;
    }

    method RecordPositionChange(user: Uuid, market: Uuid, delta: int)
      modifies this`changes
      ensures changes == old(changes) + [Change(user, market, delta)]
    {
      changes := changes + [Change(user, market, delta)];
    }

    /** Loads and updates the maker's and the taker's order; what goes wrong with one is only reported. */
    method UpdateOrders(f: Fill)
      modifies this`orders
      ensures orders == UpdatedBoth(old(orders), f)
    {
      var ids := [f.makerOrder, f.takerOrder];
      ghost var orders0 := orders;
      for i := 0 to 2
        invariant orders == if i == 0 then orders0 else if i == 1 then Updated(orders0, f.makerOrder, f.quantity)
                            else UpdatedBoth(orders0, f)
      {
        if ids[i] in orders {
          var row := orders[ids[i]];
          var filled: u64 := Min(row.filled + f.quantity, MAX_U64);
          var status := if filled >= row.quantity then Filled else Partial;
          if 0 <= AsI64(filled) <= AsI64(row.quantity) {
            orders := orders[ids[i] := OrderRow(row.quantity, filled, status)];
          }
        }
      }
    }

    /** One fill: inserted, then the balances of both parties, then their two position changes, then their orders. Each
        is a transaction of its own; a failure leaves those before it. */
    method Process(f: Fill, survives: nat) returns (made: nat)
      requires db.Valid()
      modifies this`fills, this`changes, this`orders, db`balances
      ensures orders == if made == 2 then UpdatedBoth(old(orders), f) else old(orders)
      ensures db.Valid() && made == Recorded(old(State()), old(db.State()), f, survives)
      ensures State() == Receive(old(State()), Attempt(f, made))
      ensures db.State() == Paid(old(State()), old(db.State()), f, survives)
      ensures var t := old(db.State());
              if IsNew(old(State()), f) && survives > 0
                 && (f.makerUser in t.balances ==>
                       t.balances[f.makerUser].available + FillCost(f) <= 0x7FFF_FFFF_FFFF_FFFF)
              then CostMoved(t, db.State(), f, FillCost(f)) else db.State() == t
    {
      PaidExactly(State(), db.State(), f, survives);
      hide CostMoved, FillCost, LedgerSpec.Trade, LedgerSpec.BalancesOk, Acceptable;
      made := 0;
      var out := InsertFillDedup(f);
      if !out.Inserted? || survives == 0 {
        return;
      }
      var ok := db.ApplyFillBalances(f.takerUser, f.makerUser, FillCost(f));
      if !ok || survives == 1 {
        return;
      }
      RecordPositionChange(f.takerUser, f.market, AsI64(f.quantity));
      made := 1;
      if survives == 2 {
        return;
      }
      RecordPositionChange(f.makerUser, f.market, -AsI64(f.quantity));
      made := 2;
      UpdateOrders(f);
    }

    /** The subscription loop: a failed fill is reported and skipped. The tables of fills are as if nothing had failed
        exactly if every fill goes through when it first comes in. */
    method RunLoop(deliveries: seq<Fill>, survives: seq<nat>)
      requires db.Valid() && State() == Blank && |survives| == |deliveries|
      modifies this`fills, this`changes, this`orders, db`balances
      ensures db.Valid() && orders == OrdersAfter(old(orders), old(db.State()), deliveries, survives)
      ensures Progress(State(), db.State()) == Progressed(old(db.State()), deliveries, survives)
      ensures State() == Deliver(deliveries) <==> GoesThrough(old(db.State()), deliveries, survives)
      ensures State() == Deliver(deliveries) ==> orders == UpdatedAll(old(orders), Firsts(deliveries))
    {
      ghost var t, orders0 := db.State(), orders;
      hide Handled, GoesThrough, LedgerSpec.BalancesOk, UpdatedBoth, UpdatedAll, Firsts;
      for i := 0 to |deliveries|
        invariant db.Valid() && Progress(State(), db.State()) == Progressed(t, deliveries[..i], survives[..i])
        invariant orders == OrdersAfter(orders0, t, deliveries[..i], survives[..i])
      {
        assert deliveries[..i + 1][..i] == deliveries[..i] && survives[..i + 1][..i] == survives[..i];
        ghost var p := Progress(State(), db.State());
        var made := Process(deliveries[i], survives[i]);
        assert Progress(State(), db.State()) == Handled(p, deliveries[i], survives[i]) by {
          HandledIs(p, deliveries[i], survives[i]);
        }
      }
      assert deliveries[..|deliveries|] == deliveries && survives[..|survives|] == survives;
      AttemptsAre(t, deliveries, survives);
      CompleteExactly(AttemptsOf(t, deliveries, survives));
      GoesThroughExactly(t, deliveries, survives);
      if GoesThrough(t, deliveries, survives) { OrdersReflectFills(orders0, t, deliveries, survives); }
    }
  }

  lemma HandledIs(p: Progress, f: Fill, survives: nat)
    ensures Handled(p, f, survives)
            == Progress(Receive(p.journal, Attempt(f, Recorded(p.journal, p.tables, f, survives))),
                        Paid(p.journal, p.tables, f, survives))
  {
  }
}
