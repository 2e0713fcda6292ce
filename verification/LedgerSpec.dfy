/** The money tables behind deposits, withdrawals, reservations for orders and fills
    (api/crates/db/src/withdrawals.rs, balances.rs) with the constraints of api/migrations, each SQL
    transaction as one step. A transaction that violates a constraint or a 64-bit range is rolled
    back. Withdrawals and orders share the column `reserved`. */
module LedgerSpec {
  import opened Types
  import opened MapSums

  const MAX_I64: int := 0x7FFF_FFFF_FFFF_FFFF
  type i64 = x: int | -MAX_I64 - 1 <= x <= MAX_I64

  datatype Balance = Balance(available: int, reserved: int)
  datatype Status = Pending | Approved | Rejected
  datatype Withdrawal = Withdrawal(user: Uuid, amount: int, status: Status)
  datatype Hold = Hold(user: Uuid, amount: int)
  datatype Deposit = Deposit(user: Uuid, amount: int)

  datatype Tables = Tables(balances: map<Uuid, Balance>, withdrawals: map<Uuid, Withdrawal>,
                           holds: map<Uuid, Hold>, deposits: seq<Deposit>)

  datatype Failure = InsufficientBalance | NotFound | ConstraintViolated
  datatype Outcome = Committed(tables: Tables) | RolledBack(failure: Failure)

  /** A value that the columns `available` and `reserved` accept. */
  predicate Storable(x: int) {
    0 <= x <= MAX_I64
  }

  function Greatest(a: int, b: int): int {
    if a >= b then a else b
  }

  function BalanceOf(t: Tables, user: Uuid): Balance {
    if user in t.balances then t.balances[user] else Balance(0, 0)
  }

  /** INSERT INTO balances ... ON CONFLICT DO UPDATE SET available = available + amount. */
  function Credit(t: Tables, user: Uuid, amount: int): Outcome {
    var b := BalanceOf(t, user);
    if !Storable(b.available + amount) then RolledBack(ConstraintViolated)
    else Committed(t.(balances := t.balances[user := b.(available := b.available + amount)]))
  }

  function RecordDeposit(t: Tables, user: Uuid, amount: i64): Outcome {
    if amount <= 0 then RolledBack(ConstraintViolated)
    else Credit(t.(deposits := t.deposits + [Deposit(user, amount)]), user, amount)
  }

  function CreateWithdrawal(t: Tables, id: Uuid, user: Uuid, amount: i64): Outcome {
    if user !in t.balances || t.balances[user].available < amount then RolledBack(InsufficientBalance)
    else
      var b := t.balances[user];
      if !Storable(b.available - amount) || !Storable(b.reserved + amount) || amount <= 0 || id in t.withdrawals then
        RolledBack(ConstraintViolated)
      else
        Committed(Tables(t.balances[user := Balance(b.available - amount, b.reserved + amount)],
                         t.withdrawals[id := Withdrawal(user, amount, Pending)],
                         t.holds[id := Hold(user, amount)],
                         t.deposits))
  }

  /** Approval and rejection: refund is what goes back to the available balance. */
  function Decide(t: Tables, id: Uuid, verdict: Status): Outcome {
    if id !in t.withdrawals || !t.withdrawals[id].status.Pending? then RolledBack(NotFound)
    else
      var w := t.withdrawals[id];
      var b := BalanceOf(t, w.user);
      var b' := Balance(b.available + (if verdict.Rejected? then w.amount else 0), Greatest(0, b.reserved - w.amount));
      if w.user in t.balances && !(Storable(b'.available) && Storable(b'.reserved)) then RolledBack(ConstraintViolated)
      else
        Committed(Tables(if w.user in t.balances then t.balances[w.user := b'] else t.balances,
                         t.withdrawals[id := w.(status := verdict)],
                         t.holds - {id},
                         t.deposits))
  }

  /** reserve_balance, for an order. */
  function Reserve(t: Tables, user: Uuid, amount: i64): Outcome {
    if user !in t.balances || t.balances[user].available < amount then RolledBack(InsufficientBalance)
    else
      var b' := Balance(t.balances[user].available - amount, t.balances[user].reserved + amount);
      if !Storable(b'.available) || !Storable(b'.reserved) then RolledBack(ConstraintViolated)
      else Committed(t.(balances := t.balances[user := b']))
  }

  /** UPDATE balances SET available = available + added, reserved = GREATEST(0, reserved - amount) WHERE user_id =
      user, which does nothing without a row. */
  function Shift(t: Tables, user: Uuid, added: int, amount: int): Outcome {
    if user !in t.balances then Committed(t)
    else
      var b' := Balance(t.balances[user].available + added, Greatest(0, t.balances[user].reserved - amount));
      if !Storable(b'.available) || !Storable(b'.reserved) then RolledBack(ConstraintViolated)
      else Committed(t.(balances := t.balances[user := b']))
  }

  /** apply_fill_balances. */
  function Trade(t: Tables, buyer: Uuid, seller: Uuid, cost: i64): Outcome {
    var bought := Shift(t, buyer, 0, cost);
    if bought.RolledBack? then bought else Shift(bought.tables, seller, cost, cost)
  }

  // ----- accounts of one user

  ghost function HeldAmounts(t: Tables, user: Uuid): map<Uuid, int> {
    map id | id in t.holds && t.holds[id].user == user :: t.holds[id].amount
  }

  ghost function Held(t: Tables, user: Uuid): int {
    Sum(HeldAmounts(t, user))
  }

  ghost function ApprovedAmounts(t: Tables, user: Uuid): map<Uuid, int> {
    map id | id in t.withdrawals && t.withdrawals[id].user == user && t.withdrawals[id].status.Approved? ::
      t.withdrawals[id].amount
  }

  ghost function PaidOut(t: Tables, user: Uuid): int {
    Sum(ApprovedAmounts(t, user))
  }

  function Deposited(ds: seq<Deposit>, user: Uuid): int {
    if ds == [] then 0
    else Deposited(ds[..|ds| - 1], user) + if ds[|ds| - 1].user == user then ds[|ds| - 1].amount else 0
  }

  // ----- whole runs

  /** Pay is a credit from settlement; Earmark and Release are reservations for orders; Exchange is a fill. */
  datatype Event = Fund(user: Uuid, amount: i64) | Pay(user: Uuid, amount: i64)
                 | Request(id: Uuid, user: Uuid, amount: i64) | Approve(id: Uuid) | Reject(id: Uuid)
                 | Earmark(user: Uuid, amount: i64) | Release(user: Uuid, amount: i64)
                 | Exchange(buyer: Uuid, seller: Uuid, cost: i64)

  /** The tables and, beside them: the credits from settlement, what has gone to (or come back from) orders, and
      what has been spent on fills. */
  datatype Run = Run(tables: Tables, paid: seq<Deposit>, ordered: seq<Deposit>, spent: seq<Deposit>)

  function Transact(t: Tables, e: Event): Outcome {
    match e
    case Fund(user, amount) => RecordDeposit(t, user, amount)
    case Pay(user, amount) => Credit(t, user, amount)
    case Request(id, user, amount) => CreateWithdrawal(t, id, user, amount)
    case Approve(id) => Decide(t, id, Approved)
    case Reject(id) => Decide(t, id, Rejected)
    case Earmark(user, amount) => Reserve(t, user, amount)
    case Release(user, amount) => Shift(t, user, amount, amount)
    case Exchange(buyer, seller, cost) => Trade(t, buyer, seller, cost)
  }

  /** A movement on a user's account, if there is one. */
  function Entry(t: Tables, user: Uuid, amount: int): seq<Deposit> {
    if user in t.balances then [Deposit(user, amount)] else []
  }

  function Next(r: Run, e: Event): Run {
    match Transact(r.tables, e)
    case RolledBack(_) => r
    case Committed(t) =>
      var r' := r.(tables := t);
      match e
      case Pay(user, amount) => r'.(paid := r.paid + [Deposit(user, amount)])
      case Earmark(user, amount) => r'.(ordered := r.ordered + [Deposit(user, amount)])
      case Release(user, amount) => r'.(ordered := r.ordered + Entry(t, user, -(amount as int)))
      case Exchange(buyer, seller, cost) =>
        r'.(ordered := r.ordered + Entry(t, buyer, -(cost as int)) + Entry(t, seller, -(cost as int)),
            spent := r.spent + Entry(t, buyer, cost))
      case _ => r'
  }

  function After(es: seq<Event>): Run {
    if es == [] then Run(Tables(map[], map[], map[], []), [], [], [])
    else Next(After(es[..|es| - 1]), es[|es| - 1])
  }

  // ----- what every run keeps

  ghost predicate BalancesOk(t: Tables) {
    forall u :: u in t.balances ==> Storable(t.balances[u].available) && Storable(t.balances[u].reserved)
  }

  /** Holds and pending withdrawals correspond one to one. */
  ghost predicate HoldsOk(t: Tables) {
    && (forall id :: id in t.holds <==> id in t.withdrawals && t.withdrawals[id].status.Pending?)
    && (forall id :: id in t.holds ==> t.holds[id] == Hold(t.withdrawals[id].user, t.withdrawals[id].amount))
    && (forall id :: id in t.withdrawals ==> t.withdrawals[id].amount > 0 && t.withdrawals[id].user in t.balances)
  }

  ghost predicate Inv(r: Run) {
    BalancesOk(r.tables) && HoldsOk(r.tables)
  }

  /** What of the reserved balance does not cover withdrawals. */
  ghost function Own(t: Tables, user: Uuid): int {
    BalanceOf(t, user).reserved - Held(t, user)
  }

  /** A user's account adds up: what is reserved is the holds and what orders have reserved, and nothing has come
      or gone unaccounted. */
  ghost predicate Square(r: Run, user: Uuid) {
    var b := BalanceOf(r.tables, user);
    && b.reserved == Held(r.tables, user) + Deposited(r.ordered, user)
    && Deposited(r.ordered, user) >= 0
    && b.available + b.reserved + PaidOut(r.tables, user) + Deposited(r.spent, user)
       == Deposited(r.tables.deposits, user) + Deposited(r.paid, user)
  }

  /** What an event takes from a user's reservation for orders. */
  function Taken(e: Event, user: Uuid): int {
    match e
    case Earmark(u, amount) => if u == user then -(amount as int) else 0
    case Release(u, amount) => if u == user then amount else 0
    case Exchange(buyer, seller, cost) => (if buyer == user then cost else 0) + (if seller == user then cost else 0)
    case _ => 0
  }

  /** The event takes effect on the user's account, if at all, within what is reserved beyond the holds. */
  ghost predicate Careful(t: Tables, e: Event, user: Uuid) {
    Transact(t, e).Committed? && user in t.balances ==> Taken(e, user) <= Own(t, user)
  }

  ghost predicate Prudent(es: seq<Event>, user: Uuid) {
    forall k :: 0 <= k < |es| ==> Careful(After(es[..k]).tables, es[k], user)
  }

  /** The user's account has added up all the time. */
  ghost predicate AddsUp(es: seq<Event>, user: Uuid) {
    forall k :: 0 <= k <= |es| ==> Square(After(es[..k]), user)
  }

  // ----- when a transaction commits, and what it writes

  /** A request commits exactly if the user has that much available, asks for something, the reserved column has room
      and the id is new; without the money it is refused for that, and otherwise by a constraint. */
  lemma WithdrawalExactly(t: Tables, id: Uuid, user: Uuid, amount: i64)
    requires BalancesOk(t)
    ensures var out := CreateWithdrawal(t, id, user, amount);
            && (out.Committed? <==>
                  && user in t.balances && 0 < amount as int <= t.balances[user].available
                  && t.balances[user].reserved + amount <= 0x7FFF_FFFF_FFFF_FFFF && id !in t.withdrawals)
            && (out.RolledBack? ==>
                  (out.failure == InsufficientBalance
                   <==> user !in t.balances || t.balances[user].available < amount as int)
                  && (out.failure == InsufficientBalance || out.failure == ConstraintViolated))
    ensures var out := CreateWithdrawal(t, id, user, amount);
            out.Committed? ==>
              var b, b' := t.balances[user], BalanceOf(out.tables, user);
              && b'.available == b.available - amount && b'.reserved == b.reserved + amount
              && OthersSame(t, out.tables, user) && out.tables.deposits == t.deposits
              && out.tables.withdrawals == t.withdrawals[id := Withdrawal(user, amount, Pending)]
              && out.tables.holds == t.holds[id := Hold(user, amount)]
  {
  }

  ghost predicate OthersSame(t: Tables, t': Tables, user: Uuid) {
    && t'.balances.Keys == t.balances.Keys + {user}
    && forall u :: u != user ==> BalanceOf(t', u) == BalanceOf(t, u)
  }

  /** A deposit commits exactly if it is positive and the column has room. */
  lemma DepositExactly(t: Tables, user: Uuid, amount: i64)
    requires BalancesOk(t)
    ensures var out := RecordDeposit(t, user, amount);
            && (out.Committed? <==> 0 < amount && BalanceOf(t, user).available + amount <= 0x7FFF_FFFF_FFFF_FFFF)
            && (out.RolledBack? ==> out.failure == ConstraintViolated)
            && (out.Committed? ==> Credited(t, out.tables, user, amount)
                                   && out.tables.deposits == t.deposits + [Deposit(user, amount)])
  {
  }

  /** A credit commits exactly if the balance stays within the column. */
  lemma CreditExactly(t: Tables, user: Uuid, amount: int)
    requires BalancesOk(t)
    ensures var out := Credit(t, user, amount);
            && (out.Committed? <==> 0 <= BalanceOf(t, user).available + amount <= 0x7FFF_FFFF_FFFF_FFFF)
            && (out.RolledBack? ==> out.failure == ConstraintViolated)
            && (out.Committed? ==> Credited(t, out.tables, user, amount) && out.tables.deposits == t.deposits)
  {
  }

  ghost predicate Credited(t: Tables, t': Tables, user: Uuid, amount: int) {
    && BalanceOf(t', user).available == BalanceOf(t, user).available + amount
    && BalanceOf(t', user).reserved == BalanceOf(t, user).reserved
    && OthersSame(t, t', user) && t'.withdrawals == t.withdrawals && t'.holds == t.holds
  }

  /** A reservation commits exactly if the user has that much available and both columns stay within range. */
  lemma ReserveExactly(t: Tables, user: Uuid, amount: i64)
    requires BalancesOk(t)
    ensures var out := Reserve(t, user, amount);
            && (out.Committed? <==>
                  && user in t.balances && amount as int <= t.balances[user].available
                  && t.balances[user].available - amount <= 0x7FFF_FFFF_FFFF_FFFF
                  && 0 <= t.balances[user].reserved + amount <= 0x7FFF_FFFF_FFFF_FFFF)
            && (out.RolledBack? ==>
                  out.failure == if user in t.balances && amount as int <= t.balances[user].available
                                 then ConstraintViolated else InsufficientBalance)
            && (out.Committed? ==>
                  var b, b' := t.balances[user], BalanceOf(out.tables, user);
                  && b'.available == b.available - amount && b'.reserved == b.reserved + amount
                  && OthersSame(t, out.tables, user)
                  && out.tables.(balances := t.balances) == t)
  {
  }

  /** A release commits exactly if both columns stay within range or there is no row: the available balance grows by all
      of the amount, and the reserved one falls by it, but not below zero. */
  lemma ReleaseExactly(t: Tables, user: Uuid, amount: i64)
    requires BalancesOk(t)
    ensures var out := Shift(t, user, amount, amount);
            && (out.Committed? <==>
                  (user in t.balances ==>
                     && 0 <= t.balances[user].available + amount <= 0x7FFF_FFFF_FFFF_FFFF
                     && t.balances[user].reserved - amount <= 0x7FFF_FFFF_FFFF_FFFF))
            && (out.Committed? ==>
                  var b, b' := BalanceOf(t, user), BalanceOf(out.tables, user);
                  && b'.available == b.available + (if user in t.balances then amount as int else 0)
                  && (user in t.balances ==>
                        b'.reserved == if b.reserved <= amount as int then 0 else b.reserved - amount)
                  && out.tables.balances.Keys == t.balances.Keys
                  && (forall u :: u != user ==> BalanceOf(out.tables, u) == BalanceOf(t, u))
                  && out.tables.(balances := t.balances) == t)
  {
  }

  /** A decision commits exactly on a pending withdrawal, and a rejection only if the refund fits; it writes the
      verdict,
      takes the hold away, lowers the reserved balance by the amount, but not below zero, and a rejection pays back. */
  lemma DecideExactly(t: Tables, id: Uuid, verdict: Status)
    requires BalancesOk(t) && !verdict.Pending? && (id in t.withdrawals ==> t.withdrawals[id].amount > 0)
    ensures var out := Decide(t, id, verdict);
            && (out.Committed? <==>
                  && id in t.withdrawals && t.withdrawals[id].status == Pending
                  && var w := t.withdrawals[id];
                     (verdict == Rejected && w.user in t.balances ==>
                        t.balances[w.user].available + w.amount <= 0x7FFF_FFFF_FFFF_FFFF))
            && (out.RolledBack? ==>
                  out.failure == if id in t.withdrawals && t.withdrawals[id].status == Pending
                                 then ConstraintViolated else NotFound)
    ensures var out := Decide(t, id, verdict);
            out.Committed? ==>
              var w := t.withdrawals[id];
              var b, b' := BalanceOf(t, w.user), BalanceOf(out.tables, w.user);
              && out.tables.withdrawals.Keys == t.withdrawals.Keys
              && out.tables.withdrawals[id] == Withdrawal(w.user, w.amount, verdict)
              && (forall k :: k in t.withdrawals && k != id ==> out.tables.withdrawals[k] == t.withdrawals[k])
              && id !in out.tables.holds
              && (forall k :: k != id ==> (k in out.tables.holds <==> k in t.holds)
                                          && (k in t.holds ==> out.tables.holds[k] == t.holds[k]))
              && out.tables.deposits == t.deposits && out.tables.balances.Keys == t.balances.Keys
              && (forall u :: u != w.user ==> BalanceOf(out.tables, u) == BalanceOf(t, u))
              && (w.user in t.balances ==>
                    && b'.reserved == (if b.reserved <= w.amount then 0 else b.reserved - w.amount)
                    && b'.available == b.available + (if verdict == Rejected then w.amount else 0))
  {
  }

  // ----- sums under the three updates

  lemma HeldAdded(t: Tables, id: Uuid, h: Hold, user: Uuid)
    requires id !in t.holds
    ensures Held(t.(holds := t.holds[id := h]), user) == Held(t, user) + if h.user == user then h.amount else 0
  {
    var t' := t.(holds := t.holds[id := h]);
    if h.user == user {
      assert HeldAmounts(t', user) == HeldAmounts(t, user)[id := h.amount];
      SumInsert(HeldAmounts(t, user), id, h.amount);
    } else {
      assert HeldAmounts(t', user) == HeldAmounts(t, user);
    }
  }

  lemma HeldRemoved(t: Tables, id: Uuid, user: Uuid)
    requires id in t.holds
    ensures Held(t.(holds := t.holds - {id}), user)
            == Held(t, user) - if t.holds[id].user == user then t.holds[id].amount else 0
  {
    var t' := t.(holds := t.holds - {id});
    if t.holds[id].user == user {
      assert HeldAmounts(t', user) == HeldAmounts(t, user) - {id};
      SumRemove(HeldAmounts(t, user), id);
    } else {
      assert HeldAmounts(t', user) == HeldAmounts(t, user);
    }
  }

  lemma PaidOutChanged(t: Tables, id: Uuid, w: Withdrawal, user: Uuid)
    requires id in t.withdrawals ==> !t.withdrawals[id].status.Approved?
    ensures PaidOut(t.(withdrawals := t.withdrawals[id := w]), user)
            == PaidOut(t, user) + if w.user == user && w.status.Approved? then w.amount else 0
  {
    var t' := t.(withdrawals := t.withdrawals[id := w]);
    if w.user == user && w.status.Approved? {
      assert ApprovedAmounts(t', user) == ApprovedAmounts(t, user)[id := w.amount];
      SumInsert(ApprovedAmounts(t, user), id, w.amount);
    } else {
      assert ApprovedAmounts(t', user) == ApprovedAmounts(t, user);
    }
  }

  lemma DepositedMore(ds: seq<Deposit>, d: Deposit, user: Uuid)
    ensures Deposited(ds + [d], user) == Deposited(ds, user) + if d.user == user then d.amount else 0
  {
    assert (ds + [d])[..|ds|] == ds;
  }

  /** Held and PaidOut depend on their tables only. */
  lemma SameTables(t: Tables, t': Tables, user: Uuid)
    ensures t.holds == t'.holds ==> Held(t, user) == Held(t', user)
    ensures t.withdrawals == t'.withdrawals ==> PaidOut(t, user) == PaidOut(t', user)
  {
    if t.holds == t'.holds { assert HeldAmounts(t, user) == HeldAmounts(t', user); }
    if t.withdrawals == t'.withdrawals { assert ApprovedAmounts(t, user) == ApprovedAmounts(t', user); }
  }

  // ----- each transaction keeps the invariant

  lemma ShiftKeeps(r: Run, user: Uuid, added: int, amount: int)
    requires Inv(r) && Shift(r.tables, user, added, amount).Committed?
    ensures Inv(r.(tables := Shift(r.tables, user, added, amount).tables))
  {
  }

  lemma RequestKeeps(r: Run, id: Uuid, user: Uuid, amount: i64)
    requires Inv(r) && CreateWithdrawal(r.tables, id, user, amount).Committed?
    ensures Inv(r.(tables := CreateWithdrawal(r.tables, id, user, amount).tables))
  {
  }

  lemma DecideKeeps(r: Run, id: Uuid, verdict: Status)
    requires Inv(r) && !verdict.Pending? && Decide(r.tables, id, verdict).Committed?
    ensures Inv(r.(tables := Decide(r.tables, id, verdict).tables))
  {
  }

  lemma ExchangeKeeps(r: Run, buyer: Uuid, seller: Uuid, cost: i64)
    requires Inv(r) && Trade(r.tables, buyer, seller, cost).Committed?
    ensures Inv(r.(tables := Trade(r.tables, buyer, seller, cost).tables))
  {
    var bought := Shift(r.tables, buyer, 0, cost);
    hide Inv, Shift;
    ShiftKeeps(r, buyer, 0, cost);
    ShiftKeeps(r.(tables := bought.tables), seller, cost, cost);
  }

  /** The other transactions move the money of one user. */
  lemma MoneyKeeps(r: Run, e: Event)
    requires Inv(r) && (e.Fund? || e.Pay? || e.Earmark?) && Transact(r.tables, e).Committed?
    ensures Inv(r.(tables := Transact(r.tables, e).tables))
  {
  }

  lemma NextKeeps(r: Run, e: Event)
    requires Inv(r)
    ensures Inv(Next(r, e))
  {
    hide BalancesOk, HoldsOk, CreateWithdrawal, Decide, Shift, Trade, RecordDeposit, Credit, Reserve, Entry;
    if Transact(r.tables, e).Committed? {
      match e
      case Request(id, user, amount) => RequestKeeps(r, id, user, amount);
      case Approve(id) => DecideKeeps(r, id, Approved);
      case Reject(id) => DecideKeeps(r, id, Rejected);
      case Release(user, amount) => ShiftKeeps(r, user, amount, amount);
      case Exchange(buyer, seller, cost) => ExchangeKeeps(r, buyer, seller, cost);
      case _ => MoneyKeeps(r, e);
    }
  }

  /** What Shift does to the account of user u. */
  lemma ShiftIs(t: Tables, user: Uuid, added: int, amount: int, u: Uuid)
    requires Shift(t, user, added, amount).Committed?
    ensures var t' := Shift(t, user, added, amount).tables;
            && t' == t.(balances := t'.balances) && t'.balances.Keys == t.balances.Keys
            && BalanceOf(t', u) == (if u == user && user in t.balances then
                                      Balance(t.balances[u].available + added,
                                              Greatest(0, t.balances[u].reserved - amount))
                                    else BalanceOf(t, u))
            && Held(t', u) == Held(t, u) && PaidOut(t', u) == PaidOut(t, u)
  {
    SameTables(t, Shift(t, user, added, amount).tables, u);
    hide Held, PaidOut;
  }

  /** The part of a movement on one user's account that concerns user u. */
  function Share(t: Tables, user: Uuid, u: Uuid, amount: int): int {
    if u == user && u in t.balances then amount else 0
  }

  lemma EntryMore(ds: seq<Deposit>, t: Tables, user: Uuid, amount: int, u: Uuid)
    ensures Deposited(ds + Entry(t, user, amount), u) == Deposited(ds, u) + Share(t, user, u, amount)
    ensures Share(t, user, u, -amount) == -Share(t, user, u, amount)
  {
    DepositedMore(ds, Deposit(user, amount), u);
    assert ds + [] == ds;
  }

  lemma HeldNonNegative(t: Tables, user: Uuid)
    requires HoldsOk(t)
    ensures Held(t, user) >= 0
    ensures forall id :: id in t.holds && t.holds[id].user == user ==> t.holds[id].amount <= Held(t, user)
  {
    var amounts := HeldAmounts(t, user);
    SumNonNegative(amounts);
    forall id | id in t.holds && t.holds[id].user == user ensures t.holds[id].amount <= Held(t, user) {
      assert id in amounts;
    }
  }

  lemma CreditSquare(r: Run, user: Uuid, amount: i64, r': Run, u: Uuid)
    requires Square(r, u)
    requires var b := BalanceOf(r.tables, user);
             r'.tables == r.tables.(balances := r.tables.balances[user := b.(available := b.available + amount)],
                                    deposits := r'.tables.deposits)
    requires r'.ordered == r.ordered && r'.spent == r.spent
    requires || (r'.tables.deposits == r.tables.deposits + [Deposit(user, amount)] && r'.paid == r.paid)
             || (r'.tables.deposits == r.tables.deposits && r'.paid == r.paid + [Deposit(user, amount)])
    ensures Square(r', u)
  {
    hide Held, PaidOut, Deposited;
    SameTables(r.tables, r'.tables, u);
    DepositedMore(r.tables.deposits, Deposit(user, amount), u);
    DepositedMore(r.paid, Deposit(user, amount), u);
  }

  lemma RequestSquare(r: Run, id: Uuid, user: Uuid, amount: i64, u: Uuid)
    requires Inv(r) && Square(r, u) && CreateWithdrawal(r.tables, id, user, amount).Committed?
    ensures Square(r.(tables := CreateWithdrawal(r.tables, id, user, amount).tables), u)
  {
    var t, t' := r.tables, CreateWithdrawal(r.tables, id, user, amount).tables;
    hide Held, PaidOut, Deposited;
    HeldAdded(t, id, Hold(user, amount), u);
    SameTables(t.(holds := t'.holds), t', u);
    PaidOutChanged(t, id, Withdrawal(user, amount, Pending), u);
    SameTables(t.(withdrawals := t'.withdrawals), t', u);
  }

  lemma DecideSquare(r: Run, id: Uuid, verdict: Status, u: Uuid)
    requires Inv(r) && Square(r, u) && !verdict.Pending? && Decide(r.tables, id, verdict).Committed?
    ensures Square(r.(tables := Decide(r.tables, id, verdict).tables), u)
  {
    var t, t' := r.tables, Decide(r.tables, id, verdict).tables;
    var w := t.withdrawals[id];
    HeldNonNegative(t, u);
    hide Held, PaidOut, Deposited;
    HeldRemoved(t, id, u);
    SameTables(t.(holds := t'.holds), t', u);
    PaidOutChanged(t, id, w.(status := verdict), u);
    SameTables(t.(withdrawals := t'.withdrawals), t', u);
  }

  lemma EarmarkSquare(r: Run, user: Uuid, amount: i64, u: Uuid)
    requires Inv(r) && Square(r, u) && Reserve(r.tables, user, amount).Committed?
    requires u == user ==> -(amount as int) <= Own(r.tables, u)
    ensures Square(Next(r, Earmark(user, amount)), u)
  {
    hide Held, PaidOut, Deposited;
    SameTables(r.tables, Reserve(r.tables, user, amount).tables, u);
    DepositedMore(r.ordered, Deposit(user, amount), u);
  }

  /** What Trade does to the account of user u, if that covers it. */
  lemma TradeIs(t: Tables, buyer: Uuid, seller: Uuid, cost: int, u: Uuid)
    requires -MAX_I64 - 1 <= cost <= MAX_I64 && Trade(t, buyer, seller, cost).Committed?
    requires BalanceOf(t, u).reserved >= 0 && Taken(Exchange(buyer, seller, cost), u) <= BalanceOf(t, u).reserved
    ensures var t' := Trade(t, buyer, seller, cost).tables;
            var b, b' := BalanceOf(t, u), BalanceOf(t', u);
            && t'.balances.Keys == t.balances.Keys && t'.deposits == t.deposits
            && Held(t', u) == Held(t, u) && PaidOut(t', u) == PaidOut(t, u)
            && b'.available == b.available + Share(t', seller, u, cost)
            && b'.reserved == b.reserved - Share(t', buyer, u, cost) - Share(t', seller, u, cost)
  {
    var bought := Shift(t, buyer, 0, cost);
    ShiftIs(t, buyer, 0, cost, u);
    ShiftIs(bought.tables, seller, cost, cost, u);
    hide Held, PaidOut, Shift;
    assert u in bought.tables.balances <==> u in t.balances;
  }

  /** p and q are the user's shares as buyer and as seller. */
  lemma SharedSquare(r: Run, r': Run, u: Uuid, p: int, q: int)
    requires Square(r, u) && p + q <= Own(r.tables, u)
    requires var b, b' := BalanceOf(r.tables, u), BalanceOf(r'.tables, u);
             b'.available == b.available + q && b'.reserved == b.reserved - p - q
    requires Held(r'.tables, u) == Held(r.tables, u) && PaidOut(r'.tables, u) == PaidOut(r.tables, u)
    requires r'.tables.deposits == r.tables.deposits && r'.paid == r.paid
    requires Deposited(r'.ordered, u) == Deposited(r.ordered, u) - p - q
             && Deposited(r'.spent, u) == Deposited(r.spent, u) + p
    ensures Square(r', u)
  {
    hide Held, PaidOut, Deposited, BalanceOf;
  }

  lemma NextRelease(r: Run, user: Uuid, amount: i64, c: int, t: Tables)
    requires Shift(r.tables, user, amount, amount) == Committed(t) && c == amount
    ensures Next(r, Release(user, amount)) == Run(t, r.paid, r.ordered + Entry(t, user, -c), r.spent)
  {
    hide Shift, Entry;
  }

  lemma ShareWithin(r: Run, user: Uuid, amount: i64, u: Uuid)
    requires Inv(r) && Square(r, u) && (u == user ==> amount <= Own(r.tables, u))
    ensures Share(r.tables, user, u, amount) <= Own(r.tables, u) <= BalanceOf(r.tables, u).reserved
  {
    HeldNonNegative(r.tables, u);
    hide Held, PaidOut, Deposited, Inv;
  }

  lemma ReleaseSquare(r: Run, user: Uuid, amount: i64, u: Uuid)
    requires Inv(r) && Square(r, u) && Shift(r.tables, user, amount, amount).Committed?
    requires u == user ==> amount <= Own(r.tables, u)
    ensures Square(Next(r, Release(user, amount)), u)
  {
    hide Held, PaidOut, Deposited, Inv, Entry, Next, Square, Own, Shift;
    var c: int := amount;
    ShareWithin(r, user, amount, u);
    ShiftIs(r.tables, user, c, c, u);
    var t := Shift(r.tables, user, c, c).tables;
    NextRelease(r, user, amount, c, t);
    EntryMore(r.ordered, t, user, -c, u);
    assert u in t.balances <==> u in r.tables.balances;
    SharedSquare(r, Next(r, Release(user, amount)), u, 0, Share(r.tables, user, u, c));
  }

  lemma SharesWithin(r: Run, t: Tables, buyer: Uuid, seller: Uuid, cost: i64, u: Uuid)
    requires Inv(r) && Square(r, u) && Taken(Exchange(buyer, seller, cost), u) <= Own(r.tables, u)
    requires t.balances.Keys == r.tables.balances.Keys
    ensures Share(t, buyer, u, cost) + Share(t, seller, u, cost) <= Own(r.tables, u) <= BalanceOf(r.tables, u).reserved
    ensures BalanceOf(r.tables, u).reserved >= 0
    ensures Taken(Exchange(buyer, seller, cost), u) <= BalanceOf(r.tables, u).reserved
  {
    HeldNonNegative(r.tables, u);
    hide Held, PaidOut, Deposited, Inv;
    assert u in t.balances <==> u in r.tables.balances;
  }

  lemma NextExchange(r: Run, buyer: Uuid, seller: Uuid, cost: i64, c: int, t: Tables)
    requires Trade(r.tables, buyer, seller, cost) == Committed(t) && c == cost
    ensures Next(r, Exchange(buyer, seller, cost))
            == Run(t, r.paid, r.ordered + Entry(t, buyer, -c) + Entry(t, seller, -c), r.spent + Entry(t, buyer, c))
  {
    hide Trade, Entry;
  }

  lemma ExchangeSquare(r: Run, buyer: Uuid, seller: Uuid, cost: i64, u: Uuid)
    requires Inv(r) && Square(r, u) && Trade(r.tables, buyer, seller, cost).Committed?
    requires Taken(Exchange(buyer, seller, cost), u) <= Own(r.tables, u)
    ensures Square(Next(r, Exchange(buyer, seller, cost)), u)
  {
    hide Held, PaidOut, Deposited, Trade, Inv, Entry, Share, BalanceOf, Next, Square, Own, Taken;
    var c: int := cost;
    SharesWithin(r, r.tables, buyer, seller, cost, u);
    TradeIs(r.tables, buyer, seller, c, u);
    var t := Trade(r.tables, buyer, seller, c).tables;
    SharesWithin(r, t, buyer, seller, cost, u);
    NextExchange(r, buyer, seller, cost, c, t);
    EntryMore(r.ordered, t, buyer, -c, u);
    EntryMore(r.ordered + Entry(t, buyer, -c), t, seller, -c, u);
    EntryMore(r.spent, t, buyer, c, u);
    EntryMore(r.spent, t, seller, c, u);
    SharedSquare(r, Next(r, Exchange(buyer, seller, cost)), u, Share(t, buyer, u, c), Share(t, seller, u, c));
  }

  lemma NextSquare(r: Run, e: Event, u: Uuid)
    requires Inv(r) && Square(r, u) && Taken(e, u) <= Own(r.tables, u)
    ensures Square(Next(r, e), u)
  {
    hide Inv, CreateWithdrawal, Decide, Reserve, Shift, Own, Square, Entry;
    if Transact(r.tables, e).Committed? {
      match e
      case Fund(user, amount) => CreditSquare(r, user, amount, Next(r, e), u);
      case Pay(user, amount) => CreditSquare(r, user, amount, Next(r, e), u);
      case Request(id, user, amount) => RequestSquare(r, id, user, amount, u);
      case Approve(id) => DecideSquare(r, id, Approved, u);
      case Reject(id) => DecideSquare(r, id, Rejected, u);
      case Earmark(user, amount) => EarmarkSquare(r, user, amount, u);
      case Release(user, amount) => ReleaseSquare(r, user, amount, u);
      case Exchange(buyer, seller, cost) => ExchangeSquare(r, buyer, seller, cost, u);
    }
  }

  /** Without a row the movements of orders pass the user by. */
  lemma AbsentSquare(r: Run, e: Event, u: Uuid)
    requires Inv(r) && Square(r, u) && u !in r.tables.balances && (e.Release? || e.Exchange?)
    ensures Square(Next(r, e), u)
  {
    if Transact(r.tables, e).Committed? {
      hide Held, PaidOut, Deposited, Entry;
      match e
      case Release(user, amount) =>
        var t := Shift(r.tables, user, amount, amount).tables;
        ShiftIs(r.tables, user, amount, amount, u);
        EntryMore(r.ordered, t, user, -(amount as int), u);
      case Exchange(buyer, seller, cost) => AbsentExchange(r, buyer, seller, cost, u);
    }
  }

  lemma AbsentExchange(r: Run, buyer: Uuid, seller: Uuid, cost: i64, u: Uuid)
    requires Inv(r) && Square(r, u) && u !in r.tables.balances && Trade(r.tables, buyer, seller, cost).Committed?
    ensures Square(Next(r, Exchange(buyer, seller, cost)), u)
  {
    hide Held, PaidOut, Deposited, Entry, Square, Next, Inv;
    var c: int := cost;
    var bought := Shift(r.tables, buyer, 0, cost).tables;
    var t := Trade(r.tables, buyer, seller, cost).tables;
    ShiftIs(r.tables, buyer, 0, cost, u);
    ShiftIs(bought, seller, cost, cost, u);
    NextExchange(r, buyer, seller, cost, c, t);
    EntryMore(r.ordered, t, buyer, -c, u);
    EntryMore(r.ordered + Entry(t, buyer, -c), t, seller, -c, u);
    EntryMore(r.spent, t, buyer, c, u);
    HeldNonNegativeOf(r, u);
    hide Shift, Trade;
    SharedSquare(r, Next(r, Exchange(buyer, seller, cost)), u, 0, 0);
  }

  lemma HeldNonNegativeOf(r: Run, u: Uuid)
    requires Inv(r) && Square(r, u)
    ensures 0 <= Own(r.tables, u) && Held(r.tables, u) >= 0
  {
    HeldNonNegative(r.tables, u);
  }

  /** A committed event moves the sum of the reservations for orders by exactly what it takes. */
  lemma OrderedMoves(r: Run, e: Event, u: Uuid)
    requires Transact(r.tables, e).Committed? && u in r.tables.balances
    ensures Deposited(Next(r, e).ordered, u) == Deposited(r.ordered, u) - Taken(e, u)
  {
    hide Deposited, CreateWithdrawal, Decide, Credit, RecordDeposit, Entry;
    var t := Transact(r.tables, e).tables;
    match e
    case Earmark(user, amount) => DepositedMore(r.ordered, Deposit(user, amount), u);
    case Release(user, amount) =>
      EntryMore(r.ordered, t, user, -(amount as int), u);
    case Exchange(buyer, seller, cost) =>
      var c: int := cost;
      NextExchange(r, buyer, seller, cost, c, t);
      EntryMore(r.ordered, t, buyer, -c, u);
      EntryMore(r.ordered + Entry(t, buyer, -c), t, seller, -c, u);
    case _ =>
  }

  /** One event keeps an account that adds up exactly if it is careful. */
  lemma NextSquareExactly(r: Run, e: Event, u: Uuid)
    requires Inv(r) && Square(r, u)
    ensures Square(Next(r, e), u) <==> Careful(r.tables, e, u)
  {
    hide Inv, Held, PaidOut, Deposited, Entry, Transact;
    if !Transact(r.tables, e).Committed? {
    } else if u in r.tables.balances {
      if Taken(e, u) <= Own(r.tables, u) { NextSquare(r, e, u); }
      OrderedMoves(r, e, u);
      hide Next;
    } else if e.Release? || e.Exchange? {
      AbsentSquare(r, e, u);
    } else {
      HeldNonNegativeOf(r, u);
      AbsentTaken(r, e, u);
      NextSquare(r, e, u);
    }
  }

  lemma AbsentTaken(r: Run, e: Event, u: Uuid)
    requires Transact(r.tables, e).Committed? && u !in r.tables.balances && !e.Release? && !e.Exchange?
    ensures Taken(e, u) == 0
  {
  }

  // ----- main results

  lemma AddsUpStep(rest: seq<Event>, last: Event, user: Uuid)
    ensures AddsUp(rest + [last], user) <==> AddsUp(rest, user) && Square(After(rest + [last]), user)
    ensures Prudent(rest + [last], user) <==> Prudent(rest, user) && Careful(After(rest).tables, last, user)
  {
    hide Square, Careful, After;
    var es := rest + [last];
    assert forall k :: 0 <= k <= |rest| ==> es[..k] == rest[..k];
    assert es[..|es|] == es && es[..|rest|] == rest == rest[..|rest|];
    assert forall k :: 0 <= k < |rest| ==> es[k] == rest[k];
  }

  /** In every run balances are non-negative and holds correspond one to one to pending withdrawals. A user's account
      adds up all the time, so that the reserved balance is the user's holds and reservations for orders, and available
      plus reserved plus paid out plus spent on fills is what came in, exactly if no event that took effect on it has
      taken more for orders than was reserved beyond the holds. */
  lemma {:induction false} EveryRun(es: seq<Event>, user: Uuid)
    ensures Inv(After(es))
    ensures AddsUp(es, user) <==> Prudent(es, user)
  {
    hide Inv, Square, Careful, Next, AddsUp, Prudent;
    if es == [] {
      NothingYet(user);
    } else {
      var rest, e := es[..|es| - 1], es[|es| - 1];
      var r := After(rest);
      assert es == rest + [e] && After(es) == Next(r, e);
      hide After;
      EveryRun(rest, user);
      AddsUpStep(rest, e, user);
      NextKeeps(r, e);
      if AddsUp(rest, user) {
        AddsUpAtEnd(rest, user);
        NextSquareExactly(r, e, user);
      }
    }
  }

  lemma NothingYet(user: Uuid)
    ensures Inv(After([])) && AddsUp([], user) && Prudent([], user)
  {
    assert HeldAmounts(After([]).tables, user) == map[] && ApprovedAmounts(After([]).tables, user) == map[];
  }

  lemma AddsUpAtEnd(es: seq<Event>, user: Uuid)
    requires AddsUp(es, user)
    ensures Square(After(es), user)
  {
    assert es[..|es|] == es;
  }

  lemma NoOrdersStep(rest: seq<Event>, e: Event, user: Uuid)
    requires AddsUp(rest, user) && !e.Earmark? && !e.Release? && !e.Exchange?
    ensures AddsUp(rest + [e], user)
  {
    var r := After(rest);
    EveryRun(rest, user);
    AddsUpAtEnd(rest, user);
    HeldNonNegativeOf(r, user);
    AddsUpStep(rest, e, user);
    assert (rest + [e])[..|rest|] == rest;
    assert After(rest + [e]) == Next(r, e);
    hide AddsUp, Prudent, After, Next, Inv, Square, Own, Transact;
    NextSquareExactly(r, e, user);
  }

  lemma {:induction false} NoOrders(es: seq<Event>, user: Uuid)
    requires forall i :: 0 <= i < |es| ==> !es[i].Earmark? && !es[i].Release? && !es[i].Exchange?
    ensures AddsUp(es, user) && After(es).ordered == [] && After(es).spent == []
  {
    hide AddsUp, Next;
    if es == [] {
      EveryRun(es, user);
      assert Prudent(es, user);
    } else {
      var rest, e := es[..|es| - 1], es[|es| - 1];
      NoOrders(rest, user);
      NoOrdersStep(rest, e, user);
      assert es == rest + [e];
      NextOrders(After(rest), e);
    }
  }

  /** In particular that is so of every user for whom no order has reserved, released or traded anything: the
      reserved balance is the sum of the holds. */
  lemma WithoutOrders(es: seq<Event>, user: Uuid)
    requires forall i :: 0 <= i < |es| ==> !es[i].Earmark? && !es[i].Release? && !es[i].Exchange?
    ensures AddsUp(es, user) && After(es).ordered == [] && After(es).spent == []
    ensures var t := After(es).tables;
            var b := BalanceOf(t, user);
            && b.reserved == Held(t, user)
            && b.available + b.reserved + PaidOut(t, user)
               == Deposited(t.deposits, user) + Deposited(After(es).paid, user)
  {
    NoOrders(es, user);
    AddsUpAtEnd(es, user);
    assert Deposited([], user) == 0;
    hide After, AddsUp, Held, PaidOut;
  }

  lemma NextOrders(r: Run, e: Event)
    requires !e.Earmark? && !e.Release? && !e.Exchange?
    ensures Next(r, e).ordered == r.ordered && Next(r, e).spent == r.spent
  {
  }

  lemma ExchangeCovers(r: Run, buyer: Uuid, seller: Uuid, cost: i64, u: Uuid)
    requires Inv(r) && Own(r.tables, u) >= 0 && Trade(r.tables, buyer, seller, cost).Committed?
    ensures Own(Trade(r.tables, buyer, seller, cost).tables, u) >= 0
            <==> Taken(Exchange(buyer, seller, cost), u) <= Own(r.tables, u) || Held(r.tables, u) == 0
  {
    hide Shift, Inv;
    var bought := Shift(r.tables, buyer, 0, cost).tables;
    ShiftIs(r.tables, buyer, 0, cost, u);
    ShiftIs(bought, seller, cost, cost, u);
    NoRowNoHolds(r, u);
    hide Held, PaidOut;
  }

  lemma NoRowNoHolds(r: Run, u: Uuid)
    requires Inv(r)
    ensures Held(r.tables, u) >= 0 && BalanceOf(r.tables, u).reserved >= 0
    ensures u !in r.tables.balances ==> Held(r.tables, u) == 0
  {
    HeldNonNegative(r.tables, u);
    if u !in r.tables.balances { assert HeldAmounts(r.tables, u) == map[]; }
  }

  lemma RequestCovers(r: Run, id: Uuid, user: Uuid, amount: i64, u: Uuid)
    requires Inv(r) && CreateWithdrawal(r.tables, id, user, amount).Committed?
    ensures Own(CreateWithdrawal(r.tables, id, user, amount).tables, u) == Own(r.tables, u)
  {
    var t, t' := r.tables, CreateWithdrawal(r.tables, id, user, amount).tables;
    hide Held;
    HeldAdded(t, id, Hold(user, amount), u);
    SameTables(t.(holds := t'.holds), t', u);
  }

  lemma DecideCovers(r: Run, id: Uuid, verdict: Status, u: Uuid)
    requires Inv(r) && Own(r.tables, u) >= 0 && !verdict.Pending? && Decide(r.tables, id, verdict).Committed?
    ensures Own(Decide(r.tables, id, verdict).tables, u) == Own(r.tables, u)
  {
    var t, t' := r.tables, Decide(r.tables, id, verdict).tables;
    HeldNonNegative(t, u);
    hide Held;
    HeldRemoved(t, id, u);
    SameTables(t.(holds := t'.holds), t', u);
  }

  lemma MoneyCovers(r: Run, e: Event, u: Uuid)
    requires Inv(r) && (e.Fund? || e.Pay? || e.Earmark?) && Transact(r.tables, e).Committed?
    ensures Own(Transact(r.tables, e).tables, u) == Own(r.tables, u) - Taken(e, u)
  {
    SameTables(r.tables, Transact(r.tables, e).tables, u);
    hide Held;
  }

  /** What an event must not do to a user's holds. */
  ghost predicate Sparing(t: Tables, e: Event, user: Uuid) {
    Transact(t, e).Committed? ==> Taken(e, user) <= Own(t, user) || Held(t, user) == 0
  }

  lemma StepCovers(r: Run, e: Event, u: Uuid)
    requires Inv(r) && Own(r.tables, u) >= 0
    ensures Own(Next(r, e).tables, u) >= 0 <==> Sparing(r.tables, e, u)
  {
    hide Inv, Held, CreateWithdrawal, Decide, Shift, Trade, RecordDeposit, Credit, Reserve, Own, Entry;
    if Transact(r.tables, e).Committed? {
      NoRowNoHolds(r, u);
      match e
      case Request(id, user, amount) => RequestCovers(r, id, user, amount, u);
      case Approve(id) => DecideCovers(r, id, Approved, u);
      case Reject(id) => DecideCovers(r, id, Rejected, u);
      case Release(user, amount) => ReleaseCovers(r, user, amount, u);
      case Exchange(buyer, seller, cost) => ExchangeCovers(r, buyer, seller, cost, u);
      case Earmark(_, _) =>
        MoneyCovers(r, e, u);
        MoneyKeeps(r, e);
        NoRowNoHolds(Next(r, e), u);
        SameHeld(r.tables, Transact(r.tables, e).tables, u, e);
      case _ => MoneyCovers(r, e, u);
    }
  }

  lemma SameHeld(t: Tables, t': Tables, u: Uuid, e: Event)
    requires e.Earmark? && Transact(t, e) == Committed(t')
    ensures Held(t', u) == Held(t, u) && Own(t', u) == BalanceOf(t', u).reserved - Held(t, u)
  {
    SameTables(t, t', u);
  }

  lemma ReleaseCovers(r: Run, user: Uuid, amount: i64, u: Uuid)
    requires Inv(r) && Own(r.tables, u) >= 0 && Shift(r.tables, user, amount, amount).Committed?
    ensures Own(Shift(r.tables, user, amount, amount).tables, u) >= 0
            <==> Taken(Release(user, amount), u) <= Own(r.tables, u) || Held(r.tables, u) == 0
  {
    ShiftIs(r.tables, user, amount, amount, u);
    NoRowNoHolds(r, u);
    hide Held, PaidOut, Shift, Inv;
  }

  ghost predicate Covered(es: seq<Event>, user: Uuid) {
    forall k :: 0 <= k <= |es| ==> Own(After(es[..k]).tables, user) >= 0
  }

  ghost predicate AllSparing(es: seq<Event>, user: Uuid) {
    forall k :: 0 <= k < |es| ==> Sparing(After(es[..k]).tables, es[k], user)
  }

  lemma CoveredStep(rest: seq<Event>, last: Event, user: Uuid)
    ensures Covered(rest + [last], user) <==> Covered(rest, user) && Own(After(rest + [last]).tables, user) >= 0
    ensures AllSparing(rest + [last], user) <==> AllSparing(rest, user) && Sparing(After(rest).tables, last, user)
    ensures Covered(rest, user) ==> Own(After(rest).tables, user) >= 0
  {
    hide Own, Sparing, After;
    var es := rest + [last];
    assert forall k :: 0 <= k <= |rest| ==> es[..k] == rest[..k];
    assert es[..|es|] == es && es[..|rest|] == rest == rest[..|rest|];
    assert forall k :: 0 <= k < |rest| ==> es[k] == rest[k];
  }

  lemma NothingCovered(user: Uuid)
    ensures Covered([], user) && AllSparing([], user)
  {
    assert HeldAmounts(After([]).tables, user) == map[];
  }

  /** Over every run: the reserved balance covers a user's holds all the time exactly if every event that took effect,
      fills and releases of both parties included, took at most what was reserved beyond them, or found none. */
  lemma {:induction false} HoldsCoveredExactly(es: seq<Event>, user: Uuid)
    ensures Covered(es, user) <==> AllSparing(es, user)
  {
    hide Inv, Sparing, Next, Covered, AllSparing, AddsUp, Prudent, Own;
    if es == [] {
      NothingCovered(user);
    } else {
      var rest, e := es[..|es| - 1], es[|es| - 1];
      assert es == rest + [e] && After(es) == Next(After(rest), e);
      hide After;
      HoldsCoveredExactly(rest, user);
      EveryRun(rest, user);
      CoveredStep(rest, e, user);
      if Covered(rest, user) { StepCovers(After(rest), e, user); }
    }
  }

  /** A decision moves exactly the held amount if and only if that much is reserved, and so whenever nothing was
      taken from the holds; what is missing at a rejection comes from nowhere. */
  lemma DecisionIsExact(es: seq<Event>, id: Uuid, verdict: Status)
    requires !verdict.Pending? && Decide(After(es).tables, id, verdict).Committed?
    ensures var t, t' := After(es).tables, Decide(After(es).tables, id, verdict).tables;
            var w := t.withdrawals[id];
            var b, b' := BalanceOf(t, w.user), BalanceOf(t', w.user);
            && (b'.reserved == b.reserved - w.amount <==> w.amount <= b.reserved)
            && (AddsUp(es, w.user) ==> w.amount <= b.reserved)
            && b'.available + b'.reserved
               == b.available + b.reserved
                  + if verdict.Rejected? then Greatest(0, w.amount - b.reserved) else -Min(w.amount, b.reserved)
  {
    hide After, AddsUp, Prudent, Held, PaidOut, Deposited;
    var t := After(es).tables;
    var user := t.withdrawals[id].user;
    EveryRun(es, user);
    HeldNonNegative(t, user);
    assert t.holds[id].amount <= Held(t, user);
    if AddsUp(es, user) { AddsUpAtEnd(es, user); }
  }

  lemma AfterOneMore(es: seq<Event>, e: Event)
    ensures After(es + [e]) == Next(After(es), e)
  {
    assert (es + [e])[..|es|] == es;
  }

  /** A run in which that happens, for any amounts: the user deposits, asks for all of it back, buys for cost, and
      is refunded the whole amount when the withdrawal is rejected. */
  lemma FillUsesHold(user: Uuid, other: Uuid, id: Uuid, amount: i64, cost: i64) returns (es: seq<Event>)
    requires 0 < cost <= amount && user != other
    ensures id in After(es).tables.holds && After(es).tables.holds[id] == Hold(user, amount)
    ensures BalanceOf(After(es).tables, user) == Balance(0, amount - cost)
    ensures BalanceOf(After(es + [Reject(id)]).tables, user) == Balance(amount, 0)
  {
    var e1, e2, e3 := Fund(user, amount), Request(id, user, amount), Exchange(user, other, cost);
    AfterOneMore([], e1);
    AfterOneMore([] + [e1], e2);
    AfterOneMore([] + [e1] + [e2], e3);
    es := [] + [e1] + [e2] + [e3];
    AfterOneMore(es, Reject(id));
    assert After([]) == Run(Tables(map[], map[], map[], []), [], [], []);
    hide After;
  }

  /** A pending withdrawal can always be approved. It can be rejected exactly if the refund still fits the
      column: a deposit made meanwhile may have filled it up. */
  lemma PendingCanBeDecided(es: seq<Event>, id: Uuid)
    requires id in After(es).tables.withdrawals && After(es).tables.withdrawals[id].status.Pending?
    ensures Decide(After(es).tables, id, Approved).Committed?
    ensures var t := After(es).tables;
            var w := t.withdrawals[id];
            Decide(t, id, Rejected).Committed? <==> BalanceOf(t, w.user).available + w.amount <= MAX_I64
  {
    EveryRun(es, After(es).tables.withdrawals[id].user);
    hide After;
  }

  /** Once decided, a withdrawal never changes again, and later decisions on it fail. */
  lemma {:induction false} DecidedOnce(es: seq<Event>, more: seq<Event>, id: Uuid)
    requires id in After(es).tables.withdrawals && !After(es).tables.withdrawals[id].status.Pending?
    ensures id in After(es + more).tables.withdrawals
    ensures After(es + more).tables.withdrawals[id] == After(es).tables.withdrawals[id]
    ensures forall verdict :: Decide(After(es + more).tables, id, verdict) == RolledBack(NotFound)
  {
    if more == [] {
      assert es + more == es;
    } else {
      var init := more[..|more| - 1];
      DecidedOnce(es, init, id);
      assert (es + more)[..|es + more| - 1] == es + init;
      OthersDecided(After(es + init), more[|more| - 1], id);
    }
  }

  lemma OthersDecided(r: Run, e: Event, id: Uuid)
    requires id in r.tables.withdrawals && !r.tables.withdrawals[id].status.Pending?
    ensures id in Next(r, e).tables.withdrawals && Next(r, e).tables.withdrawals[id] == r.tables.withdrawals[id]
  {
  }
}
