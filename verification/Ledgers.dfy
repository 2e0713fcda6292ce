/** The transactions of api/crates/db/src/withdrawals.rs and balances.rs, statement by statement on
    the tables they update. `begin` remembers the tables; a failing statement rolls back to them. */
module Ledgers {
  import opened Types
  import opened LedgerSpec

  class Db {
    var balances: map<Uuid, Balance>
    var withdrawals: map<Uuid, Withdrawal>
    var holds: map<Uuid, Hold>
    var deposits: seq<Deposit>

    ghost function State(): Tables
      reads this
    {
      Tables(balances, withdrawals, holds, deposits)
    }

    constructor ()
      ensures State() == Tables(map[], map[], map[], [])
    {
      balances, withdrawals, holds, deposits := map[], map[], map[], [];
    }

    method Restore(b: map<Uuid, Balance>, w: map<Uuid, Withdrawal>, h: map<Uuid, Hold>, d: seq<Deposit>)
      modifies this
      ensures State() == Tables(b, w, h, d)
    {
      balances, withdrawals, holds, deposits := b, w, h, d;
    }

    // ----- statements

    /** UPDATE balances SET ... WHERE user_id = user: false if the new values do not fit the columns. */
    method UpdateBalance(user: Uuid, b: Balance) returns (ok: bool)
      modifies this`balances
      ensures ok <==> Storable(b.available) && Storable(b.reserved)
      ensures balances == if ok then old(balances)[user := b] else old(balances)
    {
      ok := Storable(b.available) && Storable(b.reserved);
      if ok { balances := balances[user := b]; }
    }

    /** INSERT INTO balances ... ON CONFLICT (user_id) DO UPDATE. */
    method UpsertAvailable(user: Uuid, amount: int) returns (ok: bool)
      requires user in balances ==> Storable(balances[user].reserved)
      modifies this`balances
      ensures Credit(old(State()), user, amount)
              == if ok then Committed(old(State()).(balances := balances)) else RolledBack(ConstraintViolated)
      ensures !ok ==> balances == old(balances)
    {
      if user in balances {
        var b := balances[user];
        ok := UpdateBalance(user, b.(available := b.available + amount));
      } else {
        ok := UpdateBalance(user, Balance(amount, 0));
      }
    }

    method InsertWithdrawal(id: Uuid, user: Uuid, amount: i64) returns (ok: bool)
      modifies this`withdrawals
      ensures ok <==> id !in old(withdrawals) && amount > 0
      ensures withdrawals == if ok then old(withdrawals)[id := Withdrawal(user, amount, Pending)] else old(withdrawals)
    {
      ok := id !in withdrawals && amount > 0;
      if ok { withdrawals := withdrawals[id := Withdrawal(user, amount, Pending)]; }
    }

    /** UPDATE withdrawals SET status ... WHERE id = id AND status = 'pending' RETURNING *. */
    method UpdateStatus(id: Uuid, verdict: Status) returns (row: Option<Withdrawal>)
      modifies this`withdrawals
      ensures row.Some? <==> id in old(withdrawals) && old(withdrawals)[id].status.Pending?
      ensures row.Some? ==> row.value == old(withdrawals)[id].(status := verdict)
      ensures withdrawals == if row.Some? then old(withdrawals)[id := row.value] else old(withdrawals)
    {
      if id in withdrawals && withdrawals[id].status.Pending? {
        row := Some(withdrawals[id].(status := verdict));
        withdrawals := withdrawals[id := row.value];
      } else {
        row := None;
      }
    }

    // ----- transactions

    ghost predicate Valid()
      reads this
    {
      BalancesOk(State())
    }

    method RecordDeposit(user: Uuid, amount: i64) returns (ok: bool)
      requires Valid()
      modifies this
      ensures Valid()
      ensures var spec := LedgerSpec.RecordDeposit(old(State()), user, amount);
              ok == spec.Committed? && State() == if ok then spec.tables else old(State())
    {
      var b, w, h, d := balances, withdrawals, holds, deposits;
      if amount <= 0 {
        return false;
      }
      deposits := deposits + [Deposit(user, amount)];
      ok := UpsertAvailable(user, amount);
      if !ok { Restore(b, w, h, d); }
    }

    method CreditBalance(user: Uuid, amount: i64) returns (ok: bool)
      requires Valid()
      modifies this`balances
      ensures Valid()
      ensures var spec := Credit(old(State()), user, amount);
              ok == spec.Committed? && State() == if ok then spec.tables else old(State())
    {
      ok := UpsertAvailable(user, amount);
    }

    method CreateWithdrawal(id: Uuid, user: Uuid, amount: i64) returns (out: Option<Failure>)
      requires Valid()
      modifies this
      ensures Valid()
      ensures var spec := LedgerSpec.CreateWithdrawal(old(State()), id, user, amount);
              && out == (if spec.Committed? then None else Some(spec.failure))
              && State() == (if spec.Committed? then spec.tables else old(State()))
    {
      var b, w, h, d := balances, withdrawals, holds, deposits;
      if user !in balances || balances[user].available < amount {
        Restore(b, w, h, d);
        return Some(InsufficientBalance);
      }
      var row := balances[user];
      var ok := UpdateBalance(user, Balance(row.available - amount, row.reserved + amount));
      if ok { ok := InsertWithdrawal(id, user, amount); }
      if !ok {
        Restore(b, w, h, d);
        return Some(ConstraintViolated);
      }
      holds := holds[id := Hold(user, amount)];
      return None;
    }

    method ApproveWithdrawal(id: Uuid) returns (out: Option<Failure>)
      requires Valid()
      modifies this
      ensures Valid()
      ensures var spec := Decide(old(State()), id, Approved);
              && out == (if spec.Committed? then None else Some(spec.failure))
              && State() == (if spec.Committed? then spec.tables else old(State()))
    {
      var b, w, h, d := balances, withdrawals, holds, deposits;
      var row := UpdateStatus(id, Approved);
      if row.None? {
        return Some(NotFound);
      }
      var user, amount, ok := row.value.user, row.value.amount, true;
      if user in balances {
        var bal := balances[user];
        ok := UpdateBalance(user, Balance(bal.available, Greatest(0, bal.reserved - amount)));
      }
      if !ok {
        Restore(b, w, h, d);
        return Some(ConstraintViolated);
      }
      holds := holds - {id};
      return None;
    }

    method RejectWithdrawal(id: Uuid) returns (out: Option<Failure>)
      requires Valid()
      modifies this
      ensures Valid()
      ensures var spec := Decide(old(State()), id, Rejected);
              && out == (if spec.Committed? then None else Some(spec.failure))
              && State() == (if spec.Committed? then spec.tables else old(State()))
    {
      var b, w, h, d := balances, withdrawals, holds, deposits;
      var row := UpdateStatus(id, Rejected);
      if row.None? {
        return Some(NotFound);
      }
      var user, amount, ok := row.value.user, row.value.amount, true;
      if user in balances {
        var bal := balances[user];
        ok := UpdateBalance(user, Balance(bal.available + amount, Greatest(0, bal.reserved - amount)));
      }
      if !ok {
        Restore(b, w, h, d);
        return Some(ConstraintViolated);
      }
      holds := holds - {id};
      return None;
    }

    /** reserve_balance. */
    method ReserveBalance(user: Uuid, amount: i64) returns (out: Option<Failure>)
      requires Valid()
      modifies this`balances
      ensures Valid()
      ensures var spec := Reserve(old(State()), user, amount);
              && out == (if spec.Committed? then None else Some(spec.failure))
              && State() == (if spec.Committed? then spec.tables else old(State()))
    {
      if user !in balances || balances[user].available < amount {
        return Some(InsufficientBalance);
      }
      var row := balances[user];
      var ok := UpdateBalance(user, Balance(row.available - amount, row.reserved + amount));
      return if ok then None else Some(ConstraintViolated);
    }

    /** UPDATE balances SET available = available + added, reserved = GREATEST(0, reserved - amount) ... */
    method ShiftBalance(user: Uuid, added: int, amount: int) returns (ok: bool)
      requires Valid()
      modifies this`balances
      ensures Valid()
      ensures var spec := Shift(old(State()), user, added, amount);
              ok == spec.Committed? && State() == if ok then spec.tables else old(State())
    {
      ok := true;
      if user in balances {
        var row := balances[user];
        ok := UpdateBalance(user, Balance(row.available + added, Greatest(0, row.reserved - amount)));
      }
    }

    method ReleaseReservation(user: Uuid, amount: i64) returns (ok: bool)
      requires Valid()
      modifies this`balances
      ensures Valid()
      ensures var spec := Shift(old(State()), user, amount, amount);
              ok == spec.Committed? && State() == if ok then spec.tables else old(State())
    {
      ok := ShiftBalance(user, amount, amount);
    }

    method ApplyFillBalances(buyer: Uuid, seller: Uuid, cost: i64) returns (ok: bool)
      requires Valid()
      modifies this`balances
      ensures Valid()
      ensures var spec := Trade(old(State()), buyer, seller, cost);
              ok == spec.Committed? && State() == if ok then spec.tables else old(State())
    {
      var b := balances;
      ok := ShiftBalance(buyer, 0, cost);
      if ok { ok := ShiftBalance(seller, cost, cost); }
      if !ok { balances := b; }
    }
  }
}
