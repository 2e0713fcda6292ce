/** ExecutionEngine of api/crates/analytics/src/execution.rs: the table of algo orders, the calls
    that create and cancel them, and one tick of the executor's loop. */
module AlgoEngines {
  import opened Types
  import opened AlgoPlans
  import opened AlgoExecution
  import opened VolumeProfiles

  /** The current weights of a profile, if there is one. */
  function WeightsOf(profile: Option<VolumeProfile>): Option<seq<real>>
    reads if profile.Some? then {profile.value} else {}
  {
    if profile.Some? then Some(profile.value.hourWeights) else None
  }

  class ExecutionEngine {
    var orders: map<Uuid, Algo>
    /** Everything handed to the order channel, or logged in simulation mode. */
    var submitted: seq<Submission>

    ghost function State(): Desk
      reads this
    {
      Desk(orders, submitted)
    }

    constructor ()
      ensures State() == Desk(map[], [])
    {
      orders, submitted := map[], [];
    }

    /** The order has been entered with a plan for no more than its quantity, nothing of it submitted yet. */
    ghost predicate Entered(before: Desk, id: Uuid, quantity: u64)
      reads this
    {
      && id in orders && Fresh(orders[id].children, quantity)
      && State() == Next(before, Create(id, quantity, orders[id].children))
      && orders[id].status == Waiting && orders[id].quantity == quantity && submitted == before.submitted
      && orders.Keys == before.orders.Keys + {id}
      && forall k :: k in before.orders && k != id ==> orders[k] == before.orders[k]
    }

    /** The common end of the create calls. A failed plan has panicked before it gets here. */
    method Insert(id: Uuid, quantity: u64, plan: Option<seq<Child>>) returns (ok: bool)
      requires id !in orders
      modifies this`orders
      ensures ok == plan.Some?
      ensures State() == if ok then Next(old(State()), Create(id, quantity, plan.value)) else old(State())
    {
      if plan.None? {
        return false;
      }
      orders := orders[id := Algo(quantity, plan.value, Waiting)];
      return true;
    }

    method CreateTwapOrder(id: Uuid, quantity: u64, window: u64, slices: u32, price: Option<u32>, now: int)
      returns (ok: bool)
      requires id !in orders
      modifies this`orders
      ensures ok <==> slices > 0
      ensures ok ==> Entered(old(State()), id, quantity)
                     && Total(orders[id].children) == quantity && |orders[id].children| == slices
                     && forall i :: 0 <= i < slices ==>
                          IsTwapChild(orders[id].children[i], quantity, window, slices, price, now, i)
      ensures !ok ==> State() == old(State())
    {
      var children := CreateTwap(quantity, window, slices, price, now);
      if slices > 0 {
        forall i | 0 <= i < slices ensures children.value[i].status == AlgoPlans.Pending {
          assert IsTwapChild(children.value[i], quantity, window, slices, price, now, i);
        }
      }
      ok := Insert(id, quantity, children);
    }

    method CreateVwapOrder(id: Uuid, quantity: u64, window: u64, slices: u32, profile: Option<VolumeProfile>, hour: nat,
                           now: int, decimals: Decimals) returns (ok: bool)
      requires id !in orders && (profile.Some? ==> profile.value.Valid()) && Sound(decimals)
      modifies this`orders
      ensures ok <==> slices > 0
      ensures ok ==> Entered(old(State()), id, quantity)
                     && Total(orders[id].children) == quantity && |orders[id].children| == slices
                     && IsVwapPlan(orders[id].children, quantity, window, slices,
                                   Weights(WeightsOf(profile), hour, slices), now)
      ensures !ok ==> State() == old(State())
    {
      var weights := Weights(WeightsOf(profile), hour, slices);
      var children := CreateVwap(quantity, window, slices, weights, now, decimals);
      if slices > 0 {
        forall i | 0 <= i < slices ensures children.value[i].status == AlgoPlans.Pending {
          assert IsMarketSlice(children.value[i], i);
        }
      }
      ok := Insert(id, quantity, children);
    }

    method CreateIcebergOrder(id: Uuid, quantity: u64, visible: u64, price: u32, now: int)
      returns (ok: bool)
      requires id !in orders
      modifies this`orders
      ensures ok <==> visible > 0
      ensures ok ==> Entered(old(State()), id, quantity)
                     && (Total(orders[id].children) == quantity <==> SlicesNeeded(quantity, visible) < TWO32)
                     && (forall i :: 0 <= i < |orders[id].children| ==>
                           IsIcebergChild(orders[id].children[i], visible, price, now, i))
                     && (forall i :: 0 <= i < |orders[id].children| - 1 ==>
                           orders[id].children[i].quantity == visible)
      ensures !ok ==> State() == old(State())
    {
      var children := CreateIceberg(quantity, visible, price, now);
      if visible > 0 {
        forall i | 0 <= i < |children.value| ensures children.value[i].status == AlgoPlans.Pending {
          assert IsIcebergChild(children.value[i], visible, price, now, i);
        }
      }
      ok := Insert(id, quantity, children);
    }

    method CancelOrder(id: Uuid) returns (found: bool)
      modifies this`orders
      ensures found <==> id in old(orders)
      ensures State() == Next(old(State()), Cancel(id))
    {
      if id !in orders {
        return false;
      }
      orders := orders[id := orders[id].(status := Cancelled)];
      return true;
    }

    /** One tick: the orders in the table's order, the children of each in theirs. */
    method RunTick(ids: seq<Uuid>, now: int, gate: Gate)
      requires forall i :: 0 <= i < |ids| ==> ids[i] in orders
      modifies this
      ensures State() == Next(old(State()), Elapse(ids, now, gate)) && orders.Keys == old(orders).Keys
    {
      ghost var d := State();
      for n := 0 to |ids|
        invariant State() == Tick(d, ids[..n], now, gate) && orders.Keys == old(orders).Keys
      {
        assert ids[..n + 1][..n] == ids[..n];
        VisitOrder(ids[n], now, gate);
      }
      assert ids[..|ids|] == ids;
    }

    method VisitOrder(id: Uuid, now: int, gate: Gate)
      requires id in orders
      modifies this
      ensures State() == Visit(old(State()), id, now, gate) && orders.Keys == old(orders).Keys
    {
      var order := orders[id];
      if order.status != Running && order.status != Waiting {
        return;
      }
      if order.status == Waiting {
        order := order.(status := Running);
      }
      var children := order.children;
      ghost var before := submitted;
      for i := 0 to |children|
        invariant |children| == |order.children| && orders == old(orders)
        invariant forall k :: 0 <= k < i ==> children[k] == Tried(id, k, order.children[k], now, gate)
        invariant forall k :: i <= k < |children| ==> children[k] == order.children[k]
        invariant submitted == before + Sent(id, order.children, now, gate, i)
      {
        if children[i].status == AlgoPlans.Pending {
          if children[i].scheduled <= now {
            if gate(id, i) {
              submitted := submitted + [Submission(id, i, children[i].quantity)];
              children := children[i := children[i].(status := Submitted)];
            } else {
              children := children[i := children[i].(status := AlgoPlans.Failed)];
            }
          }
        }
      }
      assert children == TriedAll(id, order.children, now, gate);
      var allFilled := forall k :: 0 <= k < |children| ==> children[k].status == Filled;
      orders := orders[id := Algo(order.quantity, children, if allFilled then Complete else order.status)];
    }
  }
}
