/** The executor of api/crates/analytics/src/execution.rs: every tick it submits the child orders
    that are due, under the lock, while orders may be created and cancelled between ticks. Whether
    a submission goes through (the pre-flight check and the channel) is an input. */
module AlgoExecution {
  import opened Types
  import opened AlgoPlans

  datatype AlgoStatus = Waiting | Running | Paused | Complete | Cancelled

  datatype Algo = Algo(quantity: u64, children: seq<Child>, status: AlgoStatus)

  datatype Submission = Submission(order: Uuid, child: nat, quantity: u64)

  datatype Desk = Desk(orders: map<Uuid, Algo>, submitted: seq<Submission>)

  /** Does the i-th child of the order go through? */
  type Gate = (Uuid, nat) -> bool

  predicate Due(c: Child, now: int) {
    c.status == AlgoPlans.Pending && c.scheduled <= now
  }

  function Tried(id: Uuid, i: nat, c: Child, now: int, gate: Gate): Child {
    if !Due(c, now) then c else c.(status := if gate(id, i) then Submitted else AlgoPlans.Failed)
  }

  function TriedAll(id: Uuid, cs: seq<Child>, now: int, gate: Gate): (r: seq<Child>)
    ensures |r| == |cs| && forall i :: 0 <= i < |cs| ==> r[i] == Tried(id, i, cs[i], now, gate)
  {
    seq(|cs|, i requires 0 <= i < |cs| => Tried(id, i, cs[i], now, gate))
  }

  /** The submissions of the first n children. */
  function Sent(id: Uuid, cs: seq<Child>, now: int, gate: Gate, n: nat): seq<Submission>
    requires n <= |cs|
  {
    if n == 0 then []
    else
      var rest := Sent(id, cs, now, gate, n - 1);
      if Due(cs[n - 1], now) && gate(id, n - 1) then rest + [Submission(id, n - 1, cs[n - 1].quantity)] else rest
  }

  predicate Active(a: Algo) {
    a.status.Running? || a.status.Waiting?
  }

  predicate AllFilled(cs: seq<Child>) {
    forall i :: 0 <= i < |cs| ==> cs[i].status == Filled
  }

  function Executed(id: Uuid, a: Algo, now: int, gate: Gate): Algo {
    if !Active(a) then a
    else
      var cs := TriedAll(id, a.children, now, gate);
      Algo(a.quantity, cs, if AllFilled(cs) then Complete else Running)
  }

  function Visit(d: Desk, id: Uuid, now: int, gate: Gate): Desk {
    if id !in d.orders || !Active(d.orders[id]) then d
    else
      var a := d.orders[id];
      Desk(d.orders[id := Executed(id, a, now, gate)], d.submitted + Sent(id, a.children, now, gate, |a.children|))
  }

  /** A tick visits the orders in the table's own order. */
  function Tick(d: Desk, ids: seq<Uuid>, now: int, gate: Gate): Desk {
    if ids == [] then d else Visit(Tick(d, ids[..|ids| - 1], now, gate), ids[|ids| - 1], now, gate)
  }

  /** A new order has a new id. */
  datatype Event = Create(id: Uuid, quantity: u64, children: seq<Child>) | Cancel(id: Uuid)
                 | Elapse(ids: seq<Uuid>, now: int, gate: Gate)

  ghost predicate Fresh(cs: seq<Child>, quantity: u64) {
    Total(cs) <= quantity && forall i :: 0 <= i < |cs| ==> cs[i].status == AlgoPlans.Pending
  }

  function Next(d: Desk, e: Event): Desk {
    match e
    case Create(id, quantity, children) =>
      if id in d.orders then d else d.(orders := d.orders[id := Algo(quantity, children, Waiting)])
    case Cancel(id) =>
      if id in d.orders then d.(orders := d.orders[id := d.orders[id].(status := Cancelled)]) else d
    case Elapse(ids, now, gate) => Tick(d, ids, now, gate)
  }

  function After(es: seq<Event>): Desk {
    if es == [] then Desk(map[], []) else Next(After(es[..|es| - 1]), es[|es| - 1])
  }

  // ----- accounts

  function SubmittedTotal(ss: seq<Submission>, id: Uuid): nat {
    if ss == [] then 0
    else SubmittedTotal(ss[..|ss| - 1], id) + if ss[|ss| - 1].order == id then ss[|ss| - 1].quantity else 0
  }

  /** The quantity of the children that have been submitted. */
  function DoneTotal(cs: seq<Child>): nat {
    if cs == [] then 0
    else DoneTotal(cs[..|cs| - 1]) + if cs[|cs| - 1].status == Submitted then cs[|cs| - 1].quantity else 0
  }

  /** Every submission is of a child that is now marked submitted, and is the only one of that child. */
  ghost predicate OncePerChild(d: Desk) {
    && (forall k :: 0 <= k < |d.submitted| ==> var s := d.submitted[k];
          && s.order in d.orders && s.child < |d.orders[s.order].children|
          && d.orders[s.order].children[s.child].status == Submitted
          && d.orders[s.order].children[s.child].quantity == s.quantity)
    && (forall j, k :: 0 <= j < k < |d.submitted| ==>
          d.submitted[j].order != d.submitted[k].order || d.submitted[j].child != d.submitted[k].child)
  }

  ghost predicate Accounted(d: Desk) {
    forall id :: id in d.orders ==>
      && SubmittedTotal(d.submitted, id) == DoneTotal(d.orders[id].children)
      && Total(d.orders[id].children) <= d.orders[id].quantity
  }

  ghost predicate Strangers(d: Desk) {
    forall id :: id !in d.orders ==> SubmittedTotal(d.submitted, id) == 0
  }

  ghost predicate Inv(d: Desk) {
    OncePerChild(d) && Accounted(d) && Strangers(d)
  }

  // ----- one order's turn

  lemma {:induction false} AppendedTotal(ss: seq<Submission>, ts: seq<Submission>, id: Uuid)
    ensures SubmittedTotal(ss + ts, id) == SubmittedTotal(ss, id) + SubmittedTotal(ts, id)
  {
    if ts == [] {
      assert ss + ts == ss;
    } else {
      assert (ss + ts)[..|ss + ts| - 1] == ss + ts[..|ts| - 1];
      AppendedTotal(ss, ts[..|ts| - 1], id);
    }
  }

  /** What is sent is of due children of this order that go through, in rising order. */
  lemma {:induction false} SentShape(id: Uuid, cs: seq<Child>, now: int, gate: Gate, n: nat)
    requires n <= |cs|
    ensures AllSent(Sent(id, cs, now, gate, n), id, cs, now, gate, n)
  {
    if n > 0 {
      SentShape(id, cs, now, gate, n - 1);
    }
  }

  predicate SentFor(s: Submission, id: Uuid, cs: seq<Child>, now: int, gate: Gate, n: nat) {
    && s.order == id && s.child < n <= |cs| && Due(cs[s.child], now) && gate(id, s.child)
    && s.quantity == cs[s.child].quantity
  }

  ghost predicate AllSent(ss: seq<Submission>, id: Uuid, cs: seq<Child>, now: int, gate: Gate, n: nat) {
    && (forall k :: 0 <= k < |ss| ==> SentFor(ss[k], id, cs, now, gate, n))
    && (forall j, k :: 0 <= j < k < |ss| ==> ss[j].child < ss[k].child)
  }

  lemma {:induction false} SentTotal(id: Uuid, cs: seq<Child>, now: int, gate: Gate, n: nat, u: Uuid)
    requires n <= |cs|
    ensures SubmittedTotal(Sent(id, cs, now, gate, n), u)
            == if u == id then DoneTotal(TriedAll(id, cs, now, gate)[..n]) - DoneTotal(cs[..n]) else 0
  {
    var tried := TriedAll(id, cs, now, gate);
    if n > 0 {
      SentTotal(id, cs, now, gate, n - 1, u);
      assert cs[..n][..n - 1] == cs[..n - 1] && tried[..n][..n - 1] == tried[..n - 1];
      var rest := Sent(id, cs, now, gate, n - 1);
      var s := Submission(id, n - 1, cs[n - 1].quantity);
      assert (rest + [s])[..|rest|] == rest;
    }
  }

  lemma {:induction false} TriedTotal(id: Uuid, cs: seq<Child>, now: int, gate: Gate, n: nat)
    requires n <= |cs|
    ensures Total(TriedAll(id, cs, now, gate)[..n]) == Total(cs[..n])
  {
    if n > 0 {
      TriedTotal(id, cs, now, gate, n - 1);
      var tried := TriedAll(id, cs, now, gate);
      assert cs[..n][..n - 1] == cs[..n - 1] && tried[..n][..n - 1] == tried[..n - 1];
    }
  }

  lemma VisitAccounts(d: Desk, id: Uuid, now: int, gate: Gate)
    requires Accounted(d) && Strangers(d)
    ensures Accounted(Visit(d, id, now, gate)) && Strangers(Visit(d, id, now, gate))
  {
    if id in d.orders && Active(d.orders[id]) {
      var cs := d.orders[id].children;
      var sent, tried := Sent(id, cs, now, gate, |cs|), TriedAll(id, cs, now, gate);
      assert cs[..|cs|] == cs && tried[..|cs|] == tried;
      TriedTotal(id, cs, now, gate, |cs|);
      forall u ensures SubmittedTotal(d.submitted + sent, u)
                       == SubmittedTotal(d.submitted, u) + (if u == id then DoneTotal(tried) - DoneTotal(cs) else 0) {
        AppendedTotal(d.submitted, sent, u);
        SentTotal(id, cs, now, gate, |cs|, u);
      }
      hide Sent, TriedAll, SubmittedTotal, DoneTotal, Total;
    }
  }

  lemma OnceAppended(d: Desk, id: Uuid, sent: seq<Submission>, now: int, gate: Gate)
    requires OncePerChild(d) && id in d.orders
    requires AllSent(sent, id, d.orders[id].children, now, gate, |d.orders[id].children|)
    ensures var a := d.orders[id];
            forall status :: OncePerChild(Desk(
              d.orders[id := Algo(a.quantity, TriedAll(id, a.children, now, gate), status)], d.submitted + sent))
  {
  }

  lemma VisitOnce(d: Desk, id: Uuid, now: int, gate: Gate)
    requires OncePerChild(d)
    ensures OncePerChild(Visit(d, id, now, gate))
  {
    if id in d.orders && Active(d.orders[id]) {
      var cs := d.orders[id].children;
      SentShape(id, cs, now, gate, |cs|);
      hide Sent, AllFilled;
      var sent := Sent(id, cs, now, gate, |cs|);
      OnceAppended(d, id, sent, now, gate);
    }
  }

  lemma VisitKeeps(d: Desk, id: Uuid, now: int, gate: Gate)
    requires Inv(d)
    ensures Inv(Visit(d, id, now, gate))
  {
    VisitAccounts(d, id, now, gate);
    VisitOnce(d, id, now, gate);
  }

  lemma {:induction false} TickKeeps(d: Desk, ids: seq<Uuid>, now: int, gate: Gate)
    requires Inv(d)
    ensures Inv(Tick(d, ids, now, gate))
  {
    if ids != [] {
      hide Inv, Visit;
      TickKeeps(d, ids[..|ids| - 1], now, gate);
      VisitKeeps(Tick(d, ids[..|ids| - 1], now, gate), ids[|ids| - 1], now, gate);
    }
  }

  lemma {:induction false} NothingDone(cs: seq<Child>)
    requires forall i :: 0 <= i < |cs| ==> cs[i].status == AlgoPlans.Pending
    ensures DoneTotal(cs) == 0
  {
    if cs != [] {
      NothingDone(cs[..|cs| - 1]);
    }
  }

  lemma NextKeeps(d: Desk, e: Event)
    requires Inv(d) && (e.Create? ==> Fresh(e.children, e.quantity))
    ensures Inv(Next(d, e))
  {
    match e
    case Create(id, quantity, children) => NothingDone(children);
    case Cancel(id) =>
    case Elapse(ids, now, gate) => TickKeeps(d, ids, now, gate);
  }

  // ----- main results

  /** Plans as the engine makes them: no more than was ordered, nothing submitted yet. */
  ghost predicate FreshPlans(es: seq<Event>) {
    forall i :: 0 <= i < |es| && es[i].Create? ==> Fresh(es[i].children, es[i].quantity)
  }

  lemma {:induction false} EveryRun(es: seq<Event>)
    requires FreshPlans(es)
    ensures Inv(After(es))
  {
    if es != [] {
      hide Inv;
      EveryRun(es[..|es| - 1]);
      NextKeeps(After(es[..|es| - 1]), es[|es| - 1]);
    } else {
      EmptyInv();
    }
  }

  lemma EmptyInv()
    ensures Inv(Desk(map[], []))
  {
  }

  lemma {:induction false} DoneWithinTotal(cs: seq<Child>)
    ensures DoneTotal(cs) <= Total(cs)
  {
    if cs != [] {
      DoneWithinTotal(cs[..|cs| - 1]);
    }
  }

  /** In any run, with orders created and cancelled at any time: each child is submitted at most once, and what
      is submitted for an order never exceeds what was ordered. */
  lemma NeverOvertrades(es: seq<Event>, id: Uuid)
    requires FreshPlans(es) && id in After(es).orders
    ensures SubmittedTotal(After(es).submitted, id) <= After(es).orders[id].quantity
    ensures forall j, k :: 0 <= j < k < |After(es).submitted| ==>
              var s, t := After(es).submitted[j], After(es).submitted[k]; s.order != t.order || s.child != t.child
  {
    EveryRun(es);
    hide After;
    DoneWithinTotal(After(es).orders[id].children);
  }

  /** The submissions of one order. */
  function SubmissionsOf(ss: seq<Submission>, id: Uuid): seq<Submission> {
    if ss == [] then []
    else
      var rest := SubmissionsOf(ss[..|ss| - 1], id);
      if ss[|ss| - 1].order == id then rest + [ss[|ss| - 1]] else rest
  }

  lemma {:induction false} SubmissionsOfOthers(ss: seq<Submission>, ts: seq<Submission>, id: Uuid)
    requires forall k :: 0 <= k < |ts| ==> ts[k].order != id
    ensures SubmissionsOf(ss + ts, id) == SubmissionsOf(ss, id)
  {
    if ts == [] {
      assert ss + ts == ss;
    } else {
      assert (ss + ts)[..|ss + ts| - 1] == ss + ts[..|ts| - 1];
      SubmissionsOfOthers(ss, ts[..|ts| - 1], id);
    }
  }

  ghost predicate Stopped(d: Desk, id: Uuid, cs: seq<Child>, past: seq<Submission>) {
    && id in d.orders && d.orders[id].status.Cancelled? && d.orders[id].children == cs
    && SubmissionsOf(d.submitted, id) == past
  }

  lemma {:induction false} TickStopped(d: Desk, ids: seq<Uuid>, now: int, gate: Gate, id: Uuid, cs: seq<Child>,
                                       past: seq<Submission>)
    requires Stopped(d, id, cs, past)
    ensures Stopped(Tick(d, ids, now, gate), id, cs, past)
  {
    if ids != [] {
      var d1, u := Tick(d, ids[..|ids| - 1], now, gate), ids[|ids| - 1];
      TickStopped(d, ids[..|ids| - 1], now, gate, id, cs, past);
      VisitStopped(d1, u, now, gate, id, cs, past);
      hide Visit;
    }
  }

  lemma VisitStopped(d: Desk, u: Uuid, now: int, gate: Gate, id: Uuid, cs: seq<Child>, past: seq<Submission>)
    requires Stopped(d, id, cs, past)
    ensures Stopped(Visit(d, u, now, gate), id, cs, past)
  {
    if u in d.orders && Active(d.orders[u]) {
      var children := d.orders[u].children;
      SentShape(u, children, now, gate, |children|);
      hide Sent, AllFilled;
      SubmissionsOfOthers(d.submitted, Sent(u, children, now, gate, |children|), id);
    }
  }

  /** After a cancellation nothing of the order is ever submitted again, and its children stay as they are. */
  lemma {:induction false} CancelStops(es: seq<Event>, id: Uuid, more: seq<Event>)
    requires id in After(es).orders
    ensures var d := After(es);
            Stopped(After(es + [Cancel(id)] + more), id, d.orders[id].children, SubmissionsOf(d.submitted, id))
  {
    var d := After(es);
    var start := es + [Cancel(id)];
    if more == [] {
      assert start + more == start && start[..|es|] == es;
    } else {
      var rest, e := more[..|more| - 1], more[|more| - 1];
      CancelStops(es, id, rest);
      assert (start + more)[..|start + more| - 1] == start + rest;
      hide After;
      StoppedStays(After(start + rest), e, id, d.orders[id].children, SubmissionsOf(d.submitted, id));
      AfterLast(start + more);
    }
  }

  lemma AfterLast(es: seq<Event>)
    requires es != []
    ensures After(es) == Next(After(es[..|es| - 1]), es[|es| - 1])
  {
  }

  lemma StoppedStays(d: Desk, e: Event, id: Uuid, cs: seq<Child>, past: seq<Submission>)
    requires Stopped(d, id, cs, past)
    ensures Stopped(Next(d, e), id, cs, past)
  {
    if e.Elapse? { TickStopped(d, e.ids, e.now, e.gate, id, cs, past); }
  }

  // ----- the schedule

  /** What a turn at a time does to the children: each one that is pending and whose time has come is submitted if it
      goes through, and has failed if not; the others stay as they are. */
  ghost predicate Turned(id: Uuid, cs: seq<Child>, cs': seq<Child>, now: int, gate: Gate) {
    && |cs'| == |cs|
    && forall i :: 0 <= i < |cs| ==>
         cs'[i] == if cs[i].status == AlgoPlans.Pending && cs[i].scheduled <= now
                   then cs[i].(status := if gate(id, i) then Submitted else AlgoPlans.Failed)
                   else cs[i]
  }

  /** Only running and waiting orders get a turn; an order is complete once all its children are filled. */
  ghost predicate TookTurn(id: Uuid, a: Algo, a': Algo, now: int, gate: Gate) {
    if a.status == Running || a.status == Waiting then
      && a'.quantity == a.quantity && Turned(id, a.children, a'.children, now, gate)
      && a'.status == if forall i :: 0 <= i < |a'.children| ==> a'.children[i].status == Filled then Complete
                      else Running
    else a' == a
  }

  /** The children that a turn at a time submits. */
  ghost predicate Ripe(id: Uuid, a: Algo, i: nat, now: int, gate: Gate) {
    && (a.status == Running || a.status == Waiting) && i < |a.children|
    && a.children[i].status == AlgoPlans.Pending && a.children[i].scheduled <= now && gate(id, i)
  }

  lemma {:induction false} SentExactly(id: Uuid, cs: seq<Child>, now: int, gate: Gate, n: nat, s: Submission)
    requires n <= |cs|
    ensures s in Sent(id, cs, now, gate, n) <==>
              && s.order == id && s.child < n && cs[s.child].status == AlgoPlans.Pending
              && cs[s.child].scheduled <= now && gate(id, s.child) && s.quantity == cs[s.child].quantity
  {
    if n > 0 {
      SentExactly(id, cs, now, gate, n - 1, s);
    }
  }

  /** One order's turn, in terms of times and statuses. */
  lemma VisitExactly(d: Desk, id: Uuid, now: int, gate: Gate)
    requires id in d.orders
    ensures var d' := Visit(d, id, now, gate);
            && d'.orders.Keys == d.orders.Keys && TookTurn(id, d.orders[id], d'.orders[id], now, gate)
            && (forall u :: u in d.orders && u != id ==> d'.orders[u] == d.orders[u])
            && d.submitted <= d'.submitted
            && forall s :: s in d'.submitted[|d.submitted|..] <==>
                             && s.order == id && Ripe(id, d.orders[id], s.child, now, gate)
                             && s.quantity == d.orders[id].children[s.child].quantity
  {
    var a := d.orders[id];
    forall s: Submission
      ensures s in Sent(id, a.children, now, gate, |a.children|) <==>
                && s.order == id && s.child < |a.children| && a.children[s.child].status == AlgoPlans.Pending
                && a.children[s.child].scheduled <= now && gate(id, s.child)
                && s.quantity == a.children[s.child].quantity
    {
      SentExactly(id, a.children, now, gate, |a.children|, s);
    }
    hide Sent;
  }

  /** A second turn at the same time changes no child. */
  lemma TurnedTwice(id: Uuid, cs: seq<Child>, cs1: seq<Child>, cs2: seq<Child>, now: int, gate: Gate)
    requires Turned(id, cs, cs1, now, gate) && Turned(id, cs1, cs2, now, gate)
    ensures cs2 == cs1
  {
  }

  /** After a tick nothing of the orders visited is left pending whose time has come, and nothing else has moved. */
  lemma {:induction false} TickExactly(d: Desk, ids: seq<Uuid>, now: int, gate: Gate, id: Uuid)
    requires id in d.orders
    ensures var d' := Tick(d, ids, now, gate);
            && d'.orders.Keys == d.orders.Keys
            && if id in ids then TookTurn(id, d.orders[id], d'.orders[id], now, gate)
               else d'.orders[id] == d.orders[id]
  {
    if ids != [] {
      var rest, u := ids[..|ids| - 1], ids[|ids| - 1];
      var d1 := Tick(d, rest, now, gate);
      TickExactly(d, rest, now, gate, id);
      assert ids == rest + [u];
      hide Tick;
      if u in d1.orders {
        VisitExactly(d1, u, now, gate);
        hide Visit;
        if u == id && id in rest { TurnAgain(id, d.orders[id], d1.orders[id], Visit(d1, u, now, gate).orders[id], now,
                                             gate); }
      }
    }
  }

  lemma TurnAgain(id: Uuid, a: Algo, a1: Algo, a2: Algo, now: int, gate: Gate)
    requires TookTurn(id, a, a1, now, gate) && TookTurn(id, a1, a2, now, gate)
    ensures TookTurn(id, a, a2, now, gate)
  {
    if (a.status == Running || a.status == Waiting) && a1.status == Running {
      TurnedTwice(id, a.children, a1.children, a2.children, now, gate);
    }
  }

  /** What a tick submits: exactly the ripe children of the orders visited. */
  lemma {:induction false} TickSubmits(d: Desk, ids: seq<Uuid>, now: int, gate: Gate)
    ensures var d' := Tick(d, ids, now, gate);
            && d.submitted <= d'.submitted
            && forall s :: s in d'.submitted[|d.submitted|..] <==>
                             && s.order in ids && s.order in d.orders
                             && Ripe(s.order, d.orders[s.order], s.child, now, gate)
                             && s.quantity == d.orders[s.order].children[s.child].quantity
  {
    if ids != [] {
      var rest, u := ids[..|ids| - 1], ids[|ids| - 1];
      var d1, d2 := Tick(d, rest, now, gate), Tick(d, ids, now, gate);
      TickSubmits(d, rest, now, gate);
      assert ids == rest + [u] && d2 == Visit(d1, u, now, gate);
      hide Tick, Ripe;
      if u in d.orders {
        TickExactly(d, rest, now, gate, u);
        VisitExactly(d1, u, now, gate);
        hide Visit;
        assert d2.submitted[|d.submitted|..]
               == d1.submitted[|d.submitted|..] + d2.submitted[|d1.submitted|..];
        forall s: Submission | s.order == u
          ensures Ripe(u, d1.orders[u], s.child, now, gate) && s.quantity == d1.orders[u].children[s.child].quantity
                  ==> u !in rest && Ripe(u, d.orders[u], s.child, now, gate)
                      && s.quantity == d.orders[u].children[s.child].quantity
          ensures u !in rest ==> d1.orders[u] == d.orders[u]
        {
          RipeOnce(u, d.orders[u], d1.orders[u], s.child, now, gate, u in rest);
        }
      } else {
        OrdersStay(d, rest, now, gate);
      }
    }
  }

  lemma RipeOnce(id: Uuid, a: Algo, a1: Algo, i: nat, now: int, gate: Gate, turned: bool)
    requires if turned then TookTurn(id, a, a1, now, gate) else a1 == a
    ensures Ripe(id, a1, i, now, gate) ==> !turned
  {
  }

  lemma {:induction false} OrdersStay(d: Desk, ids: seq<Uuid>, now: int, gate: Gate)
    ensures Tick(d, ids, now, gate).orders.Keys == d.orders.Keys
  {
    if ids != [] {
      OrdersStay(d, ids[..|ids| - 1], now, gate);
      hide Sent, TriedAll;
    }
  }

  /** The same children at the same times, whatever has become of them. */
  ghost predicate SamePlan(cs: seq<Child>, cs': seq<Child>) {
    |cs'| == |cs| && forall i :: 0 <= i < |cs| ==> cs'[i].scheduled == cs[i].scheduled
  }

  lemma NextPlans(d: Desk, e: Event, id: Uuid)
    requires id in d.orders
    ensures var d' := Next(d, e);
            id in d'.orders && SamePlan(d.orders[id].children, d'.orders[id].children) && d.submitted <= d'.submitted
  {
    hide Tick;
    if e.Elapse? {
      TickExactly(d, e.ids, e.now, e.gate, id);
      TickSubmits(d, e.ids, e.now, e.gate);
    }
  }

  /** In every run each submission was made by a tick that visited its order, at or after the time its child was
      scheduled for. */
  lemma {:induction false} NeverEarly(es: seq<Event>, k: nat) returns (i: nat)
    requires FreshPlans(es) && k < |After(es).submitted|
    ensures i < |es| && es[i].Elapse? && |After(es[..i]).submitted| <= k < |After(es[..i + 1]).submitted|
    ensures var s, d := After(es).submitted[k], After(es);
            && s.order in es[i].ids && s.order in d.orders && s.child < |d.orders[s.order].children|
            && d.orders[s.order].children[s.child].scheduled <= es[i].now
  {
    var rest, e := es[..|es| - 1], es[|es| - 1];
    var d, d' := After(rest), After(es);
    AfterLast(es);
    assert es[..|es|] == es;
    if k < |d.submitted| {
      i := NeverEarly(rest, k);
      assert rest[..i] == es[..i] && rest[..i + 1] == es[..i + 1];
      hide After, Next;
      NextPlans(d, e, d.submitted[k].order);
    } else {
      i := |es| - 1;
      hide After, Tick;
      var s := d'.submitted[k];
      assert s == d'.submitted[|d.submitted|..][k - |d.submitted|];
      TickSubmits(d, e.ids, e.now, e.gate);
      NextPlans(d, e, s.order);
    }
  }
}
