/** Positions from fills that are delivered at least once and in any order
    (api/crates/positions/src/lib.rs, db/src/fills.rs, db/src/positions.rs), and what settlement
    pays on them (settlement/src/lib.rs). Processing one fill is one step, until failures midway are
    taken in. */
module PositionSpec {
  import opened Types
  import opened BookSpec
  import opened MapSums

  type Key = (Uuid, u64)

  datatype Change = Change(user: Uuid, market: Uuid, delta: int)

  datatype Journal = Journal(fills: map<Key, Fill>, changes: seq<Change>)

  const Blank: Journal := Journal(map[], [])

  function KeyOf(f: Fill): Key {
    (f.market, f.sequence)
  }

  /** The CHECK constraints of the fills table. */
  predicate Acceptable(f: Fill) {
    0 < f.price < 10000 && AsI64(f.quantity) > 0
  }

  predicate IsNew(j: Journal, f: Fill) {
    Acceptable(f) && KeyOf(f) !in j.fills
  }

  function ChangesOf(f: Fill): seq<Change> {
    [Change(f.takerUser, f.market, AsI64(f.quantity)), Change(f.makerUser, f.market, -AsI64(f.quantity))]
  }

  /** A fill whose (market, sequence) is known, or that the table refuses, changes nothing. */
  function Process(j: Journal, f: Fill): Journal {
    if IsNew(j, f) then Journal(j.fills[KeyOf(f) := f], j.changes + ChangesOf(f)) else j
  }

  function Deliver(fs: seq<Fill>): Journal {
    if fs == [] then Blank else Process(Deliver(fs[..|fs| - 1]), fs[|fs| - 1])
  }

  /** SELECT SUM(delta) ... WHERE user_id = user AND market_id = market. */
  function Net(cs: seq<Change>, user: Uuid, market: Uuid): int {
    if cs == [] then 0
    else
      var last := cs[|cs| - 1];
      Net(cs[..|cs| - 1], user, market) + if last.user == user && last.market == market then last.delta else 0
  }

  // ----- what a fill records for a user

  /** The processor takes the taker for the buyer, whatever the aggressor. */
  function Delta(f: Fill, user: Uuid, market: Uuid): int {
    if f.market != market then 0
    else (if f.takerUser == user then f.quantity as int else 0) - (if f.makerUser == user then f.quantity as int else 0)
  }

  /** Each of the fills applied once. */
  function DirectNet(fs: seq<Fill>, user: Uuid, market: Uuid): int {
    if fs == [] then 0 else DirectNet(fs[..|fs| - 1], user, market) + Delta(fs[|fs| - 1], user, market)
  }

  ghost function Deltas(fills: map<Key, Fill>, user: Uuid, market: Uuid): map<Key, int> {
    map k | k in fills :: Delta(fills[k], user, market)
  }

  lemma NetAppended(cs: seq<Change>, a: Change, b: Change, user: Uuid, market: Uuid)
    ensures Net(cs + [a, b], user, market)
            == Net(cs, user, market) + (if a.user == user && a.market == market then a.delta else 0)
               + (if b.user == user && b.market == market then b.delta else 0)
  {
    assert (cs + [a, b])[..|cs| + 1] == cs + [a] && (cs + [a])[..|cs|] == cs;
  }

  lemma ProcessNet(j: Journal, f: Fill, user: Uuid, market: Uuid)
    requires Acceptable(f) && KeyOf(f) !in j.fills
    ensures Net(Process(j, f).changes, user, market) == Net(j.changes, user, market) + Delta(f, user, market)
  {
    var q := AsI64(f.quantity);
    NetAppended(j.changes, Change(f.takerUser, f.market, q), Change(f.makerUser, f.market, -q), user, market);
  }

  /** A user's position is the sum over the distinct fills received. */
  lemma {:induction false} NetIsSum(fs: seq<Fill>, user: Uuid, market: Uuid)
    ensures Net(Deliver(fs).changes, user, market) == Sum(Deltas(Deliver(fs).fills, user, market))
  {
    if fs == [] {
      assert Deltas(map[], user, market) == map[];
    } else {
      var j, f := Deliver(fs[..|fs| - 1]), fs[|fs| - 1];
      NetIsSum(fs[..|fs| - 1], user, market);
      if Acceptable(f) && KeyOf(f) !in j.fills {
        ProcessNet(j, f, user, market);
        hide Delta, Net, ChangesOf, Acceptable;
        assert Deltas(j.fills[KeyOf(f) := f], user, market)
               == Deltas(j.fills, user, market)[KeyOf(f) := Delta(f, user, market)];
        SumInsert(Deltas(j.fills, user, market), KeyOf(f), Delta(f, user, market));
      }
    }
  }

  // ----- duplicates and order

  /** Equal keys name equal fills, as in the fills of one engine run. */
  ghost predicate Consistent(fs: seq<Fill>) {
    forall i, k :: 0 <= i < |fs| && 0 <= k < |fs| && KeyOf(fs[i]) == KeyOf(fs[k]) ==> fs[i] == fs[k]
  }

  ghost predicate SameFills(fs: seq<Fill>, gs: seq<Fill>) {
    forall f :: f in fs <==> f in gs
  }

  /** The fills table holds each acceptable fill delivered, and nothing else. */
  lemma {:induction false} DeliveredFills(fs: seq<Fill>)
    requires Consistent(fs)
    ensures forall k :: k in Deliver(fs).fills ==> Deliver(fs).fills[k] in fs && KeyOf(Deliver(fs).fills[k]) == k
                                                   && Acceptable(Deliver(fs).fills[k])
    ensures forall f :: f in fs && Acceptable(f) ==> KeyOf(f) in Deliver(fs).fills && Deliver(fs).fills[KeyOf(f)] == f
  {
    if fs != [] {
      var rest, last := fs[..|fs| - 1], fs[|fs| - 1];
      DeliveredFills(rest);
      assert fs == rest + [last];
      hide Acceptable;
      forall f | f in fs && Acceptable(f) ensures KeyOf(f) in Deliver(fs).fills && Deliver(fs).fills[KeyOf(f)] == f {
        if f !in rest { assert f == last; }
      }
    }
  }

  lemma SameTable(fs: seq<Fill>, gs: seq<Fill>)
    requires Consistent(fs) && SameFills(fs, gs)
    ensures Deliver(fs).fills == Deliver(gs).fills
  {
    ConsistentSame(fs, gs);
    DeliveredFills(fs);
    DeliveredFills(gs);
    hide Acceptable, Deliver;
    forall k ensures k in Deliver(fs).fills <==> k in Deliver(gs).fills {
      if k in Deliver(fs).fills { assert Deliver(fs).fills[k] in gs; }
      if k in Deliver(gs).fills { assert Deliver(gs).fills[k] in fs; }
    }
  }

  lemma ConsistentSame(fs: seq<Fill>, gs: seq<Fill>)
    requires Consistent(fs) && SameFills(fs, gs)
    ensures Consistent(gs)
  {
    forall i, k | 0 <= i < |gs| && 0 <= k < |gs| && KeyOf(gs[i]) == KeyOf(gs[k]) ensures gs[i] == gs[k] {
      assert gs[i] in fs && gs[k] in fs;
    }
  }

  /** Two deliveries of the same fills, with any duplicates and in any order, give the same positions. */
  lemma OrderAndDuplicatesDoNotMatter(fs: seq<Fill>, gs: seq<Fill>, user: Uuid, market: Uuid)
    requires Consistent(fs) && SameFills(fs, gs)
    ensures Net(Deliver(fs).changes, user, market) == Net(Deliver(gs).changes, user, market)
  {
    SameTable(fs, gs);
    NetIsSum(fs, user, market);
    NetIsSum(gs, user, market);
  }

  ghost predicate DistinctKeys(fs: seq<Fill>) {
    forall i, k :: 0 <= i < k < |fs| ==> KeyOf(fs[i]) != KeyOf(fs[k])
  }

  ghost predicate AllAcceptable(fs: seq<Fill>) {
    forall i :: 0 <= i < |fs| ==> Acceptable(fs[i])
  }

  lemma {:induction false} DeliveredOnce(fs: seq<Fill>, user: Uuid, market: Uuid)
    requires DistinctKeys(fs) && AllAcceptable(fs)
    ensures Net(Deliver(fs).changes, user, market) == DirectNet(fs, user, market)
  {
    if fs != [] {
      var rest, last := fs[..|fs| - 1], fs[|fs| - 1];
      DeliveredOnce(rest, user, market);
      DeliveredFills(rest);
      hide Acceptable, Delta;
      forall f | f in rest ensures KeyOf(f) != KeyOf(last) {
        var i :| 0 <= i < |rest| && rest[i] == f;
        assert fs[i] == f;
      }
      ProcessNet(Deliver(rest), last, user, market);
    }
  }

  /** So any delivery of a run's fills gives the positions of applying each of them exactly once. */
  lemma ExactlyOnce(run: seq<Fill>, delivery: seq<Fill>, user: Uuid, market: Uuid)
    requires DistinctKeys(run) && AllAcceptable(run)
    requires SameFills(run, delivery)
    ensures Net(Deliver(delivery).changes, user, market) == DirectNet(run, user, market)
  {
    assert Consistent(run);
    OrderAndDuplicatesDoNotMatter(run, delivery, user, market);
    DeliveredOnce(run, user, market);
  }

  // ----- recorded and held

  /** What a fill really gives a user: the aggressor says whether the taker has bought or sold. */
  function Share(f: Fill, user: Uuid, market: Uuid): int {
    if f.aggressor.Buy? then Delta(f, user, market) else -Delta(f, user, market)
  }

  /** What the user holds after the fills. */
  function Held(fs: seq<Fill>, user: Uuid, market: Uuid): int {
    if fs == [] then 0 else Held(fs[..|fs| - 1], user, market) + Share(fs[|fs| - 1], user, market)
  }

  /** What the fills with a selling taker record for the user. */
  function SellSide(fs: seq<Fill>, user: Uuid, market: Uuid): int {
    if fs == [] then 0
    else
      var last := fs[|fs| - 1];
      SellSide(fs[..|fs| - 1], user, market) + if last.aggressor.Sell? then Delta(last, user, market) else 0
  }

  lemma {:induction false} RecordedIs(fs: seq<Fill>, user: Uuid, market: Uuid)
    ensures DirectNet(fs, user, market) == Held(fs, user, market) + 2 * SellSide(fs, user, market)
  {
    if fs != [] {
      RecordedIs(fs[..|fs| - 1], user, market);
    }
  }

  /** The position that any delivery of a run records is what the user holds exactly if the user's fills with a
      selling taker cancel out: each of them is recorded with the wrong sign. */
  lemma RecordedIsHeld(run: seq<Fill>, delivery: seq<Fill>, user: Uuid, market: Uuid)
    requires DistinctKeys(run) && AllAcceptable(run) && SameFills(run, delivery)
    ensures Net(Deliver(delivery).changes, user, market)
            == Held(run, user, market) + 2 * SellSide(run, user, market)
    ensures Net(Deliver(delivery).changes, user, market) == Held(run, user, market)
            <==> SellSide(run, user, market) == 0
  {
    ExactlyOnce(run, delivery, user, market);
    RecordedIs(run, user, market);
  }

  /** One fill with a selling taker, of any quantity: the seller is recorded long, the buyer short. */
  lemma SellerGoesLong(f: Fill)
    requires Acceptable(f) && f.aggressor.Sell? && f.takerUser != f.makerUser
    ensures Net(Deliver([f]).changes, f.takerUser, f.market) == f.quantity as int
    ensures Held([f], f.takerUser, f.market) == -(f.quantity as int)
    ensures Net(Deliver([f]).changes, f.makerUser, f.market) == -(f.quantity as int)
    ensures Held([f], f.makerUser, f.market) == f.quantity as int
  {
    assert [f][..0] == [];
    ProcessNet(Blank, f, f.takerUser, f.market);
    ProcessNet(Blank, f, f.makerUser, f.market);
  }

  // ----- fills whose keys are known

  ghost function Keys(fs: seq<Fill>): set<Key> {
    set f | f in fs :: KeyOf(f)
  }

  /** The later fills without those that carry a key of the first ones. */
  ghost function Unseen(first: seq<Fill>, later: seq<Fill>): seq<Fill> {
    if later == [] then []
    else
      var last := later[|later| - 1];
      Unseen(first, later[..|later| - 1]) + if KeyOf(last) in Keys(first) then [] else [last]
  }

  lemma {:induction false} DeliveredKeys(fs: seq<Fill>)
    requires AllAcceptable(fs)
    ensures Deliver(fs).fills.Keys == Keys(fs)
  {
    if fs != [] {
      var rest, last := fs[..|fs| - 1], fs[|fs| - 1];
      DeliveredKeys(rest);
      assert fs == rest + [last];
      assert Keys(fs) == Keys(rest) + {KeyOf(last)};
    }
  }

  lemma DirectNetAppended(fs: seq<Fill>, f: Fill, user: Uuid, market: Uuid)
    ensures DirectNet(fs + [f], user, market) == DirectNet(fs, user, market) + Delta(f, user, market)
    ensures DirectNet(fs + [], user, market) == DirectNet(fs, user, market)
  {
    assert (fs + [f])[..|fs|] == fs && fs + [] == fs;
  }

  lemma OneFillMore(first: seq<Fill>, rest: seq<Fill>, last: Fill)
    ensures Deliver(first + (rest + [last])) == Process(Deliver(first + rest), last)
    ensures Unseen(first, rest + [last]) == Unseen(first, rest) + if KeyOf(last) in Keys(first) then [] else [last]
  {
    var all := first + (rest + [last]);
    assert all[..|all| - 1] == first + rest && all[|all| - 1] == last && (rest + [last])[..|rest|] == rest;
    hide Process, Keys, KeyOf;
  }

  lemma WithoutLast(rest: seq<Fill>, last: Fill)
    requires AllAcceptable(rest + [last]) && DistinctKeys(rest + [last])
    ensures AllAcceptable(rest) && DistinctKeys(rest) && Acceptable(last)
  {
    hide Acceptable, KeyOf;
    var fs := rest + [last];
    assert fs[|rest|] == last && forall i :: 0 <= i < |rest| ==> fs[i] == rest[i];
  }

  /** The key assumes one engine run. Of a second one, delivered behind the first, exactly the fills with a key of
      the first are lost; each of the others counts once. */
  lemma {:induction false} SecondRunIsDropped(first: seq<Fill>, second: seq<Fill>, user: Uuid, market: Uuid)
    requires AllAcceptable(first) && AllAcceptable(second) && DistinctKeys(second)
    ensures Net(Deliver(first + second).changes, user, market)
            == Net(Deliver(first).changes, user, market) + DirectNet(Unseen(first, second), user, market)
  {
    if second == [] {
      assert first + second == first;
    } else {
      hide Acceptable, Delta, Net, DirectNet, Deliver, AllAcceptable, DistinctKeys, Unseen, Keys, KeyOf;
      var rest, last := second[..|second| - 1], second[|second| - 1];
      assert second == rest + [last];
      WithoutLast(rest, last);
      SecondRunIsDropped(first, rest, user, market);
      KnownExactly(first, rest, last);
      OneFillMore(first, rest, last);
      DirectNetAppended(Unseen(first, rest), last, user, market);
      if KeyOf(last) !in Keys(first) { ProcessNet(Deliver(first + rest), last, user, market); }
    }
  }

  lemma KeysJoined(fs: seq<Fill>, gs: seq<Fill>)
    ensures Keys(fs + gs) == Keys(fs) + Keys(gs)
  {
    hide KeyOf;
  }

  lemma LastIsNew(rest: seq<Fill>, last: Fill)
    requires DistinctKeys(rest + [last])
    ensures KeyOf(last) !in Keys(rest)
  {
    hide KeyOf;
    var fs := rest + [last];
    assert forall i :: 0 <= i < |rest| ==> fs[i] == rest[i] && KeyOf(fs[i]) != KeyOf(fs[|rest|]);
  }

  lemma KnownExactly(first: seq<Fill>, rest: seq<Fill>, last: Fill)
    requires AllAcceptable(first) && AllAcceptable(rest) && DistinctKeys(rest + [last])
    ensures KeyOf(last) in Deliver(first + rest).fills <==> KeyOf(last) in Keys(first)
  {
    LastIsNew(rest, last);
    hide Deliver, Acceptable, DistinctKeys, KeyOf, Keys;
    KeysJoined(first, rest);
    DeliveredKeys(first + rest);
  }

  // ----- failures midway

  /** A fill received, and how many of its two changes are recorded before a statement fails. The insertion has
      been committed by then. */
  datatype Attempt = Attempt(fill: Fill, made: nat)

  function Receive(j: Journal, a: Attempt): Journal {
    if IsNew(j, a.fill) then
      Journal(j.fills[KeyOf(a.fill) := a.fill], j.changes + ChangesOf(a.fill)[..Min(a.made, 2)])
    else j
  }

  function Received(attempts: seq<Attempt>): Journal {
    if attempts == [] then Blank else Receive(Received(attempts[..|attempts| - 1]), attempts[|attempts| - 1])
  }

  function FillsIn(attempts: seq<Attempt>): (fs: seq<Fill>)
    ensures |fs| == |attempts| && forall i :: 0 <= i < |fs| ==> fs[i] == attempts[i].fill
  {
    seq(|attempts|, i requires 0 <= i < |attempts| => attempts[i].fill)
  }

  /** The changes that the first attempts at the fills have failed to record. */
  function Missing(attempts: seq<Attempt>): seq<Change> {
    if attempts == [] then []
    else
      var rest, a := attempts[..|attempts| - 1], attempts[|attempts| - 1];
      Missing(rest) + if IsNew(Received(rest), a.fill) then ChangesOf(a.fill)[Min(a.made, 2)..] else []
  }

  lemma {:induction false} NetJoined(cs: seq<Change>, more: seq<Change>, user: Uuid, market: Uuid)
    ensures Net(cs + more, user, market) == Net(cs, user, market) + Net(more, user, market)
  {
    if more == [] {
      assert cs + more == cs;
    } else {
      assert (cs + more)[..|cs + more| - 1] == cs + more[..|more| - 1];
      NetJoined(cs, more[..|more| - 1], user, market);
    }
  }

  lemma AttemptStep(attempts: seq<Attempt>, user: Uuid, market: Uuid)
    requires attempts != []
    ensures var rest, a := attempts[..|attempts| - 1], attempts[|attempts| - 1];
            var done, left := ChangesOf(a.fill)[..Min(a.made, 2)], ChangesOf(a.fill)[Min(a.made, 2)..];
            && FillsIn(attempts)[..|attempts| - 1] == FillsIn(rest) && FillsIn(attempts)[|attempts| - 1] == a.fill
            && Net(ChangesOf(a.fill), user, market) == Net(done, user, market) + Net(left, user, market)
  {
    var f, k := attempts[|attempts| - 1].fill, Min(attempts[|attempts| - 1].made, 2);
    assert ChangesOf(f) == ChangesOf(f)[..k] + ChangesOf(f)[k..];
    NetJoined(ChangesOf(f)[..k], ChangesOf(f)[k..], user, market);
  }

  /** Changes that a failure has kept from being recorded stay lost, however often the fill is delivered again: the
      fills table knows it, and each position lacks exactly what its first attempts have missed. */
  lemma {:induction false} FailuresLose(attempts: seq<Attempt>, user: Uuid, market: Uuid)
    ensures var j, all := Received(attempts), Deliver(FillsIn(attempts));
            && j.fills == all.fills && |j.changes| + |Missing(attempts)| == |all.changes|
            && Net(j.changes, user, market) + Net(Missing(attempts), user, market) == Net(all.changes, user, market)
  {
    if attempts != [] {
      var rest, a := attempts[..|attempts| - 1], attempts[|attempts| - 1];
      FailuresLose(rest, user, market);
      AttemptStep(attempts, user, market);
      var j, all, done := Received(rest), Deliver(FillsIn(rest)), ChangesOf(a.fill)[..Min(a.made, 2)];
      hide Acceptable, Net, ChangesOf;
      assert Missing(rest) + [] == Missing(rest);
      NetJoined(j.changes, done, user, market);
      NetJoined(all.changes, ChangesOf(a.fill), user, market);
      NetJoined(Missing(rest), ChangesOf(a.fill)[Min(a.made, 2)..], user, market);
    }
  }

  lemma {:induction false} NothingMissing(attempts: seq<Attempt>)
    ensures Received(attempts) == Deliver(FillsIn(attempts)) <==> Missing(attempts) == []
  {
    if attempts != [] {
      var rest, a := attempts[..|attempts| - 1], attempts[|attempts| - 1];
      NothingMissing(rest);
      var f := a.fill;
      FailuresLose(attempts, f.takerUser, f.market);
      AttemptStep(attempts, f.takerUser, f.market);
      hide Acceptable, Net;
      if Missing(attempts) == [] && IsNew(Received(rest), f) {
        assert ChangesOf(f)[..Min(a.made, 2)] == ChangesOf(f);
      }
    }
  }

  /** The i-th fill is acceptable and the first acceptable one with its key. */
  ghost predicate FirstOfItsKey(fs: seq<Fill>, i: nat)
    requires i < |fs|
  {
    Acceptable(fs[i]) && forall k :: 0 <= k < i && Acceptable(fs[k]) ==> KeyOf(fs[k]) != KeyOf(fs[i])
  }

  /** The fills table holds exactly the keys of the acceptable fills. */
  lemma {:induction false} KnownKeys(fs: seq<Fill>, key: Key)
    ensures key in Deliver(fs).fills <==> exists i :: 0 <= i < |fs| && Acceptable(fs[i]) && KeyOf(fs[i]) == key
  {
    if fs != [] {
      var rest, last := fs[..|fs| - 1], fs[|fs| - 1];
      KnownKeys(rest, key);
      assert forall i :: 0 <= i < |rest| ==> fs[i] == rest[i];
      hide Acceptable;
    }
  }

  lemma FirstIsNew(fs: seq<Fill>, i: nat)
    requires i < |fs|
    ensures FirstOfItsKey(fs, i) <==> IsNew(Deliver(fs[..i]), fs[i])
  {
    KnownKeys(fs[..i], KeyOf(fs[i]));
    assert forall k :: 0 <= k < i ==> fs[..i][k] == fs[k];
    hide Acceptable, Deliver;
  }

  /** Of the fills with one key, the acceptable one that came first. */
  ghost function Firsts(fs: seq<Fill>): seq<Fill> {
    if fs == [] then []
    else Firsts(fs[..|fs| - 1]) + if FirstOfItsKey(fs, |fs| - 1) then [fs[|fs| - 1]] else []
  }

  /** Any delivery whatever counts each key once, for the fill that came first. */
  lemma {:induction false} CountsFirsts(fs: seq<Fill>, user: Uuid, market: Uuid)
    ensures Net(Deliver(fs).changes, user, market) == DirectNet(Firsts(fs), user, market)
  {
    if fs != [] {
      var rest, last := fs[..|fs| - 1], fs[|fs| - 1];
      CountsFirsts(rest, user, market);
      FirstIsNew(fs, |fs| - 1);
      DirectNetAppended(Firsts(rest), last, user, market);
      hide Acceptable, Net, DirectNet, Delta, ChangesOf;
      if IsNew(Deliver(rest), last) { ProcessNet(Deliver(rest), last, user, market); }
    }
  }

  /** They are fills of the delivery, with different keys, and every key of the delivery is among them. */
  lemma {:induction false} FirstsAre(fs: seq<Fill>)
    requires AllAcceptable(fs)
    ensures DistinctKeys(Firsts(fs)) && Keys(Firsts(fs)) == Keys(fs)
    ensures forall f :: f in Firsts(fs) ==> f in fs
  {
    if fs != [] {
      var rest, last := fs[..|fs| - 1], fs[|fs| - 1];
      assert fs == rest + [last];
      hide Deliver, Acceptable, KeyOf, FirstOfItsKey, DistinctKeys, Keys, AllAcceptable;
      WithoutLastFill(rest, last);
      FirstsAre(rest);
      LastIsFirst(rest, last);
      KeysJoined(rest, [last]);
      KeysJoined(Firsts(rest), [last]);
      KeysOfOne(last);
      if KeyOf(last) !in Keys(rest) {
        DistinctAppended(Firsts(rest), last);
      } else {
        assert Keys(rest) + {KeyOf(last)} == Keys(rest);
      }
    }
  }

  lemma KeysOfOne(f: Fill)
    ensures Keys([f]) == {KeyOf(f)}
  {
    hide KeyOf;
    assert f in [f];
  }

  lemma LastIsFirst(rest: seq<Fill>, last: Fill)
    requires AllAcceptable(rest) && Acceptable(last)
    ensures FirstOfItsKey(rest + [last], |rest|) <==> KeyOf(last) !in Keys(rest)
    ensures Firsts(rest + [last]) == if KeyOf(last) in Keys(rest) then Firsts(rest) else Firsts(rest) + [last]
  {
    var fs := rest + [last];
    assert fs[..|rest|] == rest && fs[|rest|] == last;
    DeliveredKeys(rest);
    FirstIsNew(fs, |rest|);
    assert Firsts(rest) + [] == Firsts(rest);
    hide Deliver, Acceptable, KeyOf, FirstOfItsKey, AllAcceptable;
  }

  lemma WithoutLastFill(rest: seq<Fill>, last: Fill)
    requires AllAcceptable(rest + [last])
    ensures AllAcceptable(rest) && Acceptable(last)
  {
    hide Acceptable;
    var fs := rest + [last];
    assert fs[|rest|] == last && forall i :: 0 <= i < |rest| ==> fs[i] == rest[i];
  }

  lemma DistinctAppended(fs: seq<Fill>, f: Fill)
    requires DistinctKeys(fs) && KeyOf(f) !in Keys(fs)
    ensures DistinctKeys(fs + [f])
  {
    hide KeyOf;
    assert forall i :: 0 <= i < |fs| ==> fs[i] in fs && KeyOf(fs[i]) in Keys(fs);
  }

  ghost predicate FirstsComplete(attempts: seq<Attempt>) {
    forall i :: 0 <= i < |attempts| && FirstOfItsKey(FillsIn(attempts), i) ==> attempts[i].made >= 2
  }

  lemma FirstsSplit(rest: seq<Attempt>, a: Attempt)
    ensures FirstsComplete(rest + [a])
            <==> FirstsComplete(rest) && (IsNew(Received(rest), a.fill) ==> a.made >= 2)
  {
    hide Acceptable, Received, Deliver, KeyOf;
    var all := rest + [a];
    var fs := FillsIn(all);
    FailuresLose(rest, a.fill.takerUser, a.fill.market);
    FirstIsNew(fs, |rest|);
    assert fs[..|rest|] == FillsIn(rest);
    forall i | 0 <= i < |rest| ensures FirstOfItsKey(fs, i) <==> FirstOfItsKey(FillsIn(rest), i) {
      assert forall k :: 0 <= k <= i ==> fs[k] == FillsIn(rest)[k];
    }
    assert forall i :: 0 <= i < |rest| ==> all[i] == rest[i];
    assert all[|rest|] == a;
  }

  lemma {:induction false} MissingExactly(attempts: seq<Attempt>)
    ensures Missing(attempts) == [] <==> FirstsComplete(attempts)
  {
    if attempts != [] {
      var rest, a := attempts[..|attempts| - 1], attempts[|attempts| - 1];
      MissingExactly(rest);
      assert attempts == rest + [a];
      FirstsSplit(rest, a);
      hide FirstsComplete, Received, IsNew;
    }
  }

  /** The tables are as if nothing had failed if and only if the first attempt at each acceptable fill has recorded
      both changes. */
  lemma CompleteExactly(attempts: seq<Attempt>)
    ensures Received(attempts) == Deliver(FillsIn(attempts)) <==> FirstsComplete(attempts)
  {
    NothingMissing(attempts);
    MissingExactly(attempts);
  }

  // ----- zero sum

  ghost function UsersIn(cs: seq<Change>, market: Uuid): set<Uuid> {
    set c | c in cs && c.market == market :: c.user
  }

  /** Everyone's position in a market. */
  ghost function Positions(cs: seq<Change>, market: Uuid): map<Uuid, int> {
    map u | u in UsersIn(cs, market) :: Net(cs, u, market)
  }

  function TotalDelta(cs: seq<Change>, market: Uuid): int {
    if cs == [] then 0
    else TotalDelta(cs[..|cs| - 1], market) + if cs[|cs| - 1].market == market then cs[|cs| - 1].delta else 0
  }

  lemma {:induction false} NoPosition(cs: seq<Change>, user: Uuid, market: Uuid)
    requires user !in UsersIn(cs, market)
    ensures Net(cs, user, market) == 0
  {
    if cs != [] {
      var rest, last := cs[..|cs| - 1], cs[|cs| - 1];
      assert last in cs;
      assert user !in UsersIn(rest, market);
      NoPosition(rest, user, market);
    }
  }

  lemma NetOneMore(cs: seq<Change>, c: Change, user: Uuid, market: Uuid)
    ensures Net(cs + [c], user, market)
            == Net(cs, user, market) + if c.user == user && c.market == market then c.delta else 0
  {
    assert (cs + [c])[..|cs|] == cs;
  }

  /** Positions after one more change in the market. */
  lemma PositionsAppended(cs: seq<Change>, c: Change, market: Uuid)
    ensures c.market != market ==> Positions(cs + [c], market) == Positions(cs, market)
    ensures c.market == market ==>
              Positions(cs + [c], market) == Positions(cs, market)[c.user := Net(cs, c.user, market) + c.delta]
  {
    hide Net, UsersIn;
    var cs' := cs + [c];
    UsersAppended(cs, c, market);
    forall u
      ensures Net(cs', u, market) == Net(cs, u, market) + if c.user == u && c.market == market then c.delta else 0
    {
      NetOneMore(cs, c, u, market);
    }
  }

  lemma UsersAppended(cs: seq<Change>, c: Change, market: Uuid)
    ensures UsersIn(cs + [c], market) == UsersIn(cs, market) + if c.market == market then {c.user} else {}
  {
    assert c in cs + [c];
    assert forall x :: x in cs ==> x in cs + [c];
  }

  lemma {:induction false} PositionsTotal(cs: seq<Change>, market: Uuid)
    ensures Sum(Positions(cs, market)) == TotalDelta(cs, market)
  {
    if cs == [] {
      assert Positions(cs, market) == map[];
    } else {
      var rest, c := cs[..|cs| - 1], cs[|cs| - 1];
      PositionsTotal(rest, market);
      assert cs == rest + [c];
      PositionsStep(rest, c, market);
      hide Positions, Sum;
    }
  }

  lemma PositionAt(cs: seq<Change>, user: Uuid, market: Uuid)
    ensures Net(cs, user, market) == if user in Positions(cs, market) then Positions(cs, market)[user] else 0
  {
    if user !in UsersIn(cs, market) { NoPosition(cs, user, market); }
  }

  lemma PositionsStep(cs: seq<Change>, c: Change, market: Uuid)
    ensures Sum(Positions(cs + [c], market)) == Sum(Positions(cs, market)) + if c.market == market then c.delta else 0
  {
    PositionsAppended(cs, c, market);
    PositionAt(cs, c.user, market);
    hide Positions, Sum, Net;
    SumSet(Positions(cs, market), c.user, Net(cs, c.user, market) + c.delta);
  }

  lemma SumSet(m: map<Uuid, int>, k: Uuid, v: int)
    ensures Sum(m[k := v]) == Sum(m) + v - if k in m then m[k] else 0
  {
    if k in m { SumUpdate(m, k, v); } else { SumInsert(m, k, v); }
  }

  lemma {:induction false} DeliveredBalanced(fs: seq<Fill>, market: Uuid)
    ensures TotalDelta(Deliver(fs).changes, market) == 0
  {
    if fs != [] {
      var j, f := Deliver(fs[..|fs| - 1]), fs[|fs| - 1];
      DeliveredBalanced(fs[..|fs| - 1], market);
      if Acceptable(f) && KeyOf(f) !in j.fills {
        var a, b := ChangesOf(f)[0], ChangesOf(f)[1];
        var cs := j.changes + [a, b];
        assert cs[..|cs| - 1] == j.changes + [a] && (j.changes + [a])[..|j.changes|] == j.changes;
      }
    }
  }

  /** After any delivery at all, the positions in every market add up to zero. */
  lemma ZeroSum(fs: seq<Fill>, market: Uuid)
    ensures Sum(Positions(Deliver(fs).changes, market)) == 0
  {
    PositionsTotal(Deliver(fs).changes, market);
    DeliveredBalanced(fs, market);
  }
}
