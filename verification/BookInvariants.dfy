/** Invariants of the pure book that its operations keep, stated without reference to the
    engine's arrays: how many orders rest, and what the cancel index may name. */
module BookInvariants {
  import opened Types
  import opened BookSpec

  /** The order a bucket names rests where the bucket says, and its id belongs in the bucket. */
  ghost predicate Resident(h: Hash, s: Sides, k: nat, r: Ref) {
    var levels := s.Get(r.side);
    exists i, j :: 0 <= i < |levels| && 0 <= j < |levels[i].orders| && levels[i].price == r.price
                   && levels[i].orders[j].ticket == r.ticket && Bucket(h, levels[i].orders[j].id) == k
  }

  ghost predicate RefsOk(h: Hash, s: Sides, index: map<nat, Ref>) {
    forall k :: k in index ==> k < MAX_ORDERS && Resident(h, s, k, index[k])
  }


  // ----- counting

  lemma CountReplaced(levels: seq<Level>, i: nat, lv: Level)
    requires i < |levels|
    ensures OrderCount(levels[i := lv]) == OrderCount(levels) - |levels[i].orders| + |lv.orders|
    ensures |levels[i].orders| <= OrderCount(levels)
  {
    if i > 0 {
      assert levels[i := lv][1..] == levels[1..][i - 1 := lv];
      CountReplaced(levels[1..], i - 1, lv);
    }
  }

  lemma {:induction false} CountInserted(levels: seq<Level>, i: nat, lv: Level)
    requires i <= |levels|
    ensures OrderCount(Inserted(levels, i, lv)) == OrderCount(levels) + |lv.orders|
  {
    var levels' := Inserted(levels, i, lv);
    if i == 0 {
      assert levels'[1..] == levels;
    } else {
      InsertedIndex(levels, i, lv);
      assert levels'[0] == levels[0];
      assert levels'[1..] == Inserted(levels[1..], i - 1, lv);
      CountInserted(levels[1..], i - 1, lv);
    }
  }

  lemma CountWithout(levels: seq<Level>, i: nat)
    requires i < |levels|
    ensures OrderCount(Without(levels, i)) == OrderCount(levels) - |levels[i].orders|
  {
    var levels' := Without(levels, i);
    if i == 0 {
      assert levels' == levels[1..];
    } else {
      assert levels'[1..] == Without(levels[1..], i - 1);
      CountWithout(levels[1..], i - 1);
    }
  }

  // ----- what the index may name

  lemma ShowResident(h: Hash, s: Sides, k: nat, r: Ref, i: nat, j: nat)
    requires i < |s.Get(r.side)| && j < |s.Get(r.side)[i].orders|
    requires s.Get(r.side)[i].price == r.price
    requires s.Get(r.side)[i].orders[j].ticket == r.ticket
    requires Bucket(h, s.Get(r.side)[i].orders[j].id) == k
    ensures Resident(h, s, k, r)
  {
  }

  lemma ResidentPosition(h: Hash, s: Sides, k: nat, r: Ref) returns (i: nat, j: nat)
    requires Resident(h, s, k, r)
    ensures i < |s.Get(r.side)| && j < |s.Get(r.side)[i].orders|
    ensures s.Get(r.side)[i].price == r.price
    ensures s.Get(r.side)[i].orders[j].ticket == r.ticket
    ensures Bucket(h, s.Get(r.side)[i].orders[j].id) == k
  {
    var levels := s.Get(r.side);
    var a, b :| 0 <= a < |levels| && 0 <= b < |levels[a].orders| && levels[a].price == r.price
                && levels[a].orders[b].ticket == r.ticket && Bucket(h, levels[a].orders[b].id) == k;
    i, j := a, b;
  }

  /** An order leaves and its bucket is cleared: what the other buckets name still rests. */
  lemma RefsTaken(h: Hash, s: Sides, index: map<nat, Ref>, sd: Side, i: nat, j: nat)
    requires RefsOk(h, s, index)
    requires i < |s.Get(sd)| && j < |s.Get(sd)[i].orders|
    ensures var lv := s.Get(sd)[i];
            RefsOk(h, s.Set(sd, s.Get(sd)[i := lv.(orders := Without(lv.orders, j))]),
                   index - {Bucket(h, lv.orders[j].id)})
  {
    var lv := s.Get(sd)[i];
    var s' := s.Set(sd, s.Get(sd)[i := lv.(orders := Without(lv.orders, j))]);
    var index' := index - {Bucket(h, lv.orders[j].id)};
    forall k | k in index' ensures k < MAX_ORDERS && Resident(h, s', k, index'[k]) {
      var a, b := ResidentPosition(h, s, k, index[k]);
      if index[k].side == sd && a == i {
        ShowResident(h, s', k, index[k], a, if b < j then b else b - 1);
      } else {
        ShowResident(h, s', k, index[k], a, b);
      }
    }
  }

  /** A queue changes, but every order in it keeps its place, ticket and id. */
  lemma RefsReplaced(h: Hash, s: Sides, index: map<nat, Ref>, sd: Side, i: nat, lv: Level)
    requires RefsOk(h, s, index) && i < |s.Get(sd)|
    requires lv.price == s.Get(sd)[i].price && |s.Get(sd)[i].orders| <= |lv.orders|
    requires forall j :: 0 <= j < |s.Get(sd)[i].orders| ==>
               lv.orders[j].ticket == s.Get(sd)[i].orders[j].ticket && lv.orders[j].id == s.Get(sd)[i].orders[j].id
    ensures RefsOk(h, s.Set(sd, s.Get(sd)[i := lv]), index)
  {
    var s' := s.Set(sd, s.Get(sd)[i := lv]);
    forall k | k in index ensures k < MAX_ORDERS && Resident(h, s', k, index[k]) {
      var a, b := ResidentPosition(h, s, k, index[k]);
      ShowResident(h, s', k, index[k], a, b);
    }
  }

  lemma RefsLevelAdded(h: Hash, s: Sides, index: map<nat, Ref>, sd: Side, i: nat, lv: Level)
    requires RefsOk(h, s, index) && i <= |s.Get(sd)|
    ensures RefsOk(h, s.Set(sd, Inserted(s.Get(sd), i, lv)), index)
  {
    hide Resident, Bucket;
    var s' := s.Set(sd, Inserted(s.Get(sd), i, lv));
    forall k | k in index ensures k < MAX_ORDERS && Resident(h, s', k, index[k]) {
      var r := index[k];
      var a, b := ResidentPosition(h, s, k, r);
      var c := if r.side == sd && a >= i then a + 1 else a;
      assert s'.Get(r.side)[c] == s.Get(r.side)[a] by { InsertedIndex(s.Get(sd), i, lv); }
      ShowResident(h, s', k, r, c, b);
    }
  }

  lemma RefsLevelRemoved(h: Hash, s: Sides, index: map<nat, Ref>, sd: Side, i: nat)
    requires RefsOk(h, s, index) && i < |s.Get(sd)| && s.Get(sd)[i].orders == []
    ensures RefsOk(h, s.Set(sd, Without(s.Get(sd), i)), index)
  {
    hide Resident, Bucket;
    var s' := s.Set(sd, Without(s.Get(sd), i));
    forall k | k in index ensures k < MAX_ORDERS && Resident(h, s', k, index[k]) {
      var r := index[k];
      var a, b := ResidentPosition(h, s, k, r);
      var c := if r.side == sd && a > i then a - 1 else a;
      assert s'.Get(r.side)[c] == s.Get(r.side)[a];
      ShowResident(h, s', k, r, c, b);
    }
  }

  // ----- order

  lemma OrderedReplaced(sd: Side, levels: seq<Level>, i: nat, lv: Level)
    requires Ordered(sd, levels) && i < |levels| && lv.price == levels[i].price && Fifo(lv.orders)
    ensures Ordered(sd, levels[i := lv])
  {
  }

  // ----- tickets

  lemma OlderMonotone(s: Sides, m: nat, n: nat)
    requires OlderSides(s, m) && m <= n
    ensures OlderSides(s, n)
  {
    forall i | 0 <= i < |s.bids| ensures OlderQueue(s.bids[i].orders, n) {
      assert OlderQueue(s.bids[i].orders, m);
    }
    forall i | 0 <= i < |s.asks| ensures OlderQueue(s.asks[i].orders, n) {
      assert OlderQueue(s.asks[i].orders, m);
    }
  }

  lemma OlderIsAbsent(s: Sides, n: nat)
    requires OlderSides(s, n)
    ensures Absent(s, n)
  {
    forall i | 0 <= i < |s.bids| ensures NotQueued(s.bids[i].orders, n) {
      assert OlderQueue(s.bids[i].orders, n);
    }
    forall i | 0 <= i < |s.asks| ensures NotQueued(s.asks[i].orders, n) {
      assert OlderQueue(s.asks[i].orders, n);
    }
  }

  lemma OlderReplaced(levels: seq<Level>, n: nat, i: nat, lv: Level)
    requires Older(levels, n) && i < |levels| && OlderQueue(lv.orders, n)
    ensures Older(levels[i := lv], n)
  {
  }

  lemma OlderInserted(levels: seq<Level>, n: nat, i: nat, lv: Level)
    requires Older(levels, n) && i <= |levels| && OlderQueue(lv.orders, n)
    ensures Older(Inserted(levels, i, lv), n)
  {
    InsertedIndex(levels, i, lv);
    forall k | 0 <= k <= |levels| ensures OlderQueue(Inserted(levels, i, lv)[k].orders, n) {
      if k != i { assert OlderQueue(levels[if k < i then k else k - 1].orders, n); }
    }
  }

  lemma OlderLevelsWithout(levels: seq<Level>, n: nat, i: nat)
    requires Older(levels, n) && i < |levels|
    ensures Older(Without(levels, i), n)
  {
    forall k | 0 <= k < |levels| - 1 ensures OlderQueue(Without(levels, i)[k].orders, n) {
      assert OlderQueue(levels[if k < i then k else k + 1].orders, n);
    }
  }

  lemma AppendFifo(q: seq<Order>, o: Order)
    requires Fifo(q) && OlderQueue(q, o.ticket)
    ensures Fifo(q + [o]) && OlderQueue(q + [o], o.ticket + 1)
  {
  }
}
