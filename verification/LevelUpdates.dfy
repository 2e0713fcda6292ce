/** What putting an empty level into a side's list and taking one out do to the layout of
    the book in memory: the array writes of `find_or_create_level` and `remove_level`. */
module LevelUpdates {
  import opened Types
  import opened BookSpec
  import opened LinkedLists
  import opened BookMemory

  function NextLevelSet(ls: seq<LevelSlot>, l: u32, v: u32): (r: seq<LevelSlot>)
    ensures |r| == |ls|
  {
    if l as int < |ls| then ls[l := ls[l].(nextLevel := v)] else ls
  }

  function PrevLevelSet(ls: seq<LevelSlot>, l: u32, v: u32): (r: seq<LevelSlot>)
    ensures |r| == |ls|
  {
    if l as int < |ls| then ls[l := ls[l].(prevLevel := v)] else ls
  }

  /** A level slot without its list links. */
  function Body(x: LevelSlot): LevelSlot {
    x.(nextLevel := INVALID, prevLevel := INVALID)
  }

  ghost predicate SameBodies(ls: seq<LevelSlot>, ls': seq<LevelSlot>) {
    |ls| == |ls'| && forall k :: 0 <= k < |ls| ==> Body(ls[k]) == Body(ls'[k])
  }

  lemma NextLevelLinks(ls: seq<LevelSlot>, l: u32, v: u32)
    ensures LevelLinks(NextLevelSet(ls, l, v)) == SetNext(LevelLinks(ls), l, v)
    ensures SameBodies(ls, NextLevelSet(ls, l, v))
  {
  }

  lemma PrevLevelLinks(ls: seq<LevelSlot>, l: u32, v: u32)
    ensures LevelLinks(PrevLevelSet(ls, l, v)) == SetPrev(LevelLinks(ls), l, v)
    ensures SameBodies(ls, PrevLevelSet(ls, l, v))
  {
  }

  lemma HeadersFrame(ls: seq<LevelSlot>, ls': seq<LevelSlot>, refs: seq<u32>, levels: seq<Level>, at: Slots)
    requires |refs| == |levels| && |ls| == |ls'|
    requires forall i :: 0 <= i < |refs| && refs[i] as int < |ls| ==> Body(ls[refs[i]]) == Body(ls'[refs[i]])
    requires Headers(ls, refs, levels, at)
    ensures Headers(ls', refs, levels, at)
  {
    forall i | 0 <= i < |levels| ensures refs[i] as int < |ls'| && Header(ls'[refs[i]], levels[i], at) {
      assert Header(ls[refs[i]], levels[i], at);
      assert Body(ls[refs[i]]) == Body(ls'[refs[i]]);
    }
  }

  // ----- a new empty level

  function FreshLevel(price: u32, prev: u32, next: u32): LevelSlot {
    LevelSlot(0, INVALID, INVALID, 0, price, next, prev)
  }

  function LevelLinked(ls: seq<LevelSlot>, l: u32, price: u32, prev: u32, next: u32): (r: seq<LevelSlot>)
    requires l as int < |ls|
    ensures |r| == |ls|
  {
    PrevLevelSet(NextLevelSet(ls[l := FreshLevel(price, prev, next)], prev, l), next, l)
  }

  lemma LinkedOverwrites(ls: seq<LevelSlot>, l: u32, v: LevelSlot, price: u32, prev: u32, next: u32)
    requires l as int < |ls|
    ensures LevelLinked(ls[l := v], l, price, prev, next) == LevelLinked(ls, l, price, prev, next)
  {
    assert ls[l := v][l := FreshLevel(price, prev, next)] == ls[l := FreshLevel(price, prev, next)];
  }

  function LevelAdded(m: Mem, sd: Side, l: u32, price: u32, prev: u32, next: u32): Mem
    requires l as int < |m.ls| && price as int < |m.Map(sd)|
  {
    m.(ls := LevelLinked(m.ls, l, price, prev, next))
     .SetSide(sd, m.Map(sd)[price := l], if prev == INVALID then l else m.Head(sd))
  }

  lemma LinkedLevelLinks(ls: seq<LevelSlot>, l: u32, price: u32, prev: u32, next: u32)
    requires l as int < |ls|
    ensures LevelLinks(LevelLinked(ls, l, price, prev, next)) == LinkIn(LevelLinks(ls), l, prev, next)
    ensures SameBodies(ls[l := FreshLevel(price, prev, next)], LevelLinked(ls, l, price, prev, next))
  {
    var ls1 := ls[l := FreshLevel(price, prev, next)];
    assert LevelLinks(ls1) == LevelLinks(ls)[l := Link(next, prev)];
    NextLevelLinks(ls1, prev, l);
    PrevLevelLinks(NextLevelSet(ls1, prev, l), next, l);
  }

  function NewLevels(levels: seq<Level>, i: nat, price: u32): seq<Level>
    requires i <= |levels|
  {
    Inserted(levels, i, Level(price, []))
  }

  lemma AddedRefs(pm: seq<u32>, levels: seq<Level>, i: nat, price: u32, l: u32)
    requires i <= |levels| && price as int < |pm| && !HasPrice(levels, price)
    ensures RefsOf(pm[price := l], NewLevels(levels, i, price)) == Inserted(RefsOf(pm, levels), i, l)
  {
    var levels' := NewLevels(levels, i, price);
    var refs, refs' := RefsOf(pm, levels), RefsOf(pm[price := l], levels');
    InsertedIndex(levels, i, Level(price, []));
    InsertedIndex(refs, i, l);
    forall k | 0 <= k < |refs'| ensures refs'[k] == Inserted(refs, i, l)[k] {
      if k != i {
        assert levels'[k] == levels[if k < i then k else k - 1];
      }
    }
  }

  lemma AddedMap(pm: seq<u32>, levels: seq<Level>, i: nat, price: u32, l: u32)
    requires MapExact(pm, levels) && i <= |levels| && price as int < |pm|
    ensures MapExact(pm[price := l], NewLevels(levels, i, price))
  {
    var levels' := NewLevels(levels, i, price);
    InsertedIndex(levels, i, Level(price, []));
    forall p | 0 <= p < |pm| && pm[price := l][p] != INVALID ensures HasPrice(levels', p) {
      if p == price {
        assert levels'[i].price == p;
      } else {
        var k :| 0 <= k < |levels| && levels[k].price == p;
        assert levels'[if k < i then k else k + 1].price == p;
      }
    }
  }

  lemma AddedHeaders(ls: seq<LevelSlot>, refs: seq<u32>, levels: seq<Level>, at: Slots, i: nat, price: u32,
                     l: u32, prev: u32, next: u32)
    requires |refs| == |levels| && Headers(ls, refs, levels, at) && l as int < |ls| && l !in refs && i <= |levels|
    ensures Headers(LevelLinked(ls, l, price, prev, next), Inserted(refs, i, l), NewLevels(levels, i, price), at)
  {
    var ls1 := ls[l := FreshLevel(price, prev, next)];
    var refs', levels' := Inserted(refs, i, l), NewLevels(levels, i, price);
    InsertedIndex(levels, i, Level(price, []));
    InsertedIndex(refs, i, l);
    forall k | 0 <= k < |levels'| ensures refs'[k] as int < |ls1| && Header(ls1[refs'[k]], levels'[k], at) {
      if k != i {
        var k0 := if k < i then k else k - 1;
        assert refs'[k] == refs[k0] && Header(ls[refs[k0]], levels[k0], at);
      }
    }
    LinkedLevelLinks(ls, l, price, prev, next);
    HeadersFrame(ls1, LevelLinked(ls, l, price, prev, next), refs', levels', at);
  }

  lemma AddedQueues(os: seq<OrderSlot>, sd: Side, levels: seq<Level>, at: Slots, i: nat, price: u32)
    requires QueuesOk(os, sd, levels, at) && |os| == MAX_ORDERS && i <= |levels|
    requires forall k :: 0 <= k < |levels| ==> Fifo(levels[k].orders)
    ensures QueuesOk(os, sd, NewLevels(levels, i, price), at)
    ensures forall k :: 0 <= k <= |levels| ==> Fifo(NewLevels(levels, i, price)[k].orders)
  {
    var levels' := NewLevels(levels, i, price);
    InsertedIndex(levels, i, Level(price, []));
    forall k | 0 <= k < |levels'| ensures QueueOk(os, sd, levels'[k], at) && Fifo(levels'[k].orders) {
      if k != i {
        assert QueueOk(os, sd, levels[if k < i then k else k - 1], at);
      }
    }
  }

  lemma AddedSide(m: Mem, sd: Side, levels: seq<Level>, at: Slots, i: nat, price: u32, l: u32)
    requires SideOk(m, sd, levels, at) && |m.ls| == MAX_LEVELS && |m.os| == MAX_ORDERS && i <= |levels|
    requires l as int < |m.ls| && l !in RefsOf(m.Map(sd), levels)
    requires price as int < MAP_SIZE && !HasPrice(levels, price)
    requires Sorted(sd, NewLevels(levels, i, price))
    ensures var refs := RefsOf(m.Map(sd), levels);
            var m' := LevelAdded(m, sd, l, price, At(refs, i - 1), At(refs, i));
            && SideOk(m', sd, NewLevels(levels, i, price), at)
            && RefsOf(m'.Map(sd), NewLevels(levels, i, price)) == Inserted(refs, i, l)
  {
    var pm := m.Map(sd);
    var refs := RefsOf(pm, levels);
    var prev, next := At(refs, i - 1), At(refs, i);
    var levels' := NewLevels(levels, i, price);
    var m' := LevelAdded(m, sd, l, price, prev, next);
    RefsDistinct(m.ls, pm, sd, levels, at);
    AddedRefs(pm, levels, i, price, l);
    AddedMap(pm, levels, i, price, l);
    AddedHeaders(m.ls, refs, levels, at, i, price, l, prev, next);
    LinkedLevelLinks(m.ls, l, price, prev, next);
    LinkChain(LevelLinks(m.ls), refs, i, l);
    InsertedIndex(refs, i, l);
    if i > 0 { assert Header(m.ls[refs[i - 1]], levels[i - 1], at); }
    assert m'.Map(sd) == pm[price := l];
    assert m'.Head(sd) == First(Inserted(refs, i, l));
    AddedQueues(m.os, sd, levels, at, i, price);
  }

  lemma AddedElsewhere(m: Mem, sd: Side, levels: seq<Level>, at: Slots, i: nat, price: u32, l: u32, levels2: seq<Level>)
    requires SideOk(m, sd, levels, at) && SideOk(m, sd.Opposite(), levels2, at) && i <= |levels|
    requires l as int < |m.ls| && price as int < MAP_SIZE
    requires Apart(RefsOf(m.Map(sd), levels), RefsOf(m.Map(sd.Opposite()), levels2))
    requires l !in RefsOf(m.Map(sd.Opposite()), levels2)
    ensures var refs := RefsOf(m.Map(sd), levels);
            SideOk(LevelAdded(m, sd, l, price, At(refs, i - 1), At(refs, i)), sd.Opposite(), levels2, at)
  {
    var other := sd.Opposite();
    var refs, refs2 := RefsOf(m.Map(sd), levels), RefsOf(m.Map(other), levels2);
    var prev, next := At(refs, i - 1), At(refs, i);
    var m' := LevelAdded(m, sd, l, price, prev, next);
    assert m'.Map(other) == m.Map(other) && m'.Head(other) == m.Head(other) && m'.os == m.os;
    LinkedLevelLinks(m.ls, l, price, prev, next);
    LinkApart(LevelLinks(m.ls), refs, i, l, refs2);
    HeadersFrame(m.ls, m'.ls, refs2, levels2, at);
  }

  lemma AddedLayout(m: Mem, s: Sides, at: Slots, sd: Side, i: nat, price: u32, l: u32)
    requires Layout(m, s, at) && i <= |s.Get(sd)|
    requires l as int < |m.ls|
    requires l !in RefsOf(m.bidMap, s.bids) && l !in RefsOf(m.askMap, s.asks)
    requires price as int < MAP_SIZE && !HasPrice(s.Get(sd), price)
    requires Sorted(sd, NewLevels(s.Get(sd), i, price))
    ensures var refs := RefsOf(m.Map(sd), s.Get(sd));
            var m' := LevelAdded(m, sd, l, price, At(refs, i - 1), At(refs, i));
            && Layout(m', s.Set(sd, NewLevels(s.Get(sd), i, price)), at)
            && RefsOf(m'.Map(sd), NewLevels(s.Get(sd), i, price)) == Inserted(refs, i, l)
  {
    var other, levels := sd.Opposite(), s.Get(sd);
    var levels' := NewLevels(levels, i, price);
    var refs := RefsOf(m.Map(sd), levels);
    LayoutSplit(m, s, at, sd);
    LayoutSplit(m, s, at, other);
    AddedSide(m, sd, levels, at, i, price, l);
    AddedElsewhere(m, sd, levels, at, i, price, l, s.Get(other));
    var m' := LevelAdded(m, sd, l, price, At(refs, i - 1), At(refs, i));
    assert m'.Map(other) == m.Map(other) && m'.os == m.os;
    ApartInserted(refs, RefsOf(m.Map(other), s.Get(other)), i, l);
    LayoutJoin(m', s, at, sd, levels');
  }

  // ----- an empty level leaves

  function LevelUnlinked(ls: seq<LevelSlot>, l: u32): (r: seq<LevelSlot>)
    requires l as int < |ls|
    ensures |r| == |ls|
  {
    PrevLevelSet(NextLevelSet(ls, ls[l].prevLevel, ls[l].nextLevel), ls[l].nextLevel, ls[l].prevLevel)
  }

  function LevelRemoved(m: Mem, sd: Side, l: u32): Mem
    requires l as int < |m.ls| && m.ls[l].price as int < |m.Map(sd)|
  {
    m.(ls := LevelUnlinked(m.ls, l))
     .SetSide(sd, m.Map(sd)[m.ls[l].price := INVALID],
              if m.ls[l].prevLevel == INVALID then m.ls[l].nextLevel else m.Head(sd))
  }

  lemma UnlinkedLevelLinks(ls: seq<LevelSlot>, l: u32)
    requires l as int < |ls|
    ensures LevelLinks(LevelUnlinked(ls, l)) == Unlink(LevelLinks(ls), l)
    ensures SameBodies(ls, LevelUnlinked(ls, l))
  {
    NextLevelLinks(ls, ls[l].prevLevel, ls[l].nextLevel);
    PrevLevelLinks(NextLevelSet(ls, ls[l].prevLevel, ls[l].nextLevel), ls[l].nextLevel, ls[l].prevLevel);
  }

  lemma WithoutIndex<T>(s: seq<T>, i: nat)
    requires i < |s|
    ensures forall k :: 0 <= k < |s| - 1 ==> Without(s, i)[k] == s[if k < i then k else k + 1]
  {
  }

  lemma RemovedRefs(pm: seq<u32>, sd: Side, levels: seq<Level>, i: nat)
    requires Sorted(sd, levels) && i < |levels| && levels[i].price as int < |pm|
    ensures RefsOf(pm[levels[i].price := INVALID], Without(levels, i)) == Without(RefsOf(pm, levels), i)
  {
    var levels' := Without(levels, i);
    var refs, refs' := RefsOf(pm, levels), RefsOf(pm[levels[i].price := INVALID], levels');
    WithoutIndex(levels, i);
    WithoutIndex(refs, i);
    forall k | 0 <= k < |refs'| ensures refs'[k] == Without(refs, i)[k] {
      if k < i { assert Better(sd, levels[k].price, levels[i].price); }
      else { assert Better(sd, levels[i].price, levels[k + 1].price); }
    }
  }

  lemma RemovedMap(pm: seq<u32>, levels: seq<Level>, i: nat)
    requires MapExact(pm, levels) && i < |levels| && levels[i].price as int < |pm|
    ensures MapExact(pm[levels[i].price := INVALID], Without(levels, i))
  {
    var levels' := Without(levels, i);
    WithoutIndex(levels, i);
    forall p | 0 <= p < |pm| && pm[levels[i].price := INVALID][p] != INVALID ensures HasPrice(levels', p) {
      var k :| 0 <= k < |levels| && levels[k].price == p;
      assert levels'[if k < i then k else k - 1].price == p;
    }
  }

  lemma SortedWithout(sd: Side, levels: seq<Level>, i: nat)
    requires Sorted(sd, levels) && i < |levels|
    ensures Sorted(sd, Without(levels, i))
  {
    var r := Without(levels, i);
    WithoutIndex(levels, i);
    forall a, b | 0 <= a < b < |r| ensures Better(sd, r[a].price, r[b].price) {
      assert Better(sd, levels[if a < i then a else a + 1].price, levels[if b < i then b else b + 1].price);
    }
  }

  lemma RemovedHeaders(ls: seq<LevelSlot>, refs: seq<u32>, levels: seq<Level>, at: Slots, i: nat, l: u32)
    requires |refs| == |levels| && Headers(ls, refs, levels, at) && l as int < |ls| && i < |levels|
    ensures Headers(LevelUnlinked(ls, l), Without(refs, i), Without(levels, i), at)
  {
    var refs', levels' := Without(refs, i), Without(levels, i);
    WithoutIndex(refs, i);
    WithoutIndex(levels, i);
    forall k | 0 <= k < |levels'| ensures refs'[k] as int < |ls| && Header(ls[refs'[k]], levels'[k], at) {
      var k0 := if k < i then k else k + 1;
      assert Header(ls[refs[k0]], levels[k0], at);
    }
    UnlinkedLevelLinks(ls, l);
    HeadersFrame(ls, LevelUnlinked(ls, l), refs', levels', at);
  }

  lemma RemovedSide(m: Mem, sd: Side, levels: seq<Level>, at: Slots, i: nat)
    requires SideOk(m, sd, levels, at) && |m.ls| == MAX_LEVELS && i < |levels|
    ensures var refs := RefsOf(m.Map(sd), levels);
            && refs[i] as int < |m.ls| && m.ls[refs[i]].price == levels[i].price
            && levels[i].price as int < |m.Map(sd)|
            && SideOk(LevelRemoved(m, sd, refs[i]), sd, Without(levels, i), at)
            && RefsOf(LevelRemoved(m, sd, refs[i]).Map(sd), Without(levels, i)) == Without(refs, i)
  {
    var pm := m.Map(sd);
    var refs := RefsOf(pm, levels);
    assert Header(m.ls[refs[i]], levels[i], at);
    var m' := LevelRemoved(m, sd, refs[i]);
    var levels' := Without(levels, i);
    RefsDistinct(m.ls, pm, sd, levels, at);
    RemovedRefs(pm, sd, levels, i);
    RemovedMap(pm, levels, i);
    RemovedHeaders(m.ls, refs, levels, at, i, refs[i]);
    UnlinkedLevelLinks(m.ls, refs[i]);
    UnlinkChain(LevelLinks(m.ls), refs, i);
    assert m'.Map(sd) == pm[levels[i].price := INVALID];
    assert m'.Head(sd) == First(Without(refs, i)) by {
      if i > 0 { assert Header(m.ls[refs[i - 1]], levels[i - 1], at); }
    }
    SortedWithout(sd, levels, i);
    WithoutIndex(levels, i);
    forall k | 0 <= k < |levels'| ensures QueueOk(m'.os, sd, levels'[k], at) && Fifo(levels'[k].orders) {
      assert QueueOk(m.os, sd, levels[if k < i then k else k + 1], at);
    }
  }

  lemma RemovedElsewhere(m: Mem, sd: Side, levels: seq<Level>, at: Slots, i: nat, levels2: seq<Level>)
    requires SideOk(m, sd, levels, at) && SideOk(m, sd.Opposite(), levels2, at) && i < |levels|
    requires Apart(RefsOf(m.Map(sd), levels), RefsOf(m.Map(sd.Opposite()), levels2))
    ensures var l := RefsOf(m.Map(sd), levels)[i];
            && l as int < |m.ls| && m.ls[l].price as int < |m.Map(sd)|
            && SideOk(LevelRemoved(m, sd, l), sd.Opposite(), levels2, at)
  {
    var other := sd.Opposite();
    var refs, refs2 := RefsOf(m.Map(sd), levels), RefsOf(m.Map(other), levels2);
    assert Header(m.ls[refs[i]], levels[i], at);
    var m' := LevelRemoved(m, sd, refs[i]);
    assert m'.Map(other) == m.Map(other) && m'.Head(other) == m.Head(other) && m'.os == m.os;
    UnlinkedLevelLinks(m.ls, refs[i]);
    UnlinkApart(LevelLinks(m.ls), refs, i, refs2);
    HeadersFrame(m.ls, m'.ls, refs2, levels2, at);
  }

  lemma RemovedLayout(m: Mem, s: Sides, at: Slots, sd: Side, i: nat)
    requires Layout(m, s, at) && i < |s.Get(sd)|
    ensures var l := RefsOf(m.Map(sd), s.Get(sd))[i];
            && l as int < |m.ls| && m.ls[l].price == s.Get(sd)[i].price
            && m.ls[l].price as int < |m.Map(sd)|
            && Layout(LevelRemoved(m, sd, l), s.Set(sd, Without(s.Get(sd), i)), at)
            && RefsOf(LevelRemoved(m, sd, l).Map(sd), Without(s.Get(sd), i)) == Without(RefsOf(m.Map(sd), s.Get(sd)), i)
  {
    var other, levels := sd.Opposite(), s.Get(sd);
    var levels' := Without(levels, i);
    var refs := RefsOf(m.Map(sd), levels);
    LayoutSplit(m, s, at, sd);
    LayoutSplit(m, s, at, other);
    RemovedSide(m, sd, levels, at, i);
    RemovedElsewhere(m, sd, levels, at, i, s.Get(other));
    var m' := LevelRemoved(m, sd, refs[i]);
    assert m'.Map(other) == m.Map(other) && m'.os == m.os;
    ApartWithout(refs, RefsOf(m.Map(other), s.Get(other)), i);
    LayoutJoin(m', s, at, sd, levels');
  }
}
