/** The book table of engine/src/main.cpp: 256 buckets, linear probing, no deletion. For any hash
    function it behaves as a finite map, in which a key that is inserted again keeps its first value;
    the copy takes a bucket all the same. The map is the ghost field `contents`. */
module ProbeTables {
  import opened Types
  import opened Masks

  const BUCKETS: nat := 256

  datatype Cell<V> = Vacant | Occupied(key: Uuid, value: V)

  // ----- probing

  function Home(h: Uuid -> nat, key: Uuid): nat {
    h(key) % BUCKETS
  }

  function Probe(home: nat, i: nat): (s: nat)
    ensures s < BUCKETS
  {
    (home + i) % BUCKETS
  }

  /** How many probes from home it takes to get to slot s. */
  function Distance(home: nat, s: nat): (d: nat)
    requires home < BUCKETS && s < BUCKETS
    ensures d < BUCKETS && Probe(home, d) == s
  {
    if s >= home then s - home else s + BUCKETS - home
  }

  predicate Taken<V>(e: Cell<V>) {
    e.Occupied?
  }

  /** No empty slot lies before slot s on the probe path of its key. */
  ghost predicate Reachable<V>(h: Uuid -> nat, es: seq<Cell<V>>, s: nat)
    requires |es| == BUCKETS && s < BUCKETS
  {
    es[s].Occupied? ==>
      var home := Home(h, es[s].key);
      forall i :: 0 <= i < Distance(home, s) ==> Taken(es[Probe(home, i)])
  }

  /** Slot s is the first on the probe path of its key that holds the key, and it holds value. */
  ghost predicate FirstAt<V>(h: Uuid -> nat, es: seq<Cell<V>>, s: nat, key: Uuid, value: V)
    requires |es| == BUCKETS
  {
    && s < BUCKETS && es[s] == Occupied(key, value)
    && forall i :: 0 <= i < Distance(Home(h, key), s) ==> var e := es[Probe(Home(h, key), i)]; Taken(e) && e.key != key
  }

  ghost predicate Holds<V>(h: Uuid -> nat, es: seq<Cell<V>>, m: map<Uuid, V>)
    requires |es| == BUCKETS
  {
    && (forall s :: 0 <= s < BUCKETS && es[s].Occupied? ==> es[s].key in m)
    && (forall k :: k in m ==> exists s :: FirstAt(h, es, s, k, m[k]))
  }

  ghost predicate TableOk<V>(h: Uuid -> nat, es: seq<Cell<V>>, m: map<Uuid, V>) {
    && |es| == BUCKETS
    && Holds(h, es, m)
    && forall s :: 0 <= s < BUCKETS ==> Reachable(h, es, s)
  }

  // ----- counting

  function Count<V>(es: seq<Cell<V>>): nat {
    if es == [] then 0 else Count(es[..|es| - 1]) + if es[|es| - 1].Occupied? then 1 else 0
  }

  function KeysIn<V>(es: seq<Cell<V>>): (ks: set<Uuid>)
    ensures forall k :: k in ks <==> exists s :: 0 <= s < |es| && es[s].Occupied? && es[s].key == k
  {
    if es == [] then {}
    else
      var last := es[|es| - 1];
      var ks := KeysIn(es[..|es| - 1]);
      assert forall s :: 0 <= s < |es| - 1 ==> es[s] == es[..|es| - 1][s];
      if last.Occupied? then ks + {last.key} else ks
  }

  ghost predicate KeysDiffer<V>(es: seq<Cell<V>>) {
    forall s, t :: 0 <= s < t < |es| && es[s].Occupied? && es[t].Occupied? ==> es[s].key != es[t].key
  }

  lemma {:induction false} CountKeys<V>(es: seq<Cell<V>>)
    ensures |KeysIn(es)| <= Count(es)
    ensures |KeysIn(es)| == Count(es) <==> KeysDiffer(es)
  {
    if es != [] {
      var rest, last := es[..|es| - 1], es[|es| - 1];
      CountKeys(rest);
      DifferSplit(rest, last);
      assert es == rest + [last];
    }
  }

  lemma DifferSplit<V>(rest: seq<Cell<V>>, last: Cell<V>)
    ensures KeysDiffer(rest + [last]) <==> KeysDiffer(rest) && (last.Occupied? ==> last.key !in KeysIn(rest))
  {
    var es := rest + [last];
    assert forall s :: 0 <= s < |rest| ==> es[s] == rest[s];
    if last.Occupied? && last.key in KeysIn(rest) {
      var s :| 0 <= s < |rest| && rest[s].Occupied? && rest[s].key == last.key;
      assert es[s].key == es[|rest|].key;
    }
    if KeysDiffer(es) {
      forall s, t | 0 <= s < t < |rest| && rest[s].Occupied? && rest[t].Occupied? ensures rest[s].key != rest[t].key {
        assert es[s].key != es[t].key;
      }
    }
  }

  lemma {:induction false} CountBound<V>(es: seq<Cell<V>>)
    ensures Count(es) <= |es|
    ensures Count(es) == |es| <==> forall s :: 0 <= s < |es| ==> es[s].Occupied?
  {
    if es != [] {
      var rest := es[..|es| - 1];
      CountBound(rest);
      if forall s :: 0 <= s < |rest| ==> rest[s].Occupied? {
        assert forall s :: 0 <= s < |es| - 1 ==> es[s] == rest[s];
      }
    }
  }

  /** No key is stored twice exactly if there are as many entries as keys. */
  lemma NoCopies<V>(h: Uuid -> nat, es: seq<Cell<V>>, m: map<Uuid, V>)
    requires TableOk(h, es, m)
    ensures |m| <= Count(es) <= BUCKETS
    ensures |m| == Count(es) <==> KeysDiffer(es)
  {
    CountKeys(es);
    CountBound(es);
    forall k ensures k in m <==> k in KeysIn(es) {
      if k in m { var s :| FirstAt(h, es, s, k, m[k]); }
    }
    assert m.Keys == KeysIn(es);
  }

  // ----- looking up and inserting

  /** A probe that meets an empty slot shows that the key is not stored. */
  lemma GapMeansAbsent<V>(h: Uuid -> nat, es: seq<Cell<V>>, m: map<Uuid, V>, key: Uuid, i: nat)
    requires TableOk(h, es, m) && i < BUCKETS
    requires forall j :: 0 <= j < i ==> es[Probe(Home(h, key), j)].Occupied? && es[Probe(Home(h, key), j)].key != key
    requires es[Probe(Home(h, key), i)].Vacant?
    ensures key !in m
  {
    if key in m {
      var s :| FirstAt(h, es, s, key, m[key]);
    }
  }

  /** Neither does a full round without the key. */
  lemma RoundMeansAbsent<V>(h: Uuid -> nat, es: seq<Cell<V>>, m: map<Uuid, V>, key: Uuid)
    requires TableOk(h, es, m)
    requires forall j :: 0 <= j < BUCKETS ==>
               es[Probe(Home(h, key), j)].Occupied? && es[Probe(Home(h, key), j)].key != key
    ensures key !in m
  {
    var home := Home(h, key);
    forall s | 0 <= s < BUCKETS ensures es[s].Occupied? && es[s].key != key {
      assert es[Probe(home, Distance(home, s))].Occupied?;
    }
  }

  /** The first probe that meets the key meets its value. */
  lemma FirstIsFound<V>(h: Uuid -> nat, es: seq<Cell<V>>, m: map<Uuid, V>, key: Uuid, i: nat)
    requires TableOk(h, es, m) && i < BUCKETS
    requires forall j :: 0 <= j < i ==> es[Probe(Home(h, key), j)].Occupied? && es[Probe(Home(h, key), j)].key != key
    requires var e := es[Probe(Home(h, key), i)]; e.Occupied? && e.key == key
    ensures key in m && es[Probe(Home(h, key), i)].value == m[key]
  {
    var s :| FirstAt(h, es, s, key, m[key]);
    var d := Distance(Home(h, key), s);
    assert Probe(Home(h, key), d) == s;
    assert d == i;
  }

  function Added<V>(m: map<Uuid, V>, key: Uuid, value: V): map<Uuid, V> {
    if key in m then m else m[key := value]
  }

  /** Writing a key into the first empty slot of its probe path adds it, or leaves all as it was if the key is
      known, and keeps every other key reachable. */
  lemma InsertedOk<V>(h: Uuid -> nat, es: seq<Cell<V>>, m: map<Uuid, V>, key: Uuid, value: V, i: nat)
    requires TableOk(h, es, m) && i < BUCKETS
    requires forall j :: 0 <= j < i ==> es[Probe(Home(h, key), j)].Occupied?
    requires es[Probe(Home(h, key), i)].Vacant?
    ensures TableOk(h, es[Probe(Home(h, key), i) := Occupied(key, value)], Added(m, key, value))
  {
    var at := Probe(Home(h, key), i);
    var es' := es[at := Occupied(key, value)];
    var m' := Added(m, key, value);
    DistanceIs(Home(h, key), i);
    forall k | k in m' ensures exists s :: FirstAt(h, es', s, k, m'[k]) {
      if k in m {
        var s :| FirstAt(h, es, s, k, m[k]);
        assert FirstAt(h, es', s, k, m[k]);
      } else {
        NewFirst(h, es, m, key, value, i);
      }
    }
    forall s | 0 <= s < BUCKETS ensures Reachable(h, es', s) {
      assert Reachable(h, es, s);
      StillReachable(h, es, key, value, i, s);
    }
  }

  lemma DistanceIs(home: nat, i: nat)
    requires home < BUCKETS && i < BUCKETS
    ensures Distance(home, Probe(home, i)) == i
  {
  }

  lemma NewFirst<V>(h: Uuid -> nat, es: seq<Cell<V>>, m: map<Uuid, V>, key: Uuid, value: V, i: nat)
    requires |es| == BUCKETS && Holds(h, es, m) && key !in m && i < BUCKETS
    requires forall j :: 0 <= j < i ==> es[Probe(Home(h, key), j)].Occupied?
    requires es[Probe(Home(h, key), i)].Vacant?
    ensures var at := Probe(Home(h, key), i);
            FirstAt(h, es[at := Occupied(key, value)], at, key, value)
  {
    var home := Home(h, key);
    DistanceIs(home, i);
    var es' := es[Probe(home, i) := Occupied(key, value)];
    forall j | 0 <= j < i ensures var e := es'[Probe(home, j)]; Taken(e) && e.key != key {
      assert es[Probe(home, j)].key in m;
    }
  }

  lemma StillReachable<V>(h: Uuid -> nat, es: seq<Cell<V>>, key: Uuid, value: V, i: nat, s: nat)
    requires |es| == BUCKETS && i < BUCKETS && s < BUCKETS && Reachable(h, es, s)
    requires forall j :: 0 <= j < i ==> es[Probe(Home(h, key), j)].Occupied?
    ensures Reachable(h, es[Probe(Home(h, key), i) := Occupied(key, value)], s)
  {
    var at := Probe(Home(h, key), i);
    DistanceIs(Home(h, key), i);
    var es' := es[at := Occupied(key, value)];
    if es'[s].Occupied? {
      var home := Home(h, es'[s].key);
      forall j | 0 <= j < Distance(home, s) ensures Taken(es'[Probe(home, j)]) {
        if Probe(home, j) != at { assert Taken(es[Probe(home, j)]); }
      }
    }
  }

  /** A new key leaves the table without copies. */
  lemma StillNoCopies<V>(h: Uuid -> nat, es: seq<Cell<V>>, m: map<Uuid, V>, at: nat, key: Uuid, value: V)
    requires TableOk(h, es, m) && KeysDiffer(es) && at < |es| && key !in m
    ensures KeysDiffer(es[at := Occupied(key, value)])
  {
  }

  // ----- the table

  class ProbeTable<V> {
    const hash: Uuid -> nat
    const entries: array<Cell<V>>

    /** The map that the entries stand for. */
    ghost var contents: map<Uuid, V>

    ghost predicate Valid()
      reads this, entries
    {
      TableOk(hash, entries[..], contents)
    }

    constructor (hash: Uuid -> nat)
      ensures Valid() && Single() && fresh(entries) && this.hash == hash && contents == map[]
    {
      this.hash := hash;
      entries := new Cell<V>[BUCKETS](_ => Vacant);
      contents := map[];
    }

    /** The masked sum of the source, as a probe. */
    method SlotAt(home: nat, i: nat) returns (s: nat)
      ensures s == Probe(home, i)
    {
      MaskIsMod(home + i, 8);
      s := BitAnd(home + i, BUCKETS - 1);
    }

    method Find(id: Uuid) returns (r: Option<V>)
      requires Valid()
      ensures r == if id in contents then Some(contents[id]) else None
    {
      var home := Home(hash, id);
      for i := 0 to BUCKETS
        invariant forall j :: 0 <= j < i ==> entries[Probe(home, j)].Occupied? && entries[Probe(home, j)].key != id
      {
        var slot := SlotAt(home, i);
        if entries[slot].Vacant? {
          GapMeansAbsent(hash, entries[..], contents, id, i);
          return None;
        }
        if entries[slot].key == id {
          FirstIsFound(hash, entries[..], contents, id, i);
          return Some(entries[slot].value);
        }
      }
      RoundMeansAbsent(hash, entries[..], contents, id);
      return None;
    }

    /** No key is stored twice. */
    ghost predicate Single()
      reads entries
    {
      KeysDiffer(entries[..])
    }

    /** Adds a key, or a copy that is never found if the key is known; fails exactly when all buckets are taken,
        which without copies is when there are 256 keys. */
    method Insert(id: Uuid, value: V) returns (ok: bool)
      requires Valid()
      modifies entries, this`contents
      ensures Valid() && (ok <==> old(Count(entries[..])) < BUCKETS)
      ensures contents == if ok then Added(old(contents), id, value) else old(contents)
      ensures old(Single()) ==> (ok <==> |old(contents)| < 256)
      ensures old(Single()) && id !in old(contents) ==> Single()
    {
      assert entries.Length == |entries[..]| == BUCKETS;
      hide TableOk, KeysDiffer;
      CountBound(entries[..]);
      NoCopies(hash, entries[..], contents);
      var home := Home(hash, id);
      for i := 0 to BUCKETS
        invariant entries[..] == old(entries[..]) && contents == old(contents)
        invariant forall j :: 0 <= j < i ==> entries[Probe(home, j)].Occupied?
      {
        var slot := SlotAt(home, i);
        if entries[slot].Vacant? {
          InsertedOk(hash, entries[..], contents, id, value, i);
          ghost var es, es' := entries[..], entries[..][slot := Occupied(id, value)];
          if KeysDiffer(es) && id !in contents { StillNoCopies(hash, es, contents, slot, id, value); }
          entries[slot] := Occupied(id, value);
          contents := Added(contents, id, value);
          assert entries[..] == es';
          return true;
        }
      }
      AllProbed(entries[..], home);
      return false;
    }
  }

  lemma AllProbed<V>(es: seq<Cell<V>>, home: nat)
    requires |es| == BUCKETS && home < BUCKETS
    requires forall j :: 0 <= j < BUCKETS ==> es[Probe(home, j)].Occupied?
    ensures forall s :: 0 <= s < BUCKETS ==> es[s].Occupied?
  {
    forall s | 0 <= s < BUCKETS ensures es[s].Occupied? {
      assert es[Probe(home, Distance(home, s))].Occupied?;
    }
  }
}
