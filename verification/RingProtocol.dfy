/** The single-producer single-consumer ring of engine/include/spsc_queue.hpp as a protocol:
    every atomic load, atomic store and buffer access of push and pop is a step of its own, and
    steps of the two threads interleave in any order.

    Each atomic keeps its whole modification order. A thread's acquire load of the other's index
    may return any value in that order from the last one it has seen onwards, so both threads may
    work with values as old as the C++ memory model lets them be. A store is visible with
    everything before it to the thread whose load returns it, or a later one (release, acquire). */
module RingProtocol {
  import opened Types
  import opened Masks

  /** Where push stands: line 29-30 done, check passed, buffer written. */
  datatype Producer<T> = NoPush | Begun(item: T, tail: nat, next: nat) | Room(item: T, tail: nat, next: nat)
                       | Filled(item: T, next: nat)

  /** Where pop stands: line 42 done, check passed, buffer read. */
  datatype Consumer<T> = NoPop | Started(head: nat) | Found(head: nat) | Taken(head: nat, item: T)

  /** An access to a buffer slot: by whom, after how many of its own index stores, and how many of the
      other thread's index stores it had seen. */
  datatype Access = Access(byProducer: bool, slot: nat, published: nat, seen: nat)

  datatype Queue<T> = Queue(heads: seq<nat>, tails: seq<nat>, buffer: seq<T>, seenHead: nat, seenTail: nat,
                            producer: Producer<T>, consumer: Consumer<T>,
                            pushed: seq<T>, popped: seq<T>, accesses: seq<Access>)

  datatype Action<T> = BeginPush(item: T) | LoadHead(k: nat) | StoreItem | PublishTail
                     | BeginPop | LoadTail(k: nat) | CopyItem | PublishHead

  function Initial<T>(buffer: seq<T>): Queue<T> {
    Queue([0], [0], buffer, 0, 0, NoPush, NoPop, [], [], [])
  }

  function Latest(s: seq<nat>): nat {
    if s == [] then 0 else s[|s| - 1]
  }

  /** The slot of the i-th item ever. */
  function Slot(i: nat, n: nat): nat
    requires n > 0
  {
    i % n
  }

  function Advance(i: nat, capacity: nat): nat
    requires capacity > 0
  {
    BitAnd(i + 1, capacity - 1)
  }

  predicate Enabled<T>(q: Queue<T>, a: Action<T>) {
    match a
    case BeginPush(_) => q.producer.NoPush? && q.buffer != []
    case LoadHead(k) => q.producer.Begun? && q.seenHead <= k < |q.heads|
    case StoreItem => q.producer.Room? && q.producer.tail < |q.buffer|
    case PublishTail => q.producer.Filled?
    case BeginPop => q.consumer.NoPop?
    case LoadTail(k) => q.consumer.Started? && q.seenTail <= k < |q.tails|
    case CopyItem => q.consumer.Found? && q.consumer.head < |q.buffer|
    case PublishHead => q.consumer.Taken? && q.buffer != []
  }

  function Step<T>(q: Queue<T>, a: Action<T>): Queue<T>
    requires Enabled(q, a)
  {
    match a
    case BeginPush(item) =>
      q.(producer := Begun(item, Latest(q.tails), Advance(Latest(q.tails), |q.buffer|)))
    case LoadHead(k) =>
      var p := q.producer;
      q.(seenHead := k, producer := if p.next == q.heads[k] then NoPush else Room(p.item, p.tail, p.next))
    case StoreItem =>
      var p := q.producer;
      q.(buffer := q.buffer[p.tail := p.item], producer := Filled(p.item, p.next),
         accesses := q.accesses + [Access(true, p.tail, |q.pushed|, q.seenHead)])
    case PublishTail =>
      q.(tails := q.tails + [q.producer.next], pushed := q.pushed + [q.producer.item], producer := NoPush)
    case BeginPop =>
      q.(consumer := Started(Latest(q.heads)))
    case LoadTail(k) =>
      var h := q.consumer.head;
      q.(seenTail := k, consumer := if h == q.tails[k] then NoPop else Found(h))
    case CopyItem =>
      var h := q.consumer.head;
      q.(consumer := Taken(h, q.buffer[h]),
         accesses := q.accesses + [Access(false, h, |q.popped|, q.seenTail)])
    case PublishHead =>
      q.(heads := q.heads + [Advance(q.consumer.head, |q.buffer|)], popped := q.popped + [q.consumer.item],
         consumer := NoPop)
  }

  // ----- what no interleaving may break

  /** Some power of two: the static assertion of the source, within a 64-bit size. */
  ghost predicate RingSize(n: nat) {
    exists k: nat :: k < 64 && n == Pow2(k)
  }

  /** a is over before b starts, as far as the two threads can tell: b's thread has seen an index store that
      a's thread made after a. */
  predicate HappensBefore(a: Access, b: Access) {
    a.byProducer == b.byProducer || b.seen > a.published
  }

  /** No data race: accesses of the two threads to one slot are ordered. (The producer only writes and the
      consumer only reads, so accesses of the same thread need no order across threads.) */
  ghost predicate RaceFree(accesses: seq<Access>) {
    forall i, j :: 0 <= i < j < |accesses| && accesses[i].slot == accesses[j].slot ==>
      HappensBefore(accesses[i], accesses[j])
  }

  ghost predicate Cyclic(s: seq<nat>, count: nat, n: nat)
    requires n > 0
  {
    |s| == count + 1 && forall i :: 0 <= i < |s| ==> s[i] == Slot(i, n)
  }

  ghost predicate ProducerOk<T>(q: Queue<T>)
    requires q.buffer != []
  {
    var n, p := |q.buffer|, |q.pushed|;
    && p + 1 <= q.seenHead + n && q.seenHead <= |q.popped|
    && (q.producer.Room? || q.producer.Filled? ==> p + 2 <= q.seenHead + n)
    && (q.producer.Begun? || q.producer.Room? ==> q.producer.tail == Slot(p, n))
    && (!q.producer.NoPush? ==> q.producer.next == Slot(p + 1, n))
    && (q.producer.Filled? ==> Slot(p, n) < n && q.buffer[Slot(p, n)] == q.producer.item)
  }

  ghost predicate ConsumerOk<T>(q: Queue<T>)
    requires q.buffer != []
  {
    var n, c := |q.buffer|, |q.popped|;
    && c <= q.seenTail <= |q.pushed|
    && (q.consumer.Found? || q.consumer.Taken? ==> c < q.seenTail)
    && (!q.consumer.NoPop? ==> q.consumer.head == Slot(c, n))
    && (q.consumer.Taken? ==> c < |q.pushed| && q.consumer.item == q.pushed[c])
  }

  ghost predicate AccessOk<T>(q: Queue<T>, a: Access)
    requires q.buffer != []
  {
    && a.slot == Slot(a.published, |q.buffer|)
    && (a.byProducer ==> a.published + 2 <= q.seenHead + |q.buffer|)
    && (!a.byProducer ==> a.published < q.seenTail)
  }

  ghost predicate Content<T>(q: Queue<T>)
    requires q.buffer != []
  {
    && q.popped <= q.pushed
    && forall i :: |q.popped| <= i < |q.pushed| ==>
         Slot(i, |q.buffer|) < |q.buffer| && q.buffer[Slot(i, |q.buffer|)] == q.pushed[i]
  }

  ghost predicate Inv<T>(q: Queue<T>) {
    && q.buffer != [] && RingSize(|q.buffer|)
    && Cyclic(q.heads, |q.popped|, |q.buffer|) && Cyclic(q.tails, |q.pushed|, |q.buffer|)
    && ProducerOk(q) && ConsumerOk(q) && Content(q)
    && (forall k :: 0 <= k < |q.accesses| ==> AccessOk(q, q.accesses[k]))
    && RaceFree(q.accesses)
  }

  // ----- every step keeps it

  lemma AdvanceIs(i: nat, n: nat)
    requires RingSize(n) && n > 0
    ensures Advance(Slot(i, n), n) == Slot(i + 1, n)
  {
    var k: nat :| k < 64 && n == Pow2(k);
    MaskIsMod(i % n + 1, k);
    ModSuccessor(i, n);
  }

  lemma SlotBound(i: nat, n: nat)
    requires n > 0
    ensures Slot(i, n) < n
  {
  }

  lemma SameSlot(a: nat, b: nat, n: nat)
    requires n > 0 && Slot(a, n) == Slot(b, n)
    ensures a < b ==> a + n <= b
    ensures b < a ==> b + n <= a
  {
    if a < b { ModGap(a, b, n); }
    if b < a { ModGap(b, a, n); }
  }

  lemma BeginPushKeeps<T>(q: Queue<T>, item: T)
    requires Inv(q) && Enabled(q, BeginPush(item))
    ensures Inv(Step(q, BeginPush(item)))
  {
    AdvanceIs(|q.pushed|, |q.buffer|);
    hide Slot, Advance, RaceFree, RingSize;
  }

  lemma LoadHeadKeeps<T>(q: Queue<T>, k: nat)
    requires Inv(q) && Enabled(q, LoadHead(k))
    ensures Inv(Step(q, LoadHead(k)))
  {
    hide Slot, RaceFree, RingSize;
    var n := |q.buffer|;
    if Slot(|q.pushed| + 1, n) != Slot(k, n) {
      assert |q.pushed| + 1 != k + n by {
        SlotShift(k, n);
      }
    }
  }

  lemma SlotShift(i: nat, n: nat)
    requires n > 0
    ensures Slot(i + n, n) == Slot(i, n)
  {
    ModAddMultiple(i, 1, n);
  }

  lemma StoreItemKeeps<T>(q: Queue<T>)
    requires Inv(q) && Enabled(q, StoreItem)
    ensures Inv(Step(q, StoreItem))
  {
    var n, p := |q.buffer|, |q.pushed|;
    var q' := Step(q, StoreItem);
    SlotBound(p, n);
    assert Content(q') by {
      hide Slot, RaceFree, RingSize;
      forall i | |q.popped| <= i < p ensures Slot(i, n) < n && q'.buffer[Slot(i, n)] == q.pushed[i] {
        if Slot(i, n) == Slot(p, n) { SameSlot(i, p, n); }
      }
    }
    WriteOrdered(q);
    hide Slot, RingSize;
    Appended(q, Access(true, q.producer.tail, p, q.seenHead));
  }

  /** The producer has seen every read of the slot it is about to write. */
  lemma WriteOrdered<T>(q: Queue<T>)
    requires Inv(q) && q.producer.Room?
    ensures forall i :: 0 <= i < |q.accesses| && q.accesses[i].slot == q.producer.tail ==>
              HappensBefore(q.accesses[i], Access(true, q.producer.tail, |q.pushed|, q.seenHead))
  {
    hide Slot, RaceFree, RingSize;
    forall i | 0 <= i < |q.accesses| && q.accesses[i].slot == q.producer.tail
      ensures HappensBefore(q.accesses[i], Access(true, q.producer.tail, |q.pushed|, q.seenHead)) {
      assert AccessOk(q, q.accesses[i]);
      SameSlot(q.accesses[i].published, |q.pushed|, |q.buffer|);
    }
  }

  /** The consumer has seen every write of the slot it is about to read. */
  lemma ReadOrdered<T>(q: Queue<T>)
    requires Inv(q) && q.consumer.Found?
    ensures forall i :: 0 <= i < |q.accesses| && q.accesses[i].slot == q.consumer.head ==>
              HappensBefore(q.accesses[i], Access(false, q.consumer.head, |q.popped|, q.seenTail))
  {
    hide Slot, RaceFree, RingSize;
    forall i | 0 <= i < |q.accesses| && q.accesses[i].slot == q.consumer.head
      ensures HappensBefore(q.accesses[i], Access(false, q.consumer.head, |q.popped|, q.seenTail)) {
      assert AccessOk(q, q.accesses[i]);
      SameSlot(q.accesses[i].published, |q.popped|, |q.buffer|);
    }
  }

  lemma Appended<T>(q: Queue<T>, a: Access)
    requires RaceFree(q.accesses)
    requires forall i :: 0 <= i < |q.accesses| && q.accesses[i].slot == a.slot ==> HappensBefore(q.accesses[i], a)
    ensures RaceFree(q.accesses + [a])
  {
  }

  lemma PublishTailKeeps<T>(q: Queue<T>)
    requires Inv(q) && Enabled(q, PublishTail)
    ensures Inv(Step(q, PublishTail))
  {
    hide Slot, RaceFree, RingSize;
  }

  lemma BeginPopKeeps<T>(q: Queue<T>)
    requires Inv(q) && Enabled(q, BeginPop)
    ensures Inv(Step(q, BeginPop))
  {
    hide Slot, RaceFree, RingSize;
  }

  lemma LoadTailKeeps<T>(q: Queue<T>, k: nat)
    requires Inv(q) && Enabled(q, LoadTail(k))
    ensures Inv(Step(q, LoadTail(k)))
  {
    hide Slot, RaceFree, RingSize;
  }

  lemma CopyItemKeeps<T>(q: Queue<T>)
    requires Inv(q) && Enabled(q, CopyItem)
    ensures Inv(Step(q, CopyItem))
  {
    ReadOrdered(q);
    hide Slot, RingSize;
    Appended(q, Access(false, q.consumer.head, |q.popped|, q.seenTail));
    hide RaceFree;
  }

  lemma PublishHeadKeeps<T>(q: Queue<T>)
    requires Inv(q) && Enabled(q, PublishHead)
    ensures Inv(Step(q, PublishHead))
  {
    AdvanceIs(|q.popped|, |q.buffer|);
    hide Slot, Advance, RaceFree, RingSize;
  }

  lemma StepKeeps<T>(q: Queue<T>, a: Action<T>)
    requires Inv(q) && Enabled(q, a)
    ensures Inv(Step(q, a))
  {
    hide Inv, Step;
    match a
    case BeginPush(item) => BeginPushKeeps(q, item);
    case LoadHead(k) => LoadHeadKeeps(q, k);
    case StoreItem => StoreItemKeeps(q);
    case PublishTail => PublishTailKeeps(q);
    case BeginPop => BeginPopKeeps(q);
    case LoadTail(k) => LoadTailKeeps(q, k);
    case CopyItem => CopyItemKeeps(q);
    case PublishHead => PublishHeadKeeps(q);
  }

  lemma InitialInv<T>(buffer: seq<T>)
    requires RingSize(|buffer|)
    ensures Inv(Initial(buffer))
  {
    var k: nat :| k < 64 && |buffer| == Pow2(k);
    assert Slot(0, |buffer|) == 0;
  }

  // ----- whole runs

  /** qs are the states of a run of the steps as, in any interleaving of the two threads. */
  ghost predicate IsRun<T>(qs: seq<Queue<T>>, steps: seq<Action<T>>, buffer: seq<T>) {
    && |qs| == |steps| + 1 && qs[0] == Initial(buffer)
    && forall i :: 0 <= i < |steps| ==> Enabled(qs[i], steps[i]) && qs[i + 1] == Step(qs[i], steps[i])
  }

  lemma {:induction false} RunInv<T>(qs: seq<Queue<T>>, steps: seq<Action<T>>, buffer: seq<T>, i: nat)
    requires IsRun(qs, steps, buffer) && RingSize(|buffer|) && i < |qs|
    ensures Inv(qs[i]) && |qs[i].buffer| == |buffer|
  {
    if i == 0 {
      InitialInv(buffer);
    } else {
      RunInv(qs, steps, buffer, i - 1);
      hide Inv;
      StepKeeps(qs[i - 1], steps[i - 1]);
    }
  }

  /** In every interleaving: what has been popped is what was pushed, in order and without loss or repetition;
      at most capacity - 1 items are in the ring; and no slot is ever touched by both threads unordered. */
  lemma EveryInterleaving<T>(qs: seq<Queue<T>>, steps: seq<Action<T>>, buffer: seq<T>, i: nat)
    requires IsRun(qs, steps, buffer) && RingSize(|buffer|) && i < |qs|
    ensures qs[i].popped <= qs[i].pushed
    ensures |qs[i].pushed| <= |qs[i].popped| + |buffer| - 1
    ensures RaceFree(qs[i].accesses)
  {
    RunInv(qs, steps, buffer, i);
    hide Slot, RaceFree, RingSize;
  }

  /** Each thread can always go on by itself: wherever a push or a pop stands, its next step is enabled. */
  lemma WaitFree<T>(q: Queue<T>, item: T)
    requires Inv(q)
    ensures q.producer.NoPush? ==> Enabled(q, BeginPush(item))
    ensures q.producer.Begun? ==> Enabled(q, LoadHead(q.seenHead)) && Enabled(q, LoadHead(|q.popped|))
    ensures q.producer.Room? ==> Enabled(q, StoreItem)
    ensures q.producer.Filled? ==> Enabled(q, PublishTail)
    ensures q.consumer.NoPop? ==> Enabled(q, BeginPop)
    ensures q.consumer.Started? ==> Enabled(q, LoadTail(q.seenTail)) && Enabled(q, LoadTail(|q.pushed|))
    ensures q.consumer.Found? ==> Enabled(q, CopyItem)
    ensures q.consumer.Taken? ==> Enabled(q, PublishHead)
  {
    SlotBound(|q.pushed|, |q.buffer|);
    SlotBound(|q.popped|, |q.buffer|);
    hide Slot, RaceFree, RingSize;
  }

  /** A push is refused exactly when the ring looks full: as many items in it as the producer can tell as it
      may ever hold. With an up-to-date head that is exactly when it is full, at capacity - 1 items. */
  lemma RefusedWhenFull<T>(q: Queue<T>, k: nat)
    requires Inv(q) && Enabled(q, LoadHead(k))
    ensures Step(q, LoadHead(k)).producer.NoPush? <==> |q.pushed| - k == |q.buffer| - 1
  {
    hide RaceFree, RingSize;
    var n := |q.buffer|;
    hide Slot;
    SlotShift(k, n);
    if Slot(|q.pushed| + 1, n) == Slot(k, n) {
      SameSlot(|q.pushed| + 1, k, n);
    }
  }

  /** A pop is refused exactly when no item is visible; with an up-to-date tail, exactly when the ring is empty. */
  lemma RefusedWhenEmpty<T>(q: Queue<T>, k: nat)
    requires Inv(q) && Enabled(q, LoadTail(k))
    ensures Step(q, LoadTail(k)).consumer.NoPop? <==> k == |q.popped|
  {
    hide Slot, RaceFree, RingSize;
    if Slot(|q.popped|, |q.buffer|) == Slot(k, |q.buffer|) {
      SameSlot(|q.popped|, k, |q.buffer|);
    }
  }

  /** With both threads at rest, the masked difference of the indices is the number of items, wherever they wrap. */
  lemma SizeExact<T>(q: Queue<T>)
    requires Inv(q)
    ensures BitAnd((Latest(q.tails) - Latest(q.heads)) % TWO64, |q.buffer| - 1) == |q.pushed| - |q.popped|
    ensures Latest(q.heads) == Latest(q.tails) <==> |q.pushed| == |q.popped|
  {
    hide RaceFree, BitAnd, Pow2;
    var n := |q.buffer|;
    var k: nat :| k < 64 && n == Pow2(k);
    WrappedDistance(|q.popped|, |q.pushed|, k);
    if Slot(|q.popped|, n) == Slot(|q.pushed|, n) {
      SameSlot(|q.popped|, |q.pushed|, n);
    }
  }
}
