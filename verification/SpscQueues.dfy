/** SPSCQueue of engine/include/spsc_queue.hpp as a class. Each method in the first two groups is
    one atomic access; `push` and `pop` are those accesses in a row. The methods that load the
    other thread's index take the value the load returns, which may be old. */
module SpscQueues {
  import opened Types
  import opened Masks
  import opened RingProtocol

  class SpscQueue<T(0)> {
    const buffer: array<T>
    var head: u64
    var tail: u64
    /** Locals of push and pop. */
    var producer: Producer<T>
    var consumer: Consumer<T>

    /** The two modification orders, what each thread has seen, and the histories. */
    ghost var heads: seq<nat>
    ghost var tails: seq<nat>
    ghost var seenHead: nat
    ghost var seenTail: nat
    ghost var pushed: seq<T>
    ghost var popped: seq<T>
    ghost var accesses: seq<Access>

    ghost function State(): Queue<T>
      reads this, buffer
    {
      Queue(heads, tails, buffer[..], seenHead, seenTail, producer, consumer, pushed, popped, accesses)
    }

    ghost predicate Valid()
      reads this, buffer
    {
      Inv(State()) && head as int == Latest(heads) && tail as int == Latest(tails)
    }

    constructor (capacity: nat)
      requires RingSize(capacity)
      ensures Valid() && fresh(buffer) && buffer.Length == capacity && State() == Initial(buffer[..])
    {
      buffer := new T[capacity];
      head, tail := 0, 0;
      producer, consumer := NoPush, NoPop;
      heads, tails, seenHead, seenTail := [0], [0], 0, 0;
      pushed, popped, accesses := [], [], [];
      new;
      InitialInv(buffer[..]);
    }

    // ----- push, one access at a time

    method StartPush(item: T)
      requires Valid() && producer.NoPush?
      modifies this`producer
      ensures Valid() && State() == Step(old(State()), BeginPush(item))
    {
      ghost var q := State();
      StepKeeps(q, BeginPush(item));
      assert Step(q, BeginPush(item)) == q.(producer := Begun(item, tail, BitAnd(tail + 1, buffer.Length - 1)));
      hide Inv, Step, Latest, BitAnd;
      producer := Begun(item, tail, BitAnd(tail + 1, buffer.Length - 1));
    }

    /** The load of head_ returned observed, the k-th value stored. */
    method CheckRoom(observed: nat, ghost k: nat)
      requires Valid() && Enabled(State(), LoadHead(k)) && observed == heads[k]
      modifies this`producer, this`seenHead
      ensures Valid() && State() == Step(old(State()), LoadHead(k))
    {
      StepKeeps(State(), LoadHead(k));
      hide Inv;
      producer := if producer.next == observed then NoPush else Room(producer.item, producer.tail, producer.next);
      seenHead := k;
    }

    method WriteItem()
      requires Valid() && producer.Room?
      modifies this`producer, this`accesses, buffer
      ensures Valid() && State() == Step(old(State()), StoreItem)
    {
      WaitFree(State(), producer.item);
      StepKeeps(State(), StoreItem);
      hide Inv;
      ghost var q := Step(State(), StoreItem);
      accesses := accesses + [Access(true, producer.tail, |pushed|, seenHead)];
      buffer[producer.tail] := producer.item;
      producer := Filled(producer.item, producer.next);
      assert buffer[..] == q.buffer;
    }

    method StoreTail()
      requires Valid() && producer.Filled?
      modifies this
      ensures Valid() && State() == Step(old(State()), PublishTail)
    {
      ghost var q := State();
      StepKeeps(q, PublishTail);
      IndexFits(q);
      assert Step(q, PublishTail)
             == q.(tails := tails + [producer.next], pushed := pushed + [producer.item], producer := NoPush);
      hide Inv, Step;
      tails, pushed := tails + [producer.next], pushed + [producer.item];
      tail := producer.next;
      producer := NoPush;
    }

    // ----- pop, one access at a time

    method StartPop()
      requires Valid() && consumer.NoPop?
      modifies this`consumer
      ensures Valid() && State() == Step(old(State()), BeginPop)
    {
      StepKeeps(State(), BeginPop);
      hide Inv;
      consumer := Started(head);
    }

    /** The load of tail_ returned observed, the k-th value stored. */
    method CheckItem(observed: nat, ghost k: nat)
      requires Valid() && Enabled(State(), LoadTail(k)) && observed == tails[k]
      modifies this`consumer, this`seenTail
      ensures Valid() && State() == Step(old(State()), LoadTail(k))
    {
      StepKeeps(State(), LoadTail(k));
      hide Inv;
      consumer := if consumer.head == observed then NoPop else Found(consumer.head);
      seenTail := k;
    }

    method ReadItem()
      requires Valid() && consumer.Found?
      modifies this`consumer, this`accesses
      ensures Valid() && State() == Step(old(State()), CopyItem)
    {
      TakenItem(State());
      StepKeeps(State(), CopyItem);
      hide Inv;
      accesses := accesses + [Access(false, consumer.head, |popped|, seenTail)];
      consumer := Taken(consumer.head, buffer[consumer.head]);
    }

    method StoreHead()
      requires Valid() && consumer.Taken?
      modifies this
      ensures Valid() && State() == Step(old(State()), PublishHead)
    {
      ghost var q := State();
      StepKeeps(q, PublishHead);
      IndexFits(q);
      ghost var after := BitAnd(consumer.head + 1, buffer.Length - 1);
      assert Step(q, PublishHead)
             == q.(heads := heads + [after], popped := popped + [consumer.item], consumer := NoPop);
      hide Inv, Step, BitAnd;
      var next := BitAnd(consumer.head + 1, buffer.Length - 1);
      heads, popped := heads + [next], popped + [consumer.item];
      head := next;
      consumer := NoPop;
    }

    // ----- uninterrupted operations, with up-to-date loads

    /** Appends item unless the ring holds capacity - 1 items. */
    method Push(item: T) returns (ok: bool)
      requires Valid() && producer.NoPush?
      modifies this, buffer
      ensures Valid() && producer.NoPush? && consumer == old(consumer)
      ensures ok <==> |old(pushed)| - |old(popped)| < buffer.Length - 1
      ensures pushed == if ok then old(pushed) + [item] else old(pushed)
      ensures popped == old(popped)
    {
      hide Inv;
      LatestSeen(State());
      StartPush(item);
      RefusedWhenFull(State(), |popped|);
      CheckRoom(head, |popped|);
      if producer.NoPush? {
        return false;
      }
      WriteItem();
      StoreTail();
      return true;
    }

    /** Takes the oldest item, unless there is none. */
    method Pop() returns (r: Option<T>)
      requires Valid() && consumer.NoPop?
      modifies this
      ensures Valid() && consumer.NoPop? && producer == old(producer)
      ensures r.None? <==> |old(popped)| == |old(pushed)|
      ensures r.Some? ==> |old(popped)| < |pushed| && r.value == pushed[|old(popped)|]
                          && popped == old(popped) + [r.value]
      ensures r.None? ==> popped == old(popped)
      ensures pushed == old(pushed)
    {
      hide Inv;
      LatestSeen(State());
      StartPop();
      RefusedWhenEmpty(State(), |pushed|);
      CheckItem(tail, |pushed|);
      if consumer.NoPop? {
        return None;
      }
      TakenItem(State());
      ReadItem();
      r := Some(consumer.item);
      StoreHead();
    }

    method Size() returns (n: nat)
      requires Valid()
      ensures n == |pushed| - |popped|
    {
      SizeExact(State());
      n := BitAnd((tail - head) % TWO64, buffer.Length - 1);
    }

    method Empty() returns (b: bool)
      requires Valid()
      ensures b <==> |pushed| == |popped|
    {
      SizeExact(State());
      b := head == tail;
    }
  }

  lemma IndexFits<T>(q: Queue<T>)
    requires Inv(q)
    ensures q.producer.Filled? ==> q.producer.next < TWO64
    ensures q.consumer.Taken? ==> Advance(q.consumer.head, |q.buffer|) < TWO64
  {
    var n := |q.buffer|;
    var k: nat :| k < 64 && n == Pow2(k);
    var w := Pow2Divides64(k);
    MulOrder(1, w, n);
    SlotBound(|q.pushed| + 1, n);
    SlotBound(|q.popped| + 1, n);
    AdvanceIs(|q.popped|, n);
    hide Slot, RaceFree, Advance, Pow2;
  }

  lemma LatestSeen<T>(q: Queue<T>)
    requires Inv(q)
    ensures |q.heads| == |q.popped| + 1 && |q.tails| == |q.pushed| + 1
    ensures q.seenHead <= |q.popped| <= |q.pushed| && q.seenTail <= |q.pushed|
    ensures |q.pushed| <= |q.popped| + |q.buffer| - 1
  {
    hide Slot, RaceFree, RingSize;
  }

  lemma TakenItem<T>(q: Queue<T>)
    requires Inv(q) && q.consumer.Found?
    ensures |q.popped| < |q.pushed| && q.consumer.head < |q.buffer| && q.buffer[q.consumer.head] == q.pushed[|q.popped|]
  {
    hide Slot, RaceFree, RingSize;
  }
}
