/** BumpAllocator of engine/include/spsc_queue.hpp under any number of threads. A step is one atomic
    access: the relaxed load, a successful compare-exchange, or a failed one, which may be spurious
    and refreshes `current`. Loads and failed exchanges may return any value of the modification
    order that is not older than what the thread has seen. */
module BumpAllocators {
  import opened Types
  import opened Masks

  const LINE: nat := 64

  /** An allocation in progress: bytes asked for, and the local `current`. */
  datatype Call = Call(n: u64, current: u64)

  /** A successful allocation of n bytes at offset start. */
  datatype Block = Block(start: nat, n: nat)

  datatype Arena = Arena(size: u64, offsets: seq<u64>, calls: map<nat, Call>, seen: map<nat, nat>, granted: seq<Block>)

  datatype Action = Load(thread: nat, n: u64, k: nat) | Exchange(thread: nat) | FailExchange(thread: nat, k: nat)

  function Start(size: u64): Arena {
    Arena(size, [0], map[], map[], [])
  }

  // ----- the arithmetic of one request

  /** (n + 63) & ~63 in 64 bits. */
  function Aligned(n: u64): u64
  {
    BitAndBound((n + LINE - 1) % TWO64, TWO64 - LINE);
    BitAnd((n + LINE - 1) % TWO64, TWO64 - LINE)
  }

  lemma {:induction false} BitAndBound(a: nat, b: nat)
    ensures BitAnd(a, b) <= a
    decreases a
  {
    if a != 0 && b != 0 {
      BitAndBound(a / 2, b / 2);
      assert (a % 2) * (b % 2) <= a % 2;
    }
  }

  function WrappedSum(a: u64, b: u64): u64 {
    (a + b) % TWO64
  }

  predicate Fits(size: u64, current: u64, n: u64) {
    WrappedSum(current, Aligned(n)) <= size
  }

  /** n rounded up to whole lines, without wrap-around. */
  function RoundUp(n: nat): (r: nat)
    ensures r % LINE == 0 && n <= r < n + LINE
  {
    (n + LINE - 1) / LINE * LINE
  }

  lemma BitAndEven(a: nat, b: nat)
    ensures BitAnd(a, 2 * b) == 2 * BitAnd(a / 2, b)
  {
  }

  /** The mask without its six low zeros. */
  lemma HighMask(m: nat)
    requires m == 0x400_0000_0000_0000 - 1
    ensures TWO64 - LINE == 64 * m && m == Pow2(58) - 1
  {
    Pow2Is64();
    Pow2Sum(58, 6);
    assert Pow2(6) == 64;
    hide Pow2;
  }

  lemma SixShifts(x: nat, m: nat)
    ensures BitAnd(x, 64 * m) == 64 * BitAnd(x / 64, m)
  {
    hide BitAnd;
    BitAndEven(x, 32 * m);
    BitAndEven(x / 2, 16 * m);
    BitAndEven(x / 2 / 2, 8 * m);
    BitAndEven(x / 2 / 2 / 2, 4 * m);
    BitAndEven(x / 2 / 2 / 2 / 2, 2 * m);
    BitAndEven(x / 2 / 2 / 2 / 2 / 2, m);
    assert x / 2 / 2 / 2 / 2 / 2 / 2 == x / 64;
  }

  lemma ClearLowBits(x: u64)
    ensures BitAnd(x, TWO64 - LINE) == x / 64 * 64
  {
    var m, y := 0x400_0000_0000_0000 - 1, x / 64;
    HighMask(m);
    hide BitAnd, Pow2;
    SixShifts(x, m);
    MaskIsMod(y, 58);
    DivUnique(y, Pow2(58), 0, y);
  }

  lemma AlignedIs(n: u64)
    ensures Aligned(n) == if RoundUp(n) < TWO64 then RoundUp(n) else 0
  {
    ClearLowBits((n + LINE - 1) % TWO64);
  }

  /** The wrapped check accepts a request that fits, and also every request whose end passes 2^64. */
  lemma FitsExactly(size: u64, current: u64, n: u64)
    requires current <= size
    ensures Fits(size, current, n) <==> current + RoundUp(n) <= size || current + RoundUp(n) >= TWO64
  {
    AlignedIs(n);
    hide RoundUp, Aligned;
    if current + RoundUp(n) >= TWO64 {
      assert RoundUp(n) <= TWO64 by { RoundUpBound(n); }
    }
  }

  lemma RoundUpBound(n: u64)
    ensures RoundUp(n) <= TWO64
  {
  }

  /** Of the requests the check accepts, exactly those whose rounded end stays below 2^64 get a block inside
      the buffer. */
  lemma GrantInside(size: u64, current: u64, n: u64)
    requires current <= size <= TWO64 - LINE && Fits(size, current, n)
    ensures current + n <= size <==> current + RoundUp(n) < TWO64
  {
    FitsExactly(size, current, n);
    hide Fits;
  }

  // ----- the steps

  function Latest(s: seq<u64>): u64 {
    if s == [] then 0 else s[|s| - 1]
  }

  function SeenBy(a: Arena, thread: nat): nat {
    if thread in a.seen then a.seen[thread] else 0
  }

  /** A value of offset_ was read: go on if the request fits behind it, give up otherwise. */
  function Tried(a: Arena, thread: nat, n: u64, k: nat): Arena
    requires k < |a.offsets|
  {
    a.(seen := a.seen[thread := k],
       calls := if Fits(a.size, a.offsets[k], n) then a.calls[thread := Call(n, a.offsets[k])] else a.calls - {thread})
  }

  predicate Enabled(a: Arena, x: Action) {
    match x
    case Load(t, n, k) => t !in a.calls && SeenBy(a, t) <= k < |a.offsets|
    case Exchange(t) => t in a.calls && a.calls[t].current == Latest(a.offsets)
    case FailExchange(t, k) => t in a.calls && SeenBy(a, t) <= k < |a.offsets|
  }

  function Step(a: Arena, x: Action): Arena
    requires Enabled(a, x)
  {
    match x
    case Load(t, n, k) => Tried(a, t, n, k)
    case FailExchange(t, k) => Tried(a, t, a.calls[t].n, k)
    case Exchange(t) =>
      var c := a.calls[t];
      a.(offsets := a.offsets + [WrappedSum(c.current, Aligned(c.n))],
         seen := a.seen[t := |a.offsets|],
         calls := a.calls - {t},
         granted := a.granted + [Block(c.current, c.n)])
  }

  // ----- what no interleaving may break

  /** Small enough that neither the rounding nor the sum can wrap, wherever the offset stands. */
  predicate Small(size: u64, n: u64) {
    size + RoundUp(n) < TWO64
  }

  function BlockEnd(b: Block): nat {
    b.start + RoundUp(b.n)
  }

  ghost predicate OffsetsOk(offsets: seq<u64>, size: u64) {
    && offsets != []
    && (forall i :: 0 <= i < |offsets| ==> offsets[i] <= size && offsets[i] % LINE == 0)
    && (forall i, j :: 0 <= i <= j < |offsets| ==> offsets[i] <= offsets[j])
  }

  ghost predicate CallsOk(calls: map<nat, Call>, size: u64) {
    forall t :: t in calls ==> calls[t].current % LINE == 0 && Small(size, calls[t].n)
                               && calls[t].current + RoundUp(calls[t].n) <= size
  }

  /** Blocks start on a line, lie inside the buffer, and follow one another. */
  ghost predicate BlocksOk(granted: seq<Block>, size: u64, top: nat) {
    && (forall i :: 0 <= i < |granted| ==> granted[i].start % LINE == 0 && BlockEnd(granted[i]) <= top && top <= size)
    && (forall i, j :: 0 <= i < j < |granted| ==> BlockEnd(granted[i]) <= granted[j].start)
  }

  function Bytes(granted: seq<Block>): nat {
    if granted == [] then 0 else Bytes(granted[..|granted| - 1]) + RoundUp(granted[|granted| - 1].n)
  }

  ghost predicate Inv(a: Arena) {
    && OffsetsOk(a.offsets, a.size) && CallsOk(a.calls, a.size)
    && BlocksOk(a.granted, a.size, Latest(a.offsets))
    && Latest(a.offsets) as int == Bytes(a.granted)
  }

  predicate SmallAction(size: u64, x: Action) {
    x.Load? ==> Small(size, x.n)
  }

  lemma TriedKeeps(a: Arena, thread: nat, n: u64, k: nat)
    requires Inv(a) && k < |a.offsets| && Small(a.size, n)
    ensures Inv(Tried(a, thread, n, k))
  {
    FitsExactly(a.size, a.offsets[k], n);
    hide Fits, RoundUp, BlocksOk;
  }

  /** A successful exchange moves the newest offset to the end of the block. */
  lemma NextOffset(a: Arena, t: nat)
    requires Inv(a) && Enabled(a, Exchange(t))
    ensures var c, top := a.calls[t], Latest(a.offsets);
            var next := WrappedSum(c.current, Aligned(c.n));
            && c.current == top && top % LINE == 0
            && next as int == top + RoundUp(c.n) <= a.size && next % LINE == 0
  {
    hide RoundUp, Aligned, BlocksOk;
    var c, top := a.calls[t], Latest(a.offsets);
    AlignedIs(c.n);
    assert top % LINE == 0 && top + RoundUp(c.n) <= a.size;
    LineSum(top, RoundUp(c.n));
  }

  lemma ExchangeKeeps(a: Arena, t: nat)
    requires Inv(a) && Enabled(a, Exchange(t))
    ensures Inv(Step(a, Exchange(t)))
  {
    hide RoundUp, Aligned, WrappedSum, OffsetsOk, BlocksOk;
    NextOffset(a, t);
    var c := a.calls[t];
    OffsetsGrown(a.offsets, a.size, WrappedSum(c.current, Aligned(c.n)));
    BlocksGrown(a.granted, a.size, Block(c.current, c.n));
    assert Step(a, Exchange(t)).granted[..|a.granted|] == a.granted;
  }

  lemma OffsetsGrown(offsets: seq<u64>, size: u64, next: u64)
    requires OffsetsOk(offsets, size) && Latest(offsets) <= next <= size && next % LINE == 0
    ensures OffsetsOk(offsets + [next], size)
  {
  }

  lemma BlocksGrown(granted: seq<Block>, size: u64, b: Block)
    requires BlocksOk(granted, size, b.start) && b.start % LINE == 0 && BlockEnd(b) <= size
    ensures BlocksOk(granted + [b], size, BlockEnd(b))
  {
    hide RoundUp;
  }

  lemma LineSum(a: nat, b: nat)
    requires a % LINE == 0 && b % LINE == 0
    ensures (a + b) % LINE == 0
  {
    ModIs(b, LINE);
    ModAddMultiple(a, b / LINE, LINE);
  }

  lemma StepKeeps(a: Arena, x: Action)
    requires Inv(a) && Enabled(a, x) && SmallAction(a.size, x)
    ensures Inv(Step(a, x)) && Step(a, x).size == a.size
  {
    match x
    case Load(t, n, k) => TriedKeeps(a, t, n, k);
    case Exchange(t) => ExchangeKeeps(a, t);
    case FailExchange(t, k) =>
      assert Small(a.size, a.calls[t].n);
      TriedKeeps(a, t, a.calls[t].n, k);
  }

  // ----- whole runs

  ghost predicate IsRun(arenas: seq<Arena>, steps: seq<Action>, size: u64) {
    && |arenas| == |steps| + 1 && arenas[0] == Start(size)
    && forall i :: 0 <= i < |steps| ==> Enabled(arenas[i], steps[i]) && arenas[i + 1] == Step(arenas[i], steps[i])
  }

  lemma {:induction false} RunInv(arenas: seq<Arena>, steps: seq<Action>, size: u64, i: nat)
    requires IsRun(arenas, steps, size) && i < |arenas|
    requires forall j :: 0 <= j < |steps| ==> SmallAction(size, steps[j])
    ensures Inv(arenas[i]) && arenas[i].size == size
  {
    if i > 0 {
      RunInv(arenas, steps, size, i - 1);
      hide Inv, Enabled, Step;
      StepKeeps(arenas[i - 1], steps[i - 1]);
    }
  }

  /** However the calls of any threads interleave: every block granted starts on a line and ends inside the
      buffer, no two blocks share a byte, and the bytes used are exactly the blocks granted. */
  lemma EveryInterleaving(arenas: seq<Arena>, steps: seq<Action>, size: u64, i: nat)
    requires IsRun(arenas, steps, size) && i < |arenas|
    requires forall j :: 0 <= j < |steps| ==> SmallAction(size, steps[j])
    ensures forall k :: 0 <= k < |arenas[i].granted| ==>
              var b := arenas[i].granted[k]; b.start % LINE == 0 && b.start + b.n <= size
    ensures forall k, l :: 0 <= k < l < |arenas[i].granted| ==>
              arenas[i].granted[k].start + arenas[i].granted[k].n <= arenas[i].granted[l].start
    ensures Latest(arenas[i].offsets) as int == Bytes(arenas[i].granted)
  {
    RunInv(arenas, steps, size, i);
  }

  /** A call gives up only when the request no longer fits: not behind the value it read, and so, as offsets
      never go back, not behind the newest one. */
  lemma RefusedWhenFull(a: Arena, thread: nat, n: u64, k: nat)
    requires Inv(a) && k < |a.offsets| && Small(a.size, n)
    ensures thread !in Tried(a, thread, n, k).calls <==> a.offsets[k] + RoundUp(n) > a.size
    ensures thread !in Tried(a, thread, n, k).calls ==> Latest(a.offsets) + RoundUp(n) > a.size
  {
    FitsExactly(a.size, a.offsets[k], n);
    hide Fits, RoundUp, BlocksOk;
  }

  // ----- requests that are not small

  /** No request asks for more than n bytes. */
  predicate UpTo(steps: seq<Action>, n: u64) {
    forall i :: 0 <= i < |steps| ==> steps[i].Load? ==> steps[i].n <= n
  }

  /** Every block ends inside the buffer, and no two share a byte. */
  ghost predicate Safe(granted: seq<Block>, size: u64) {
    && (forall k :: 0 <= k < |granted| ==> granted[k].start + granted[k].n <= size)
    && (forall k, l :: 0 <= k < l < |granted| ==> granted[k].start + granted[k].n <= granted[l].start)
  }

  /** What a run has granted. */
  function Granted(arenas: seq<Arena>): seq<Block> {
    if arenas == [] then [] else arenas[|arenas| - 1].granted
  }

  /** Between two calls of a single thread. */
  ghost predicate Quiet(a: Arena) {
    a.calls == map[] && a.offsets != [] && SeenBy(a, 0) < |a.offsets|
  }

  /** The thread asks for n bytes and is given them behind the newest offset. */
  lemma OneCall(arenas: seq<Arena>, steps: seq<Action>, size: u64, most: u64, n: u64)
      returns (arenas': seq<Arena>, steps': seq<Action>)
    requires IsRun(arenas, steps, size) && UpTo(steps, most) && n <= most
    requires var a := arenas[|steps|]; Quiet(a) && a.size == size && Fits(size, Latest(a.offsets), n)
    ensures IsRun(arenas', steps', size) && UpTo(steps', most)
    ensures var a, a' := arenas[|steps|], arenas'[|steps'|];
            && Quiet(a') && a'.size == size && a'.granted == a.granted + [Block(Latest(a.offsets), n)]
            && Latest(a'.offsets) == WrappedSum(Latest(a.offsets), Aligned(n))
  {
    hide Aligned, WrappedSum, Fits;
    var a := arenas[|steps|];
    var k := |a.offsets| - 1;
    var a1 := Step(a, Load(0, n, k));
    var a2 := Step(a1, Exchange(0));
    steps' := steps + [Load(0, n, k), Exchange(0)];
    arenas' := arenas + [a1, a2];
  }

  /** The first blocks of a run that has only asked for up to a line at a time. */
  ghost predicate Lines(a: Arena, m: u64) {
    && |a.granted| * LINE == Latest(a.offsets) as int
    && forall i :: 0 <= i < |a.granted| ==> a.granted[i] == Block(i * LINE, m)
  }

  lemma NotSmall(size: u64, n: u64)
    requires size <= TWO64 - LINE && !Small(size, n)
    ensures n > 0 && RoundUp(Min(n, LINE)) == LINE
  {
  }

  /** From a line on it is one more line, or a request of n bytes ends behind 2^64. */
  lemma LineOrWrap(size: u64, n: u64, c: nat)
    requires size <= TWO64 - LINE && !Small(size, n) && c % LINE == 0 && c + RoundUp(n) < TWO64
    ensures c + LINE <= size
  {
    var r := RoundUp(n);
    hide RoundUp;
    assert c + r <= TWO64 - LINE;
  }

  /** The lines below are handed out one by one until a request of n bytes ends behind 2^64. */
  lemma {:induction false} FillLines(arenas: seq<Arena>, steps: seq<Action>, size: u64, n: u64)
      returns (arenas': seq<Arena>, steps': seq<Action>)
    requires IsRun(arenas, steps, size) && UpTo(steps, n) && size <= TWO64 - LINE && !Small(size, n)
    requires var a := arenas[|steps|];
             Quiet(a) && a.size == size && Latest(a.offsets) <= size && Lines(a, Min(n, LINE))
    ensures IsRun(arenas', steps', size) && UpTo(steps', n)
    ensures var a := arenas'[|steps'|];
            && Quiet(a) && a.size == size && Latest(a.offsets) <= size && Lines(a, Min(n, LINE))
            && Latest(a.offsets) + RoundUp(n) >= TWO64
    decreases size - Latest(arenas[|steps|].offsets)
  {
    var c := Latest(arenas[|steps|].offsets);
    var m := Min(n, LINE);
    hide IsRun, UpTo, Quiet, Fits, Small;
    if c + RoundUp(n) >= TWO64 {
      return arenas, steps;
    }
    NotSmall(size, n);
    LineOrWrap(size, n, c);
    AlignedIs(m);
    FitsExactly(size, c, m);
    hide RoundUp, Aligned;
    arenas', steps' := OneCall(arenas, steps, size, n, m);
    arenas', steps' := FillLines(arenas', steps', size, n);
  }

  /** A granted request whose end wraps leads back to an old offset, or stays where it is. */
  lemma WrapsBack(size: u64, c: u64, n: u64)
    requires c <= size && c % LINE == 0 && c + RoundUp(n) >= TWO64
    ensures Fits(size, c, n)
    ensures var next := WrappedSum(c, Aligned(n));
            next % LINE == 0 && (next == c || next + LINE <= c)
  {
    hide RoundUp, Aligned, Fits;
    FitsExactly(size, c, n);
    AlignedIs(n);
    RoundUpBound(n);
    if RoundUp(n) < TWO64 { WrappedLine(c, RoundUp(n)); }
  }

  lemma WrappedLine(c: u64, r: u64)
    requires c % LINE == 0 && r % LINE == 0 && c + r >= TWO64
    ensures var next := WrappedSum(c, r);
            next as int == c + r - TWO64 && next % LINE == 0 && next + LINE <= c
  {
  }

  /** Without the bound on requests blocks end behind the buffer and overlap, in every buffer: lines are handed out
      until the end of a request of n bytes wraps, that one is granted too, and the next one gets an old offset. */
  lemma HugeRequestOverlaps(size: u64, n: u64) returns (arenas: seq<Arena>, steps: seq<Action>)
    requires size <= TWO64 - LINE && !Small(size, n)
    ensures IsRun(arenas, steps, size) && UpTo(steps, n)
    ensures var granted := Granted(arenas);
            && (exists k :: 0 <= k < |granted| && granted[k].start + granted[k].n > size)
            && (exists k, l :: 0 <= k < l < |granted| && granted[k].start == granted[l].start && granted[k].n > 0
                                                         && granted[l].n > 0)
  {
    arenas, steps := [Start(size)], [];
    arenas, steps := FillLines(arenas, steps, size, n);
    var a := arenas[|steps|];
    var c := Latest(a.offsets);
    var m := Min(n, LINE);
    NotSmall(size, n);
    WrapsBack(size, c, n);
    GrantInside(size, c, n);
    hide RoundUp, Fits, Aligned, WrappedSum, IsRun, UpTo, Quiet;
    arenas, steps := OneCall(arenas, steps, size, n, n);
    var next := WrappedSum(c, Aligned(n));
    var q := if next == c then n else m;
    FitsExactly(size, next, q);
    arenas, steps := OneCall(arenas, steps, size, n, q);
    var granted := Granted(arenas);
    var last := |a.granted|;
    assert granted[last] == Block(c, n) && granted[last + 1] == Block(next, q);
    if next < c { assert granted[next / LINE] == Block(next, m); }
  }

  lemma RoundUpGrows(a: nat, b: nat)
    requires a <= b
    ensures RoundUp(a) <= RoundUp(b)
  {
  }

  lemma SmallIsSafe(arenas: seq<Arena>, steps: seq<Action>, size: u64, n: u64)
    requires Small(size, n) && IsRun(arenas, steps, size) && UpTo(steps, n)
    ensures Safe(Granted(arenas), size)
  {
    forall i | 0 <= i < |steps| ensures SmallAction(size, steps[i]) {
      if steps[i].Load? { RoundUpGrows(steps[i].n, n); }
    }
    hide IsRun, UpTo, SmallAction;
    RunLength(arenas, steps, size);
    EveryInterleaving(arenas, steps, size, |steps|);
  }

  lemma RunLength(arenas: seq<Arena>, steps: seq<Action>, size: u64)
    requires IsRun(arenas, steps, size)
    ensures |arenas| == |steps| + 1
  {
  }

  lemma NotSafe(granted: seq<Block>, size: u64)
    requires exists k :: 0 <= k < |granted| && granted[k].start + granted[k].n > size
    ensures !Safe(granted, size)
  {
  }

  /** Whatever threads do, blocks stay inside the buffer and apart as long as requests are up to n bytes: exactly if
      n bytes are small for this buffer. */
  lemma SafeExactly(size: u64, n: u64)
    requires size <= TWO64 - LINE
    ensures Small(size, n) <==>
              forall arenas, steps :: IsRun(arenas, steps, size) && UpTo(steps, n) ==> Safe(Granted(arenas), size)
  {
    hide IsRun, UpTo, Small, Safe, Granted;
    if Small(size, n) {
      forall arenas, steps | IsRun(arenas, steps, size) && UpTo(steps, n) ensures Safe(Granted(arenas), size) {
        SmallIsSafe(arenas, steps, size, n);
      }
    } else {
      var arenas, steps := HugeRequestOverlaps(size, n);
      NotSafe(Granted(arenas), size);
    }
  }

  // ----- the allocator itself

  class BumpAllocator {
    const size: u64
    var offset: u64

    /** The modification order of offset, the calls under way, what each thread has seen, the blocks granted. */
    ghost var offsets: seq<u64>
    ghost var calls: map<nat, Call>
    ghost var seen: map<nat, nat>
    ghost var granted: seq<Block>

    ghost function State(): Arena
      reads this
    {
      Arena(size, offsets, calls, seen, granted)
    }

    ghost predicate Valid()
      reads this
    {
      offsets != [] && offset == Latest(offsets) && forall t :: t in seen ==> seen[t] < |offsets|
    }

    constructor (size: u64)
      ensures Valid() && State() == Start(size)
    {
      this.size, offset := size, 0;
      offsets, calls, seen, granted := [0], map[], map[], [];
    }

    /** The relaxed load and the check behind it; current is the k-th value stored. */
    method LoadOffset(current: u64, n: u64, ghost thread: nat, ghost k: nat) returns (fits: bool)
      requires Valid() && Enabled(State(), Load(thread, n, k)) && current == offsets[k]
      modifies this`calls, this`seen
      ensures Valid() && State() == Step(old(State()), Load(thread, n, k))
      ensures fits <==> thread in calls
    {
      var aligned := Aligned(n);
      fits := WrappedSum(current, aligned) <= size;
      seen := seen[thread := k];
      calls := if fits then calls[thread := Call(n, current)] else calls - {thread};
    }

    /** compare_exchange_weak; spurious says that it fails although the values are equal. A failure returns the
        newest value here. */
    method CompareExchange(current: u64, aligned: u64, spurious: bool, ghost thread: nat)
      returns (ok: bool, observed: u64)
      requires Valid() && thread in calls && calls[thread].current == current && aligned == Aligned(calls[thread].n)
      modifies this
      ensures Valid() && (ok <==> !spurious && old(offset) == current)
      ensures ok ==> State() == Step(old(State()), Exchange(thread))
      ensures !ok ==> observed == offset == old(offset)
                      && State() == Step(old(State()), FailExchange(thread, |old(offsets)| - 1))
    {
      observed := offset;
      ok := !spurious && observed == current;
      ghost var c := calls[thread];
      calls := calls - {thread};
      if ok {
        offset := WrappedSum(current, aligned);
        seen := seen[thread := |offsets|];
        offsets := offsets + [offset];
        granted := granted + [Block(current, c.n)];
      } else {
        seen := seen[thread := |offsets| - 1];
        calls := if Fits(size, observed, c.n) then calls[thread := Call(c.n, observed)] else calls;
        assert calls == if Fits(size, observed, c.n) then old(calls)[thread := Call(c.n, observed)]
                        else old(calls) - {thread};
      }
    }

    /** allocate without interference; the exchange fails spuriously the given number of times. */
    method Allocate(n: u64, failures: nat, ghost thread: nat) returns (r: Option<u64>)
      requires Valid() && thread !in calls
      modifies this
      ensures Valid() && calls == old(calls)
      ensures r == if Fits(size, old(offset), n) then Some(old(offset)) else None
      ensures offset == if r.Some? then WrappedSum(old(offset), Aligned(n)) else old(offset)
      ensures granted == if r.Some? then old(granted) + [Block(old(offset), n)] else old(granted)
    {
      var current, aligned := offset, Aligned(n);
      var fits := LoadOffset(current, n, thread, |offsets| - 1);
      if !fits {
        assert calls == old(calls);
        return None;
      }
      var left := failures;
      var ok, observed := CompareExchange(current, aligned, left > 0, thread);
      while !ok
        invariant Valid() && current == old(offset) && Fits(size, current, n)
        invariant !ok ==> offset == old(offset) && offsets == old(offsets) && granted == old(granted)
                          && observed == current
                          && calls == old(calls)[thread := Call(n, current)]
        invariant ok ==> offset == WrappedSum(old(offset), aligned) && granted == old(granted) + [Block(old(offset), n)]
                         && calls == old(calls)
        invariant ok || left > 0
        decreases !ok, left
      {
        current := observed;
        if WrappedSum(current, aligned) > size {
          assert false;  // only another thread's exchange can lead here: EveryInterleaving covers it
        }
        left := left - 1;
        ok, observed := CompareExchange(current, aligned, left > 0, thread);
      }
      return Some(current);
    }
  }
}
