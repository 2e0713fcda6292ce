/** How the execution engine of api/crates/analytics/src/execution.rs slices an order into child
    orders. Decimal weights are exact rationals here. A result of None is a panic: a division by
    zero, or an index below zero. */
module AlgoPlans {
  import opened Types
  import opened Masks

  datatype ChildStatus = Pending | Submitted | Filled | Failed

  /** Times are in seconds. */
  datatype Child = Child(sequence: u32, quantity: u64, price: Option<u32>, scheduled: int, status: ChildStatus)

  function Total(cs: seq<Child>): nat {
    if cs == [] then 0 else Total(cs[..|cs| - 1]) + cs[|cs| - 1].quantity
  }

  lemma TotalAppended(cs: seq<Child>, c: Child)
    ensures Total(cs + [c]) == Total(cs) + c.quantity
  {
    assert (cs + [c])[..|cs|] == cs;
  }

  // ----- arithmetic with named factors

  function Times(n: nat, x: nat): nat {
    n * x
  }

  function Quotient(x: nat, n: nat): nat
    requires n > 0
  {
    x / n
  }

  function Remainder(x: nat, n: nat): nat
    requires n > 0
  {
    x % n
  }

  lemma Divided(x: nat, n: nat)
    requires n > 0
    ensures Times(n, Quotient(x, n)) + Remainder(x, n) == x && Remainder(x, n) < n
    ensures Quotient(x, n) + Remainder(x, n) <= x
  {
    ModIs(x, n);
    MulOrder(1, n, x / n);
  }

  lemma TimesStep(n: nat, x: nat)
    ensures Times(n + 1, x) == Times(n, x) + x && Times(0, x) == 0
  {
  }

  lemma TimesOrder(i: nat, k: nat, x: nat)
    requires i <= k
    ensures Times(i, x) <= Times(k, x)
  {
    MulOrder(i, k, x);
  }

  // ----- TWAP

  predicate IsTwapChild(c: Child, quantity: u64, window: u64, slices: u32, price: Option<u32>, now: int, i: nat)
    requires i < slices
  {
    && c.sequence == i && c.price == price && c.status == Pending
    && c.quantity == Quotient(quantity, slices) + (if i == slices - 1 then Remainder(quantity, slices) else 0)
    && (Times(i, Quotient(window, slices)) < TWO64 ==> c.scheduled == now + AsI64(Times(i, Quotient(window, slices))))
  }

  /** Equal slices; the last takes the remainder. */
  method CreateTwap(quantity: u64, window: u64, slices: u32, price: Option<u32>, now: int)
    returns (r: Option<seq<Child>>)
    ensures r.None? <==> slices == 0
    ensures r.Some? ==>
              && |r.value| == slices && Total(r.value) == quantity
              && forall i :: 0 <= i < slices ==> IsTwapChild(r.value[i], quantity, window, slices, price, now, i)
  {
    if slices == 0 {
      return None;
    }
    hide Times, Quotient, Remainder;
    var part, remainder := Quotient(quantity, slices), Remainder(quantity, slices);
    var pause := Quotient(window, slices);
    var children: seq<Child> := [];
    Divided(quantity, slices);
    Divided(window, slices);
    TimesStep(0, part);
    for i := 0 to slices
      invariant |children| == i
      invariant Total(children) == Times(i, part) + (if i == slices then remainder else 0)
      invariant forall k :: 0 <= k < i ==> IsTwapChild(children[k], quantity, window, slices, price, now, k)
    {
      TimesOrder(i, slices, pause);
      TimesStep(i, part);
      var qty := if i == slices - 1 then part + remainder else part;
      var child := Child(i, qty, price, now + AsI64(Times(i, pause)), Pending);
      TotalAppended(children, child);
      children := children + [child];
    }
    return Some(children);
  }

  /** All slices but the last are equal; the last is larger by less than the number of slices; the schedule starts
      now, never goes back and ends before the window does. */
  lemma TwapShape(c: Child, d: Child, quantity: u64, window: u64, slices: u32, price: Option<u32>, now: int, i: nat,
                  k: nat)
    requires i < k < slices && window <= 0x7FFF_FFFF_FFFF_FFFF
    requires IsTwapChild(c, quantity, window, slices, price, now, i)
             && IsTwapChild(d, quantity, window, slices, price, now, k)
    ensures now <= c.scheduled <= d.scheduled <= now + window
    ensures c.quantity <= d.quantity < c.quantity + slices && (k < slices - 1 ==> c.quantity == d.quantity)
    ensures c.quantity * slices <= quantity < (c.quantity + 1) * slices
    ensures c.sequence as int == i && d.sequence as int == k && c.price == price && c.status == Pending
    ensures i == 0 ==> c.scheduled == now
    ensures k == i + 1 ==> (d.scheduled - c.scheduled) * slices <= window < (d.scheduled - c.scheduled + 1) * slices
  {
    TwapQuotients(c, d, quantity, window, slices, price, now, i, k);
    Divided(quantity, slices);
    Divided(window, slices);
    hide Times, Quotient, Remainder;
    var pause := Quotient(window, slices);
    TimesOrder(i, k, pause);
    TimesOrder(k, slices, pause);
  }

  /** The parts and the pauses are the exact quotients, rounded down. */
  lemma TwapQuotients(c: Child, d: Child, quantity: u64, window: u64, slices: u32, price: Option<u32>, now: int, i: nat,
                      k: nat)
    requires i < k < slices && window <= 0x7FFF_FFFF_FFFF_FFFF
    requires IsTwapChild(c, quantity, window, slices, price, now, i)
             && IsTwapChild(d, quantity, window, slices, price, now, k)
    ensures c.quantity * slices <= quantity < (c.quantity + 1) * slices
    ensures i == 0 ==> c.scheduled == now
    ensures k == i + 1 ==> (d.scheduled - c.scheduled) * slices <= window < (d.scheduled - c.scheduled + 1) * slices
  {
    Divided(quantity, slices);
    Divided(window, slices);
    var part, pause := Quotient(quantity, slices), Quotient(window, slices);
    QuotientBounds(quantity, slices);
    QuotientBounds(window, slices);
    hide Quotient, Remainder;
    TimesOrder(k, slices, pause);
    TimesOrder(i, k, pause);
    TimesStep(i, pause);
    TimesStep(0, pause);
    hide Times;
  }

  lemma QuotientBounds(x: nat, n: nat)
    requires n > 0
    ensures Quotient(x, n) * n <= x < (Quotient(x, n) + 1) * n
  {
    ModIs(x, n);
  }

  // ----- iceberg

  /** The number of slices the order needs. */
  function SlicesNeeded(total: u64, visible: u64): nat
    requires visible > 0
  {
    Quotient(total + visible - 1, visible)
  }

  /** The quotient rounded up, as a 32-bit number; 1 when it does not fit. */
  function IcebergSlices(total: u64, visible: u64): u32
    requires visible > 0
  {
    var up := SlicesNeeded(total, visible);
    if up < TWO32 then up else 1
  }

  predicate IsIcebergChild(c: Child, visible: u64, price: u32, now: int, i: nat) {
    && c.sequence as int == i && 1 <= c.quantity <= visible
    && c.price == Some(price) && c.status == Pending && c.scheduled == now
  }

  /** Slices of the visible quantity. They make up the order exactly if their number fits 32 bits; otherwise the
      order is cut to a single slice. */
  method CreateIceberg(total: u64, visible: u64, price: u32, now: int) returns (r: Option<seq<Child>>)
    ensures r.None? <==> visible == 0
    ensures r.Some? ==>
              && (forall i :: 0 <= i < |r.value| ==> IsIcebergChild(r.value[i], visible, price, now, i))
              && Total(r.value) == if SlicesNeeded(total, visible) < TWO32 then total else visible
    ensures r.Some? ==> forall i :: 0 <= i < |r.value| - 1 ==> r.value[i].quantity == visible
    ensures r.Some? && SlicesNeeded(total, visible) >= TWO32 ==> visible < total
  {
    if visible == 0 {
      return None;
    }
    hide Times, Quotient, SlicesNeeded, IcebergPart, IsIcebergChild, Total;
    var slices := IcebergSlices(total, visible);
    RoundedUp(total, visible);
    var children: seq<Child> := [];
    var remaining := total;
    TimesStep(0, visible);
    NoPart(visible, price, now, slices);
    for i := 0 to slices
      invariant |children| == i && remaining + Total(children) == total
      invariant remaining as int == if Times(i, visible) < total then total - Times(i, visible) else 0
      invariant IcebergPart(children, visible, price, now, slices)
    {
      SomeLeft(i, total, visible);
      if i < slices - 1 { SomeLeft(i + 1, total, visible); }
      var qty: u64 := Min(visible, remaining);
      remaining := remaining - qty;
      var child := Child(i, qty, Some(price), now, Pending);
      TotalAppended(children, child);
      OneMorePart(children, child, visible, price, now, slices);
      children := children + [child];
    }
    LeftAtEnd(total, visible, slices, remaining);
    PartIs(children, visible, price, now, slices);
    return Some(children);
  }

  /** The first slices of an iceberg order: all but the last one of it have the visible quantity. */
  ghost predicate IcebergPart(cs: seq<Child>, visible: u64, price: u32, now: int, slices: nat) {
    forall k :: 0 <= k < |cs| ==>
      IsIcebergChild(cs[k], visible, price, now, k) && (k < slices - 1 ==> cs[k].quantity == visible)
  }

  lemma NoPart(visible: u64, price: u32, now: int, slices: nat)
    ensures IcebergPart([], visible, price, now, slices) && Total([]) == 0
  {
  }

  lemma OneMorePart(cs: seq<Child>, c: Child, visible: u64, price: u32, now: int, slices: nat)
    requires IcebergPart(cs, visible, price, now, slices) && c.sequence as int == |cs| && 1 <= c.quantity <= visible
    requires c.price == Some(price) && c.status == Pending && c.scheduled == now
    requires |cs| < slices - 1 ==> c.quantity == visible
    ensures IcebergPart(cs + [c], visible, price, now, slices)
  {
  }

  lemma PartIs(cs: seq<Child>, visible: u64, price: u32, now: int, slices: nat)
    requires IcebergPart(cs, visible, price, now, slices) && |cs| == slices
    ensures forall i :: 0 <= i < |cs| ==> IsIcebergChild(cs[i], visible, price, now, i)
    ensures forall i :: 0 <= i < |cs| - 1 ==> cs[i].quantity == visible
  {
  }

  lemma SomeLeft(i: nat, total: u64, visible: u64)
    requires visible > 0 && i < IcebergSlices(total, visible)
    ensures Times(i, visible) < total && Times(i + 1, visible) == Times(i, visible) + visible
  {
    hide Times, Quotient;
    RoundedUp(total, visible);
    TimesOrder(i, SlicesNeeded(total, visible) - 1, visible);
    TimesStep(i, visible);
  }

  lemma LeftAtEnd(total: u64, visible: u64, slices: nat, remaining: u64)
    requires visible > 0 && slices == IcebergSlices(total, visible)
    requires remaining as int == if Times(slices, visible) < total then total - Times(slices, visible) else 0
    ensures total - remaining == if SlicesNeeded(total, visible) < TWO32 then total else visible
    ensures SlicesNeeded(total, visible) >= TWO32 ==> visible < total
  {
    hide Times, Quotient;
    RoundedUp(total, visible);
    TimesStep(0, visible);
  }

  lemma RoundedUp(total: u64, visible: u64)
    requires visible > 0
    ensures var n := SlicesNeeded(total, visible);
            && Times(n, visible) >= total && (n > 0 ==> Times(n - 1, visible) < total) && (n == 0 <==> total == 0)
            && (n > 1 ==> visible < total)
  {
    var n := SlicesNeeded(total, visible);
    Divided(total + visible - 1, visible);
    hide Quotient, Remainder;
    if n > 0 { TimesStep(n - 1, visible); }
    if n > 1 { TimesOrder(1, n - 1, visible); }
  }

  // ----- VWAP

  function SumReal(xs: seq<real>): real {
    if xs == [] then 0.0 else SumReal(xs[..|xs| - 1]) + xs[|xs| - 1]
  }

  ghost predicate Positive(xs: seq<real>) {
    forall i :: 0 <= i < |xs| ==> xs[i] > 0.0
  }

  function Product(a: real, b: real): real {
    a * b
  }

  function Share(w: real, whole: real): real
    requires whole != 0.0
  {
    w / whole
  }

  /** to_u64 of a non-negative decimal drops the fraction; beyond 64 bits it gives nothing, read as 0. */
  function ToU64(x: real): u64 {
    var f := x.Floor;
    if 0 <= f < TWO64 then f else 0
  }

  predicate IsMarketSlice(c: Child, i: nat) {
    c.sequence as int == i && c.price == None && c.status == Pending
  }

  // Decimals have 28 digits: each of the operations behind a slice's share is rounded, the sum of the weights once a
  // weight. So the products that the code computes differ from the exact shares by a relative error for each weight
  // and an absolute one.

  const ULP: real := 0.000000000000000000000000001

  function Slack(exact: real, quantity: real, n: real): real {
    Product(Product(n, exact), ULP) + Product(quantity, ULP)
  }

  predicate Close(part: real, exact: real, quantity: real, n: real) {
    part >= 0.0 && exact - Slack(exact, quantity, n) <= part <= exact + Slack(exact, quantity, n)
  }

  /** quantity * (weight / sum of the weights) as decimals give it, for each weight. */
  type Decimals = (u64, seq<real>) -> seq<real>

  ghost predicate Near(parts: seq<real>, quantity: u64, weights: seq<real>)
    requires Positive(weights) && weights != []
  {
    SumPositive(weights);
    && |parts| == |weights|
    && forall i :: 0 <= i < |parts| ==>
         Close(parts[i], Product(quantity as real, Share(weights[i], SumReal(weights))), quantity as real,
               |weights| as real)
  }

  ghost predicate Sound(decimals: Decimals) {
    forall q, ws :: Comparable(ws) && 0 < |ws| < TWO32 ==> Near(decimals(q, ws), q, ws)
  }

  /** No weight is more than 48 times another: they lie between 1 / 24 and 2, or are all the same. */
  ghost predicate Comparable(weights: seq<real>) {
    Positive(weights) && forall i, j :: 0 <= i < |weights| && 0 <= j < |weights| ==> weights[i] <= 48.0 * weights[j]
  }

  /** c has the share of weight w of the whole, rounded down to a unit, within the error of decimals. */
  ghost predicate IsVwapChild(c: Child, quantity: u64, w: real, whole: real, slices: u32, i: nat)
    requires whole != 0.0
  {
    var exact := Product(quantity as real, Share(w, whole));
    var slack := Slack(exact, quantity as real, slices as real);
    IsMarketSlice(c, i) && exact - slack - 1.0 < c.quantity as real <= exact + slack
  }

  /** Every slice but the last has its share of the quantity and its part of the window; the last comes at the end. */
  ghost predicate IsVwapPlan(cs: seq<Child>, quantity: u64, window: u64, slices: u32, weights: seq<real>, now: int) {
    && |cs| == |weights| == slices > 0 && SumReal(weights) > 0.0
    && (forall i :: 0 <= i < slices ==> IsMarketSlice(cs[i], i))
    && (forall i :: 0 <= i < slices - 1 ==>
          && IsVwapChild(cs[i], quantity, weights[i], SumReal(weights), slices, i)
          && cs[i].scheduled == now + VwapDelay(i, window, slices))
    && cs[slices - 1].scheduled == now + AsI64(window)
  }

  /** Slices in proportion to the weights, rounded down; the last takes what is left. What is left is an unsigned
      difference, which cannot go below zero, however decimals are rounded. */
  method CreateVwap(quantity: u64, window: u64, slices: u32, weights: seq<real>, now: int, decimals: Decimals)
    returns (r: Option<seq<Child>>)
    requires |weights| == slices && Comparable(weights) && Sound(decimals)
    ensures r.None? <==> slices == 0
    ensures r.Some? ==> Total(r.value) == quantity && IsVwapPlan(r.value, quantity, window, slices, weights, now)
  {
    if slices == 0 {
      return None;
    }
    hide Product, Share, IsVwapChild, ToU64, Close, Comparable, VwapDelay, VwapPart, Near, Sound, SumReal, Total,
         Sliced, Positive, IsMarketSlice, IsVwapPlan;
    PositiveWeights(weights);
    SumPositive(weights);
    var parts := decimals(quantity, weights);
    PartsNear(decimals, quantity, weights);
    var children: seq<Child> := [];
    var given: nat := 0;
    NoSlices(parts, quantity, window, slices, weights, now);
    for i := 0 to slices - 1
      invariant |children| == i && Sliced(children, given, parts, quantity, window, slices, weights, now)
    {
      var qty := ToU64(parts[i]);
      var child := Child(i, qty, None, now + VwapDelay(i, window, slices), Pending);
      NextSlice(children, child, given, parts, quantity, window, slices, weights, now);
      given := given + qty;
      children := children + [child];
    }
    NotAllGiven(children, given, parts, quantity, window, slices, weights, now);
    var last := Child(slices - 1, quantity - given, None, now + AsI64(window), Pending);
    LastSlice(children, last, given, parts, quantity, window, slices, weights, now);
    return Some(children + [last]);
  }

  /** The first slices of a VWAP order. */
  ghost predicate VwapPart(cs: seq<Child>, quantity: u64, window: u64, slices: u32, weights: seq<real>, now: int)
    requires |weights| == slices > 0 && SumReal(weights) > 0.0
  {
    && |cs| < slices
    && forall k :: 0 <= k < |cs| ==>
         && IsMarketSlice(cs[k], k) && IsVwapChild(cs[k], quantity, weights[k], SumReal(weights), slices, k)
         && cs[k].scheduled == now + VwapDelay(k, window, slices)
  }

  /** What the loop has made: the first slices, which give out no more than their parts. */
  ghost predicate Sliced(cs: seq<Child>, given: nat, parts: seq<real>, quantity: u64, window: u64, slices: u32,
                         weights: seq<real>, now: int)
    requires |weights| == slices > 0 && SumReal(weights) > 0.0
  {
    && |cs| < slices && |parts| == slices && Total(cs) == given && given as real <= SumReal(parts[..|cs|])
    && VwapPart(cs, quantity, window, slices, weights, now)
  }

  lemma NoSlices(parts: seq<real>, quantity: u64, window: u64, slices: u32, weights: seq<real>, now: int)
    requires |weights| == slices > 0 && SumReal(weights) > 0.0 && |parts| == slices
    ensures Sliced([], 0, parts, quantity, window, slices, weights, now)
  {
  }

  lemma NextSlice(cs: seq<Child>, c: Child, given: nat, parts: seq<real>, quantity: u64, window: u64, slices: u32,
                  weights: seq<real>, now: int)
    requires |weights| == slices > 0 && SumReal(weights) > 0.0 && |cs| < slices - 1
    requires Comparable(weights) && Near(parts, quantity, weights)
    requires Sliced(cs, given, parts, quantity, window, slices, weights, now)
    requires c == Child(|cs|, ToU64(parts[|cs|]), None, now + VwapDelay(|cs|, window, slices), Pending)
    ensures Sliced(cs + [c], given + c.quantity, parts, quantity, window, slices, weights, now)
  {
    hide Product, Share, IsVwapChild, ToU64, Close, Comparable, VwapDelay, VwapPart, Near, SumReal, Total;
    var i := |cs|;
    PositiveWeights(weights);
    PartWithin(parts, quantity, weights, i);
    NearAt(parts, quantity, weights, i);
    VwapChildIs(c, quantity, weights[i], SumReal(weights), slices, i, parts[i]);
    OneMoreSlice(cs, c, quantity, window, slices, weights, now);
    TotalAppended(cs, c);
    SumExtended(parts, i);
  }

  lemma OneMoreSlice(cs: seq<Child>, c: Child, quantity: u64, window: u64, slices: u32, weights: seq<real>, now: int)
    requires |weights| == slices > 0 && SumReal(weights) > 0.0 && |cs| < slices - 1
    requires VwapPart(cs, quantity, window, slices, weights, now)
    requires IsMarketSlice(c, |cs|) && IsVwapChild(c, quantity, weights[|cs|], SumReal(weights), slices, |cs|)
    requires c.scheduled == now + VwapDelay(|cs|, window, slices)
    ensures VwapPart(cs + [c], quantity, window, slices, weights, now)
  {
    hide IsVwapChild, VwapDelay, SumReal;
  }

  lemma NotAllGiven(cs: seq<Child>, given: nat, parts: seq<real>, quantity: u64, window: u64, slices: u32,
                    weights: seq<real>, now: int)
    requires |weights| == slices > 0 && SumReal(weights) > 0.0 && |cs| == slices - 1
    requires Comparable(weights) && Near(parts, quantity, weights)
    requires Sliced(cs, given, parts, quantity, window, slices, weights, now)
    ensures given <= quantity as int
  {
    hide Comparable, VwapPart, Near, SumReal, Total;
    PartsWithin(parts, quantity, weights);
  }

  lemma LastSlice(cs: seq<Child>, c: Child, given: nat, parts: seq<real>, quantity: u64, window: u64, slices: u32,
                  weights: seq<real>, now: int)
    requires |weights| == slices > 0 && SumReal(weights) > 0.0 && |cs| == slices - 1
    requires Sliced(cs, given, parts, quantity, window, slices, weights, now)
    requires c == Child(slices - 1, c.quantity, None, now + AsI64(window), Pending) && given + c.quantity == quantity
    ensures Total(cs + [c]) == quantity && IsVwapPlan(cs + [c], quantity, window, slices, weights, now)
  {
    hide IsVwapChild, VwapDelay, SumReal, Total;
    TotalAppended(cs, c);
  }

  lemma PartsNear(decimals: Decimals, quantity: u64, weights: seq<real>)
    requires Sound(decimals) && Comparable(weights) && 0 < |weights| < TWO32
    ensures Near(decimals(quantity, weights), quantity, weights) && |decimals(quantity, weights)| == |weights|
  {
    hide Close;
  }

  lemma NearAt(parts: seq<real>, quantity: u64, weights: seq<real>, i: nat)
    requires Positive(weights) && weights != [] && Near(parts, quantity, weights) && i < |weights|
    ensures SumReal(weights) > 0.0 && |parts| == |weights|
    ensures Close(parts[i], Product(quantity as real, Share(weights[i], SumReal(weights))), quantity as real,
                  |weights| as real)
  {
    SumPositive(weights);
    hide Close, Product, Share, SumReal;
  }

  lemma PositiveWeights(weights: seq<real>)
    requires Comparable(weights)
    ensures Positive(weights)
  {
  }

  function VwapDelay(i: nat, window: u64, slices: u32): int
    requires slices > 0
  {
    Divided(Times(i, window) % TWO64, slices);
    AsI64(Quotient(Times(i, window) % TWO64, slices))
  }

  /** As long as the products fit 64 bits, the i-th slice comes i parts of the window after now, rounded down to a
      second, so the schedule never goes back and stays before the end of the window. */
  lemma VwapSchedule(i: nat, k: nat, window: u64, slices: u32)
    requires i <= k < slices && Times(k, window) < 0x8000_0000_0000_0000
    ensures 0 <= VwapDelay(i, window, slices) <= VwapDelay(k, window, slices) <= window as int
    ensures var delay := VwapDelay(i, window, slices);
            Times(delay, slices) <= Times(i, window) < Times(delay + 1, slices)
  {
    hide Times, VwapDelay;
    TimesOrder(i, k, window);
    DelayIs(i, window, slices);
    DelayIs(k, window, slices);
    var a, b := VwapDelay(i, window, slices), VwapDelay(k, window, slices);
    if a > b { TimesOrder(b + 1, a, slices); }
    TimesOrder(k, slices, window);
    TimesCommute(slices, window);
    if b > window { TimesOrder(window, b, slices); TimesLess(k, slices, window, b); }
  }

  lemma TimesCommute(n: nat, x: nat)
    ensures Times(n, x) == Times(x, n)
  {
  }

  lemma TimesLess(k: nat, slices: nat, window: nat, b: nat)
    requires k < slices && b > window
    ensures Times(k, window) < Times(b, slices)
  {
    MulOrder(k, slices, window);
    MulOrder(window + 1, b, slices);
  }

  lemma DelayIs(i: nat, window: u64, slices: u32)
    requires slices > 0 && Times(i, window) < 0x8000_0000_0000_0000
    ensures var delay := VwapDelay(i, window, slices);
            0 <= delay && Times(delay, slices) <= Times(i, window) < Times(delay + 1, slices)
  {
    var x := Times(i, window);
    hide Times;
    QuotientTimes(x, slices);
    Divided(x, slices);
    hide Quotient, Remainder;
  }

  lemma QuotientTimes(x: nat, n: nat)
    requires n > 0
    ensures Times(Quotient(x, n), n) <= x < Times(Quotient(x, n) + 1, n)
  {
    QuotientBounds(x, n);
  }

  function Normalized(weights: seq<real>): (r: seq<real>)
    requires SumReal(weights) != 0.0
    ensures |r| == |weights| && forall i :: 0 <= i < |r| ==> r[i] == Share(weights[i], SumReal(weights))
  {
    seq(|weights|, i requires 0 <= i < |weights| => Share(weights[i], SumReal(weights)))
  }

  lemma {:induction false} SumPositive(xs: seq<real>)
    requires Positive(xs)
    ensures SumReal(xs) >= 0.0 && (xs != [] ==> SumReal(xs) > 0.0)
  {
    if xs != [] {
      SumPositive(xs[..|xs| - 1]);
    }
  }

  lemma SumExtended(xs: seq<real>, i: nat)
    requires i < |xs|
    ensures SumReal(xs[..i + 1]) == SumReal(xs[..i]) + xs[i]
  {
    assert xs[..i + 1][..i] == xs[..i];
  }

  lemma ProductSum(q: real, a: real, b: real)
    ensures Product(q, a + b) == Product(q, a) + Product(q, b)
  {
  }

  lemma ShareIs(w: real, whole: real)
    requires whole > 0.0
    ensures Product(Share(w, whole), whole) == w
  {
  }

  lemma {:induction false} SharesScaled(weights: seq<real>, shares: seq<real>, whole: real, k: nat)
    requires |shares| == |weights| && k <= |weights| && whole > 0.0
    requires forall i :: 0 <= i < |weights| ==> shares[i] == Share(weights[i], whole)
    ensures Product(SumReal(shares[..k]), whole) == SumReal(weights[..k])
  {
    hide Product, Share;
    if k == 0 {
      ProductSumLeft(0.0, 0.0, whole);
    } else {
      SharesScaled(weights, shares, whole, k - 1);
      SumExtended(shares, k - 1);
      SumExtended(weights, k - 1);
      ShareIs(weights[k - 1], whole);
      ProductSumLeft(SumReal(shares[..k - 1]), shares[k - 1], whole);
    }
  }

  lemma ProductSumLeft(a: real, b: real, whole: real)
    ensures Product(a + b, whole) == Product(a, whole) + Product(b, whole) && Product(1.0, whole) == whole
  {
  }

  lemma SumNotNegative(xs: seq<real>, i: nat, k: nat)
    requires i < k <= |xs| && forall j :: 0 <= j < |xs| ==> xs[j] >= 0.0
    ensures xs[i] <= SumReal(xs[..k]) && SumReal(xs[..k]) >= 0.0
    decreases k
  {
    SumExtended(xs, k - 1);
    if k - 1 > i {
      SumNotNegative(xs, i, k - 1);
    } else {
      PrefixNotNegative(xs, i);
    }
  }

  lemma {:induction false} PrefixNotNegative(xs: seq<real>, k: nat)
    requires k <= |xs| && forall j :: 0 <= j < |xs| ==> xs[j] >= 0.0
    ensures SumReal(xs[..k]) >= 0.0
  {
    if k > 0 {
      PrefixNotNegative(xs, k - 1);
      SumExtended(xs, k - 1);
    }
  }

  /** The parts of the first slices add up to at most their exact shares and what decimals may add. */
  lemma {:induction false} PartsBelow(parts: seq<real>, shares: seq<real>, q: real, n: real, k: nat)
    requires |parts| == |shares| && k <= |parts|
    requires forall i :: 0 <= i < |parts| ==> Close(parts[i], Product(q, shares[i]), q, n)
    ensures SumReal(parts[..k])
            <= Product(q, SumReal(shares[..k])) + Product(Product(n, Product(q, SumReal(shares[..k]))), ULP)
               + Product(k as real, Product(q, ULP))
  {
    if k == 0 {
      ZeroParts(q, n);
    } else {
      PartsBelow(parts, shares, q, n, k - 1);
      SumExtended(parts, k - 1);
      SumExtended(shares, k - 1);
      var s, x := SumReal(shares[..k - 1]), shares[k - 1];
      hide Product;
      ProductSum(q, s, x);
      ProductSum(n, Product(q, s), Product(q, x));
      ProductSumLeft(Product(n, Product(q, s)), Product(n, Product(q, x)), ULP);
      ProductSumLeft((k - 1) as real, 1.0, Product(q, ULP));
    }
  }

  lemma ZeroParts(q: real, n: real)
    ensures Product(q, 0.0) == 0.0 && Product(n, 0.0) == 0.0 && Product(0.0, ULP) == 0.0
            && Product(0.0, Product(q, ULP)) == 0.0
  {
  }

  /** With n comparable weights each has at least one 48n-th of their sum. */
  lemma ShareAtLeast(weights: seq<real>, i: nat)
    requires Comparable(weights) && i < |weights| && SumReal(weights) > 0.0
    ensures Product(Share(weights[i], SumReal(weights)), 48.0 * |weights| as real) >= 1.0
  {
    var w, n, whole := weights[i], |weights| as real, SumReal(weights);
    SumAtMost(weights, 48.0 * w, |weights|);
    assert weights[..|weights|] == weights;
    QuotientAtLeast(w, n, whole);
  }

  lemma QuotientAtLeast(w: real, n: real, whole: real)
    requires 0.0 < whole <= Product(n, 48.0 * w)
    ensures Product(Share(w, whole), 48.0 * n) >= 1.0
  {
    ShareIs(w, whole);
    var s := Share(w, whole);
    var a := s * (48.0 * n);
    var all := Product(n, 48.0 * w);
    assert s * whole == w && all == n * (48.0 * w);
    hide Share, Product;
    assert a * whole == (s * whole) * (48.0 * n) == w * (48.0 * n) == all;
    AtLeastOne(a, whole, all);
    assert Product(s, 48.0 * n) == a by { ProductIs(s, 48.0 * n); }
  }

  lemma ProductIs(a: real, b: real)
    ensures Product(a, b) == a * b
  {
  }

  lemma AtLeastOne(a: real, whole: real, product: real)
    requires whole > 0.0 && product == a * whole && product >= whole
    ensures a >= 1.0
  {
    assert (1.0 - a) * whole == whole - product;
    if a < 1.0 { PositiveProduct(1.0 - a, whole); }
  }

  lemma PositiveProduct(a: real, b: real)
    requires a > 0.0 && b > 0.0
    ensures a * b > 0.0
  {
  }

  lemma {:induction false} SumAtMost(xs: seq<real>, most: real, k: nat)
    requires k <= |xs| && forall i :: 0 <= i < |xs| ==> xs[i] <= most
    ensures SumReal(xs[..k]) <= Product(k as real, most)
  {
    if k == 0 {
      ZeroParts(most, most);
      ProductCommutes(0.0, most);
    } else {
      SumAtMost(xs, most, k - 1);
      SumExtended(xs, k - 1);
      ProductSumLeft((k - 1) as real, 1.0, most);
    }
  }

  lemma ProductCommutes(a: real, b: real)
    ensures Product(a, b) == Product(b, a)
  {
  }

  /** With up to 2^32 slices the rounding errors together are smaller than the share of the last slice. */
  lemma ErrorsAreSmall(s: real, x: real, n: real, k: real)
    requires 1.0 <= n <= 4294967296.0 && 0.0 <= k <= n && x > 0.0 && 0.0 <= s && s + x == 1.0
             && Product(x, 48.0 * n) >= 1.0
    ensures s + Product(Product(n, s), ULP) + Product(k, ULP) <= 1.0
  {
    assert n * s <= n by { assert n * x >= 0.0; assert n * s == n - n * x; }
    assert Product(n, s) == n * s;
    var error := n * ULP;
    assert n * s * ULP <= error && k * ULP <= error;
    assert n * n <= 18446744073709551616.0 by { Squares(n); }
    assert (2.0 * error - x) * (48.0 * n) == 96.0 * (n * n) * ULP - x * (48.0 * n);
    if 2.0 * error > x { PositiveProduct(2.0 * error - x, 48.0 * n); }
  }

  lemma Squares(n: real)
    requires 0.0 <= n <= 4294967296.0
    ensures n * n <= 18446744073709551616.0
  {
    assert n * n <= n * 4294967296.0;
  }

  lemma SharesSplit(weights: seq<real>, shares: seq<real>)
    requires Positive(weights) && weights != [] && SumReal(weights) > 0.0 && shares == Normalized(weights)
    ensures SumReal(shares[..|shares| - 1]) + shares[|shares| - 1] == 1.0 && SumReal(shares[..|shares| - 1]) >= 0.0
  {
    var n, whole := |weights|, SumReal(weights);
    SharesScaled(weights, shares, whole, n);
    assert shares[..n] == shares && weights[..n] == weights;
    SumExtended(shares, n - 1);
    forall i | 0 <= i < n ensures shares[i] >= 0.0 { SharePositive(weights[i], whole); }
    PrefixNotNegative(shares, n - 1);
    OneOnly(SumReal(shares), whole);
  }

  lemma SharePositive(w: real, whole: real)
    requires w > 0.0 && whole > 0.0
    ensures Share(w, whole) > 0.0
  {
  }

  lemma OneOnly(s: real, whole: real)
    requires whole > 0.0 && Product(s, whole) == whole
    ensures s == 1.0
  {
    assert (s - 1.0) * whole == 0.0 && (1.0 - s) * whole == 0.0;
    if s > 1.0 { PositiveProduct(s - 1.0, whole); }
    if s < 1.0 { PositiveProduct(1.0 - s, whole); }
  }

  /** All slices but the last are asked for no more than the quantity. */
  lemma PartsWithin(parts: seq<real>, quantity: u64, weights: seq<real>)
    requires Comparable(weights) && weights != [] && |weights| < TWO32 && Near(parts, quantity, weights)
    ensures SumReal(parts[..|parts| - 1]) <= quantity as real
  {
    hide Product, Share, Close;
    var q, n, k := quantity as real, |weights| as real, (|weights| - 1) as real;
    SumPositive(weights);
    var shares := Normalized(weights);
    var s, x := SumReal(shares[..|shares| - 1]), shares[|shares| - 1];
    SharesSplit(weights, shares);
    ShareAtLeast(weights, |weights| - 1);
    SharePositive(weights[|weights| - 1], SumReal(weights));
    PartsBelow(parts, shares, q, n, |parts| - 1);
    ErrorsAreSmall(s, x, n, k);
    Rescaled(q, s, n, k);
  }

  lemma Rescaled(q: real, s: real, n: real, k: real)
    requires q >= 0.0 && s + Product(Product(n, s), ULP) + Product(k, ULP) <= 1.0
    ensures Product(q, s) + Product(Product(n, Product(q, s)), ULP) + Product(k, Product(q, ULP)) <= q
  {
    var t := s + Product(Product(n, s), ULP) + Product(k, ULP);
    assert Product(q, s) + Product(Product(n, Product(q, s)), ULP) + Product(k, Product(q, ULP)) == q * t;
    assert q * (1.0 - t) >= 0.0;
  }

  /** So a part fits 64 bits and is only rounded. */
  lemma PartWithin(parts: seq<real>, quantity: u64, weights: seq<real>, i: nat)
    requires Comparable(weights) && i < |weights| - 1 && |weights| < TWO32 && Near(parts, quantity, weights)
    ensures ToU64(parts[i]) as real <= parts[i] < ToU64(parts[i]) as real + 1.0
  {
    PartsWithin(parts, quantity, weights);
    hide Product, Share;
    SumNotNegative(parts, i, |parts| - 1);
  }

  lemma VwapChildIs(c: Child, quantity: u64, w: real, whole: real, slices: u32, i: nat, part: real)
    requires IsMarketSlice(c, i) && whole > 0.0
    requires c.quantity as real <= part < c.quantity as real + 1.0
    requires Close(part, Product(quantity as real, Share(w, whole)), quantity as real, slices as real)
    ensures IsVwapChild(c, quantity, w, whole, slices, i)
  {
    hide Product, Share;
  }

  /** Three units in three equal slices, with shares a last digit below one: the first two slices get nothing. */
  lemma ThreeThirds(part: real)
    requires part == 0.9999999999999999999999999999
    ensures Near([part, part, part], 3, [1.0, 1.0, 1.0]) && ToU64(part) == 0
  {
    var ws := [1.0, 1.0, 1.0];
    assert ws[..2] == [1.0, 1.0] && [1.0, 1.0][..1] == [1.0] && [1.0][..0] == [];
    assert SumReal(ws) == 3.0;
    assert Product(3.0, Share(1.0, 3.0)) == 1.0;
  }
}
