/** Doubly linked lists threaded through an array by slot number, as the order queues and
    the level lists of order_book.cpp are. `xs` is the list of slots from head to tail. */
module LinkedLists {
  import opened Types

  const INVALID: u32 := 0xFFFF_FFFF

  datatype Link = Link(next: u32, prev: u32)

  function At(xs: seq<u32>, j: int): u32 {
    if 0 <= j < |xs| then xs[j] else INVALID
  }

  function First(xs: seq<u32>): u32 {
    At(xs, 0)
  }

  function Last(xs: seq<u32>): u32 {
    At(xs, |xs| - 1)
  }

  ghost predicate Distinct(xs: seq<u32>) {
    forall i, j :: 0 <= i < j < |xs| ==> xs[i] != xs[j]
  }

  ghost predicate Apart(xs: seq<u32>, ys: seq<u32>) {
    forall i, j :: 0 <= i < |xs| && 0 <= j < |ys| ==> xs[i] != ys[j]
  }

  lemma ApartAt(xs: seq<u32>, ys: seq<u32>, i: nat)
    requires Apart(xs, ys) && i < |xs|
    ensures xs[i] !in ys
  {
  }

  lemma ApartInserted(xs: seq<u32>, ys: seq<u32>, i: nat, s: u32)
    requires Apart(xs, ys) && i <= |xs| && s !in ys
    ensures Apart(Inserted(xs, i, s), ys)
  {
    InsertedIndex(xs, i, s);
  }

  lemma ApartWithout(xs: seq<u32>, ys: seq<u32>, i: nat)
    requires Apart(xs, ys) && i < |xs|
    ensures Apart(Without(xs, i), ys)
  {
  }

  predicate Node(ln: seq<Link>, xs: seq<u32>, j: nat)
    requires j < |xs|
  {
    xs[j] as int < |ln| && ln[xs[j]] == Link(At(xs, j + 1), At(xs, j - 1))
  }

  ghost predicate Chain(ln: seq<Link>, xs: seq<u32>) {
    |ln| < INVALID && forall j :: 0 <= j < |xs| ==> Node(ln, xs, j)
  }

  // Writing through INVALID writes nothing: the source guards each write with that test.

  function SetNext(ln: seq<Link>, s: u32, v: u32): (r: seq<Link>) {
    if s as int < |ln| then ln[s := ln[s].(next := v)] else ln
  }

  function SetPrev(ln: seq<Link>, s: u32, v: u32): (r: seq<Link>) {
    if s as int < |ln| then ln[s := ln[s].(prev := v)] else ln
  }

  function Unlink(ln: seq<Link>, s: u32): seq<Link>
    requires s as int < |ln|
  {
    SetPrev(SetNext(ln, ln[s].prev, ln[s].next), ln[s].next, ln[s].prev)
  }

  /** Slot s is linked in between prev and next. */
  function LinkIn(ln: seq<Link>, s: u32, prev: u32, next: u32): seq<Link>
    requires s as int < |ln|
  {
    SetPrev(SetNext(ln[s := Link(next, prev)], prev, s), next, s)
  }

  lemma UnlinkChain(ln: seq<Link>, xs: seq<u32>, j: nat)
    requires Chain(ln, xs) && Distinct(xs) && j < |xs|
    ensures Node(ln, xs, j) && Chain(Unlink(ln, xs[j]), Without(xs, j)) && Distinct(Without(xs, j))
  {
    assert Node(ln, xs, j);
    var ys := Without(xs, j);
    var ln' := Unlink(ln, xs[j]);
    forall k | 0 <= k < |ys| ensures Node(ln', ys, k) {
      var k0 := if k < j then k else k + 1;
      assert ys[k] == xs[k0];
      assert Node(ln, xs, k0);
    }
  }

  lemma UnlinkApart(ln: seq<Link>, xs: seq<u32>, j: nat, ys: seq<u32>)
    requires Chain(ln, xs) && Chain(ln, ys) && Apart(xs, ys) && j < |xs|
    ensures Node(ln, xs, j) && Chain(Unlink(ln, xs[j]), ys)
  {
    assert Node(ln, xs, j);
    forall k | 0 <= k < |ys| ensures Node(Unlink(ln, xs[j]), ys, k) {
      assert Node(ln, ys, k);
    }
  }

  lemma LinkDistinct(xs: seq<u32>, i: nat, s: u32)
    requires Distinct(xs) && i <= |xs| && s !in xs
    ensures Distinct(Inserted(xs, i, s))
  {
    InsertedIndex(xs, i, s);
  }

  lemma LinkNode(ln: seq<Link>, xs: seq<u32>, i: nat, s: u32, k: nat)
    requires Chain(ln, xs) && Distinct(xs) && i <= |xs| && k <= |xs|
    requires s as int < |ln| && s !in xs
    ensures Node(LinkIn(ln, s, At(xs, i - 1), At(xs, i)), Inserted(xs, i, s), k)
  {
    InsertedIndex(xs, i, s);
    if i > 0 { assert Node(ln, xs, i - 1); }
    if i < |xs| { assert Node(ln, xs, i); }
    if k < i {
      assert Node(ln, xs, k);
    } else if k > i {
      assert Node(ln, xs, k - 1);
    }
  }

  lemma LinkChain(ln: seq<Link>, xs: seq<u32>, i: nat, s: u32)
    requires Chain(ln, xs) && Distinct(xs) && i <= |xs|
    requires s as int < |ln| && s !in xs
    ensures Chain(LinkIn(ln, s, At(xs, i - 1), At(xs, i)), Inserted(xs, i, s)) && Distinct(Inserted(xs, i, s))
  {
    LinkDistinct(xs, i, s);
    var ln' := LinkIn(ln, s, At(xs, i - 1), At(xs, i));
    var ys := Inserted(xs, i, s);
    forall k | 0 <= k < |ys| ensures Node(ln', ys, k) {
      LinkNode(ln, xs, i, s, k);
    }
  }

  lemma LinkApart(ln: seq<Link>, xs: seq<u32>, i: nat, s: u32, ys: seq<u32>)
    requires Chain(ln, xs) && Chain(ln, ys) && Apart(xs, ys) && i <= |xs|
    requires s as int < |ln| && s !in ys
    ensures Chain(LinkIn(ln, s, At(xs, i - 1), At(xs, i)), ys)
  {
    var ln' := LinkIn(ln, s, At(xs, i - 1), At(xs, i));
    forall k | 0 <= k < |ys| ensures Node(ln', ys, k) {
      assert Node(ln, ys, k);
    }
  }
}
