/** Machine types shared by every module: fixed-width unsigned integers, bytes and
    the 16-byte identifiers of engine/include/uuid.hpp. */
module Types {
  const TWO32: int := 0x1_0000_0000
  const TWO64: int := 0x1_0000_0000_0000_0000

  type u32 = x: int | 0 <= x < TWO32
  type u64 = x: int | 0 <= x < TWO64
  type Byte = x: int | 0 <= x < 256

  /** A 16-byte identifier; `operator==` of the source compares all 16 bytes. */
  type Uuid = s: seq<Byte> | |s| == 16 witness [0, 0, 0, 0, 0, 0, 0, 0, 0, 0, 0, 0, 0, 0, 0, 0]

  datatype Option<+T> = None | Some(value: T)

  datatype Side = Buy | Sell {
    function Opposite(): Side {
      if Buy? then Sell else Buy
    }
  }

  function Min(a: int, b: int): int {
    if a < b then a else b
  }

  function Max(a: int, b: int): int {
    if a < b then b else a
  }

  /** The cast of a 64-bit unsigned number to a signed one. */
  function AsI64(x: u64): int {
    if x < 0x8000_0000_0000_0000 then x else x - TWO64
  }

  lemma AsI64Is(x: u64)
    ensures -0x8000_0000_0000_0000 <= AsI64(x) < 0x8000_0000_0000_0000 && (AsI64(x) - x) % 0x1_0000_0000_0000_0000 == 0
  {
  }

  function Without<T>(s: seq<T>, i: nat): seq<T>
    requires i < |s|
  {
    s[..i] + s[i + 1..]
  }

  function Inserted<T>(s: seq<T>, i: nat, x: T): seq<T>
    requires i <= |s|
  {
    s[..i] + [x] + s[i..]
  }

  lemma Regrouped<T>(a: seq<T>, b: seq<T>, c: seq<T>)
    ensures (a + b) + c == a + (b + c)
  {
  }

  lemma InsertedIndex<T>(xs: seq<T>, i: nat, x: T)
    requires i <= |xs|
    ensures forall k :: 0 <= k < i ==> Inserted(xs, i, x)[k] == xs[k]
    ensures Inserted(xs, i, x)[i] == x
    ensures forall k :: i < k <= |xs| ==> Inserted(xs, i, x)[k] == xs[k - 1]
  {
  }
}
