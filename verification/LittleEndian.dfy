/** Fixed-width unsigned integers as bytes, least significant byte first. */
module LittleEndian {
  import opened Types

  type Bytes = seq<Byte>

  /** v, which must fit, in n bytes. */
  function ToBytes(v: nat, n: nat): (r: Bytes)
    ensures |r| == n
  {
    if n == 0 then [] else [v % 256] + ToBytes(v / 256, n - 1)
  }

  function FromBytes(b: Bytes): nat {
    if b == [] then 0 else b[0] + 256 * FromBytes(b[1..])
  }

  function Range(n: nat): (r: nat)
    ensures r > 0
  {
    if n == 0 then 1 else 256 * Range(n - 1)
  }

  lemma {:induction false} FromTo(v: nat, n: nat)
    requires v < Range(n)
    ensures FromBytes(ToBytes(v, n)) == v
  {
    if n > 0 {
      assert v / 256 < Range(n - 1);
      FromTo(v / 256, n - 1);
      assert ToBytes(v, n)[1..] == ToBytes(v / 256, n - 1);
    }
  }

  lemma {:induction false} ToFrom(b: Bytes)
    ensures FromBytes(b) < Range(|b|)
    ensures ToBytes(FromBytes(b), |b|) == b
  {
    if b != [] {
      ToFrom(b[1..]);
      assert FromBytes(b) / 256 == FromBytes(b[1..]) && FromBytes(b) % 256 == b[0];
    }
  }

  lemma Range48()
    ensures Range(4) == TWO32 && Range(8) == TWO64
  {
    assert Range(2) == 65536;
    assert Range(4) == 256 * (256 * Range(2));
    assert Range(6) == 256 * (256 * Range(4));
    assert Range(8) == 256 * (256 * Range(6));
  }

  function U32Bytes(v: u32): (r: Bytes)
    ensures |r| == 4 && FromBytes(r) == v
  {
    Range48();
    FromTo(v, 4);
    ToBytes(v, 4)
  }

  function U64Bytes(v: u64): (r: Bytes)
    ensures |r| == 8 && FromBytes(r) == v
  {
    Range48();
    FromTo(v, 8);
    ToBytes(v, 8)
  }

  /** The four bytes from offset i on. */
  function ReadU32(b: Bytes, i: nat): (v: u32)
    requires i + 4 <= |b|
    ensures U32Bytes(v) == b[i..i + 4]
  {
    Range48();
    ToFrom(b[i..i + 4]);
    FromBytes(b[i..i + 4])
  }

  function ReadU64(b: Bytes, i: nat): (v: u64)
    requires i + 8 <= |b|
    ensures U64Bytes(v) == b[i..i + 8]
  {
    Range48();
    ToFrom(b[i..i + 8]);
    FromBytes(b[i..i + 8])
  }

  /** Least significant byte first. */
  lemma Reads32(b: Bytes, i: nat)
    requires i + 4 <= |b|
    ensures ReadU32(b, i) as int
            == b[i] as int + 0x100 * b[i + 1] as int + 0x1_0000 * b[i + 2] as int + 0x100_0000 * b[i + 3] as int
  {
    FromFour(b[i..i + 4]);
    assert b[i..i + 4][4..] == [];
    hide FromBytes;
  }

  /** The first four bytes, and what comes behind them. */
  lemma FromFour(b: Bytes)
    requires |b| >= 4
    ensures FromBytes(b) == b[0] as int + 0x100 * b[1] as int + 0x1_0000 * b[2] as int + 0x100_0000 * b[3] as int
                            + 0x1_0000_0000 * FromBytes(b[4..])
    ensures FromBytes([]) == 0
  {
    var b1, b2, b3, b4 := b[1..], b[2..], b[3..], b[4..];
    assert b1[1..] == b2 && b2[1..] == b3 && b3[1..] == b4;
    assert FromBytes(b3) == b3[0] as int + 256 * FromBytes(b4);
    assert FromBytes(b2) == b2[0] as int + 256 * FromBytes(b3);
    assert FromBytes(b1) == b1[0] as int + 256 * FromBytes(b2);
    assert FromBytes(b) == b[0] as int + 256 * FromBytes(b1);
    hide FromBytes;
  }

  /** Eight bytes are two numbers of four, the lower one first. */
  lemma Reads64(b: Bytes, i: nat)
    requires i + 8 <= |b|
    ensures ReadU64(b, i) as int == ReadU32(b, i) as int + 0x1_0000_0000 * ReadU32(b, i + 4) as int
  {
    var c := b[i..i + 8];
    assert c[4..] == b[i + 4..i + 8] && b[i..i + 4][4..] == [];
    FromFour(c);
    FromFour(b[i..i + 4]);
    hide FromBytes;
  }
}
