/** The order and cancel messages between the Rust API and the C++ engine: the encoder of
    api/crates/messaging/src/lib.rs and the byte offsets that Engine::dispatch reads. */
module Wire {
  import opened Types
  import opened LittleEndian

  const OP_ADD: Byte := 1
  const OP_CANCEL: Byte := 2
  const ADD_SIZE: nat := 71
  const CANCEL_SIZE: nat := 41

  datatype OrderMsg = OrderMsg(orderId: Uuid, marketId: Uuid, userId: Uuid, side: Side, isMarket: bool,
                               price: u32, quantity: u64, sequence: u64)

  datatype CancelMsg = CancelMsg(orderId: Uuid, marketId: Uuid, sequence: u64)

  /** What dispatch makes of a message. */
  datatype Request = Add(order: OrderMsg) | Cancel(cancel: CancelMsg) | Ignored

  function SideByte(sd: Side): Byte {
    if sd.Buy? then 0 else 1
  }

  function FlagByte(b: bool): Byte {
    if b then 1 else 0
  }

  // ----- encoding

  function OrderBytes(m: OrderMsg): Bytes {
    [OP_ADD] + m.orderId + m.marketId + m.userId + [SideByte(m.side)] + [FlagByte(m.isMarket)]
    + U32Bytes(m.price) + U64Bytes(m.quantity) + U64Bytes(m.sequence)
  }

  function CancelBytes(m: CancelMsg): Bytes {
    [OP_CANCEL] + m.orderId + m.marketId + U64Bytes(m.sequence)
  }

  method EncodeOrder(m: OrderMsg) returns (buf: Bytes)
    ensures |buf| == ADD_SIZE && buf[0] == OP_ADD && Decode(buf) == Add(m)
    ensures buf == OrderBytes(m)
  {
    buf := [OP_ADD];
    buf := buf + m.orderId;
    buf := buf + m.marketId;
    buf := buf + m.userId;
    buf := buf + [SideByte(m.side)];
    buf := buf + [FlagByte(m.isMarket)];
    buf := buf + U32Bytes(m.price);
    buf := buf + U64Bytes(m.quantity);
    buf := buf + U64Bytes(m.sequence);
    OrderRoundTrip(m);
  }

  method EncodeCancel(m: CancelMsg) returns (buf: Bytes)
    ensures |buf| == CANCEL_SIZE && buf[0] == OP_CANCEL && Decode(buf) == Cancel(m)
    ensures buf == CancelBytes(m)
  {
    buf := [OP_CANCEL];
    buf := buf + m.orderId;
    buf := buf + m.marketId;
    buf := buf + U64Bytes(m.sequence);
    CancelRoundTrip(m);
  }

  // ----- decoding, offset by offset

  function ReadUuid(b: Bytes, i: nat): Uuid
    requires i + 16 <= |b|
  {
    b[i..i + 16]
  }

  function DecodeOrder(b: Bytes): OrderMsg
    requires |b| >= ADD_SIZE
  {
    OrderMsg(ReadUuid(b, 1), ReadUuid(b, 17), ReadUuid(b, 33), if b[49] == 0 then Buy else Sell, b[50] != 0,
             ReadU32(b, 51), ReadU64(b, 55), ReadU64(b, 63))
  }

  function DecodeCancel(b: Bytes): CancelMsg
    requires |b| >= CANCEL_SIZE
  {
    CancelMsg(ReadUuid(b, 1), ReadUuid(b, 17), ReadU64(b, 33))
  }

  function Decode(b: Bytes): Request {
    if |b| < 1 then Ignored
    else if b[0] == OP_ADD && |b| >= ADD_SIZE then Add(DecodeOrder(b))
    else if b[0] == OP_CANCEL && |b| >= CANCEL_SIZE then Cancel(DecodeCancel(b))
    else Ignored
  }

  // ----- the two agree

  lemma OrderFields(m: OrderMsg)
    ensures var b := OrderBytes(m);
            && |b| == ADD_SIZE && b[0] == OP_ADD && b[49] == SideByte(m.side) && b[50] == FlagByte(m.isMarket)
            && b[1..17] == m.orderId && b[17..33] == m.marketId && b[33..49] == m.userId
            && b[51..55] == U32Bytes(m.price) && b[55..63] == U64Bytes(m.quantity) && b[63..71] == U64Bytes(m.sequence)
  {
    hide U32Bytes, U64Bytes;
    var p, q, s := U32Bytes(m.price), U64Bytes(m.quantity), U64Bytes(m.sequence);
    var b := [OP_ADD] + m.orderId + m.marketId + m.userId + [SideByte(m.side)] + [FlagByte(m.isMarket)] + p + q + s;
    assert b[1..17] == m.orderId && b[17..33] == m.marketId && b[33..49] == m.userId;
    assert b[51..55] == p && b[55..63] == q && b[63..71] == s;
  }

  /** Where each field of an order stands in its message. */
  lemma OrderLayout(m: OrderMsg)
    ensures var b := OrderBytes(m);
            && |b| == 71 && b[0] == 1
            && b[1..17] == m.orderId && b[17..33] == m.marketId && b[33..49] == m.userId
            && b[49] == (if m.side == Buy then 0 else 1) && b[50] == (if m.isMarket then 1 else 0)
            && ReadU32(b, 51) == m.price && ReadU64(b, 55) == m.quantity && ReadU64(b, 63) == m.sequence
  {
    OrderFields(m);
    hide U32Bytes, U64Bytes, OrderBytes, ReadU32, ReadU64;
    ReadBack(OrderBytes(m), m);
  }

  lemma CancelLayout(m: CancelMsg)
    ensures var b := CancelBytes(m);
            && |b| == 41 && b[0] == 2 && b[1..17] == m.orderId && b[17..33] == m.marketId
            && ReadU64(b, 33) == m.sequence
  {
    hide U64Bytes;
    var s := U64Bytes(m.sequence);
    var b := [OP_CANCEL] + m.orderId + m.marketId + s;
    assert b[1..17] == m.orderId && b[17..33] == m.marketId && b[33..41] == s;
    assert ReadU64(b, 33) == m.sequence;
  }

  /** What dispatch reads from any message: 1 and 71 bytes are an order, 2 and 41 bytes a cancel, all else is ignored.
      */
  lemma DecodeExactly(b: Bytes)
    ensures Decode(b).Add? <==> |b| >= 71 && b[0] == 1
    ensures Decode(b).Cancel? <==> |b| >= 41 && b[0] == 2
    ensures Decode(b).Add? ==>
              var m := Decode(b).order;
              && m.orderId == b[1..17] && m.marketId == b[17..33] && m.userId == b[33..49]
              && (m.side == Buy <==> b[49] == 0) && (m.isMarket <==> b[50] != 0)
              && m.price == ReadU32(b, 51) && m.quantity == ReadU64(b, 55) && m.sequence == ReadU64(b, 63)
    ensures Decode(b).Cancel? ==>
              var m := Decode(b).cancel;
              m.orderId == b[1..17] && m.marketId == b[17..33] && m.sequence == ReadU64(b, 33)
  {
    hide ReadU32, ReadU64;
  }

  /** Decoding an encoded order gives back every field. */
  lemma OrderRoundTrip(m: OrderMsg)
    ensures |OrderBytes(m)| == ADD_SIZE && OrderBytes(m)[0] == OP_ADD && Decode(OrderBytes(m)) == Add(m)
  {
    OrderFields(m);
    hide U32Bytes, U64Bytes, OrderBytes, ReadU32, ReadU64;
    var b := OrderBytes(m);
    ReadBack(b, m);
  }

  lemma ReadBack(b: Bytes, m: OrderMsg)
    requires |b| >= ADD_SIZE
    requires b[51..55] == U32Bytes(m.price) && b[55..63] == U64Bytes(m.quantity) && b[63..71] == U64Bytes(m.sequence)
    ensures ReadU32(b, 51) == m.price && ReadU64(b, 55) == m.quantity && ReadU64(b, 63) == m.sequence
  {
  }

  lemma CancelRoundTrip(m: CancelMsg)
    ensures |CancelBytes(m)| == CANCEL_SIZE && CancelBytes(m)[0] == OP_CANCEL && Decode(CancelBytes(m)) == Cancel(m)
  {
    hide U64Bytes;
    var s := U64Bytes(m.sequence);
    var b := [OP_CANCEL] + m.orderId + m.marketId + s;
    assert b[1..17] == m.orderId && b[17..33] == m.marketId && b[33..41] == s;
    assert ReadU64(b, 33) == m.sequence;
  }

  /** A message is an encoded order exactly if it is 71 bytes long and its side and kind bytes are 0 or 1; a
      longer message, or another non-zero byte, is read like one but is none. */
  lemma OrderImage(b: Bytes, m: OrderMsg)
    ensures b == OrderBytes(m) <==> Decode(b) == Add(m) && |b| == ADD_SIZE && b[49] <= 1 && b[50] <= 1
  {
    OrderRoundTrip(m);
    OrderFields(m);
    if Decode(b) == Add(m) && |b| == ADD_SIZE && b[49] <= 1 && b[50] <= 1 {
      OrderPieces(b, m);
    }
  }

  lemma OrderPieces(b: Bytes, m: OrderMsg)
    requires Decode(b) == Add(m) && |b| == ADD_SIZE && b[49] <= 1 && b[50] <= 1
    ensures b == OrderBytes(m)
  {
    var p, q, s := U32Bytes(m.price), U64Bytes(m.quantity), U64Bytes(m.sequence);
    assert p == b[51..55] && q == b[55..63] && s == b[63..71];
    assert b[49] == SideByte(m.side) && b[50] == FlagByte(m.isMarket);
    hide U32Bytes, U64Bytes, ReadU32, ReadU64;
    assert b == [OP_ADD] + b[1..17] + b[17..33] + b[33..49] + [b[49]] + [b[50]] + b[51..55] + b[55..63] + b[63..71];
  }

  lemma CancelImage(b: Bytes, m: CancelMsg)
    ensures b == CancelBytes(m) <==> Decode(b) == Cancel(m) && |b| == CANCEL_SIZE
  {
    CancelRoundTrip(m);
    if Decode(b) == Cancel(m) && |b| == CANCEL_SIZE {
      assert U64Bytes(m.sequence) == b[33..41];
      hide U64Bytes, ReadU64;
      assert b == [OP_CANCEL] + b[1..17] + b[17..33] + b[33..41];
    }
  }

  /** Only the first 71 or 41 bytes of a message matter. */
  lemma TailIgnored(b: Bytes, tail: Bytes)
    requires !Decode(b).Ignored?
    ensures Decode(b + tail) == Decode(b)
  {
    if b[0] == OP_ADD {
      SameRead32(b, tail, 51);
      SameRead64(b, tail, 55);
      SameRead64(b, tail, 63);
      hide ReadU32, ReadU64;
      assert (b + tail)[1..17] == b[1..17] && (b + tail)[17..33] == b[17..33] && (b + tail)[33..49] == b[33..49];
    } else {
      SameRead64(b, tail, 33);
      hide ReadU32, ReadU64;
      assert (b + tail)[1..17] == b[1..17] && (b + tail)[17..33] == b[17..33];
    }
  }

  lemma SameRead32(b: Bytes, tail: Bytes, i: nat)
    requires i + 4 <= |b|
    ensures ReadU32(b + tail, i) == ReadU32(b, i)
  {
    assert (b + tail)[i..i + 4] == b[i..i + 4];
  }

  lemma SameRead64(b: Bytes, tail: Bytes, i: nat)
    requires i + 8 <= |b|
    ensures ReadU64(b + tail, i) == ReadU64(b, i)
  {
    assert (b + tail)[i..i + 8] == b[i..i + 8];
  }
}
