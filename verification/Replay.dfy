/** The engine as a pure state machine over messages, its log, and what replaying the log gives.
    (The engine's own recovery only counts the records; the fold over them is defined here.) */
module Replay {
  import opened Types
  import opened LittleEndian
  import opened BookSpec
  import Wire
  import opened WriteAheadLog

  const MAX_MARKETS: nat := 256

  /** The books by market, every fill so far, and whether the process has died. */
  datatype Shop = Shop(books: map<Uuid, Book>, fills: seq<Trade>, halted: bool)

  /** What a message has appended to the log: the operation code and the payload. */
  datatype Entry = Entry(op: Byte, payload: Payload)

  const EmptyShop: Shop := Shop(map[], [], false)

  function BookOf(s: Shop, market: Uuid): Book {
    if market in s.books then s.books[market] else EmptyBook
  }

  function Execute(h: Hash, b: Book, m: Wire.OrderMsg): Outcome {
    if m.isMarket then AddMarket(h, m.marketId, b, m.orderId, m.userId, m.side, m.quantity, m.sequence)
    else AddLimit(h, m.marketId, b, m.orderId, m.userId, m.side, m.price, m.quantity, m.sequence)
  }

  /** An order for a 257th market finds the book table full; the engine then dereferences a null pointer. */
  function Placed(h: Hash, s: Shop, m: Wire.OrderMsg): Shop {
    if m.marketId !in s.books && |s.books| >= MAX_MARKETS then s.(halted := true)
    else
      var out := Execute(h, BookOf(s, m.marketId), m);
      s.(books := s.books[m.marketId := out.book], fills := s.fills + out.trades)
  }

  function Withdrawn(h: Hash, s: Shop, c: Wire.CancelMsg): Shop
    requires c.marketId in s.books
  {
    s.(books := s.books[c.marketId := Cancel(h, s.books[c.marketId], c.orderId)])
  }

  /** The length is passed to the log as a 32-bit number. */
  function Kept(data: Bytes): Payload {
    data[..|data| % TWO32]
  }

  function Dispatch(h: Hash, s: Shop, data: Bytes): Shop {
    if s.halted then s
    else
      match Wire.Decode(data)
      case Add(m) => Placed(h, s, m)
      case Cancel(c) => if c.marketId in s.books then Withdrawn(h, s, c) else s
      case Ignored => s
  }

  /** At most one entry. */
  function Logged(s: Shop, data: Bytes): seq<Entry> {
    if s.halted then []
    else
      match Wire.Decode(data)
      case Add(_) => [Entry(1, Kept(data))]
      case Cancel(c) => if c.marketId in s.books then [Entry(2, Kept(data))] else []
      case Ignored => []
  }

  function Serve(h: Hash, messages: seq<Bytes>): Shop {
    if messages == [] then EmptyShop
    else Dispatch(h, Serve(h, messages[..|messages| - 1]), messages[|messages| - 1])
  }

  function LogOf(h: Hash, messages: seq<Bytes>): seq<Entry> {
    if messages == [] then []
    else
      var rest := messages[..|messages| - 1];
      LogOf(h, rest) + Logged(Serve(h, rest), messages[|messages| - 1])
  }

  function Payloads(log: seq<Entry>): (ps: seq<Bytes>)
    ensures |ps| == |log| && forall i :: 0 <= i < |log| ==> ps[i] == log[i].payload
  {
    seq(|log|, i requires 0 <= i < |log| => log[i].payload)
  }

  // ----- one message

  predicate LongEnough(op: Wire.Request, n: nat) {
    match op
    case Add(_) => n >= Wire.ADD_SIZE
    case Cancel(_) => n >= Wire.CANCEL_SIZE
    case Ignored => true
  }

  /** The log keeps what the message says. Every message shorter than 2^32 bytes is like this. */
  predicate Faithful(data: Bytes) {
    LongEnough(Wire.Decode(data), |data| % TWO32)
  }

  ghost predicate AllFaithful(messages: seq<Bytes>) {
    forall i :: 0 <= i < |messages| ==> Faithful(messages[i])
  }

  /** Exactly then does the logged payload decode to what the message did. */
  lemma KeptDecodes(data: Bytes)
    requires !Wire.Decode(data).Ignored?
    ensures Faithful(data) <==> Wire.Decode(Kept(data)) == Wire.Decode(data)
    ensures Wire.Decode(Kept(data)) == Wire.Decode(data) || Wire.Decode(Kept(data)).Ignored?
    ensures Kept(data) <= data && |Kept(data)| == |data| % 0x1_0000_0000
  {
    var p := Kept(data);
    assert data == p + data[|p|..];
    if !Wire.Decode(p).Ignored? {
      Wire.TailIgnored(p, data[|p|..]);
    }
  }

  lemma ShortIsFaithful(data: Bytes)
    requires |data| < TWO32
    ensures Faithful(data) && Kept(data) == data
  {
  }

  /** A message that leaves no entry changes nothing. */
  lemma UnloggedIsIdle(h: Hash, s: Shop, data: Bytes)
    requires Logged(s, data) == []
    ensures Dispatch(h, s, data) == s
  {
  }

  /** An entry replayed where its message arrived does, and logs, the same. */
  lemma EntryRepeats(h: Hash, s: Shop, data: Bytes)
    requires Logged(s, data) != [] && Faithful(data)
    ensures |Logged(s, data)| == 1
    ensures var p := Logged(s, data)[0].payload;
            Dispatch(h, s, p) == Dispatch(h, s, data) && Logged(s, p) == Logged(s, data)
  {
    KeptDecodes(data);
    var p := Kept(data);
    assert |p| < TWO32;
    assert Kept(p) == p by { ShortIsFaithful(p); }
    hide Wire.Decode;
  }

  // ----- replay

  /** Replaying the payloads of the log from an empty engine gives the same books and the same fills as the
      messages did, and writes the same log again. */
  lemma {:induction false} ReplayIsFaithful(h: Hash, messages: seq<Bytes>)
    requires AllFaithful(messages)
    ensures var payloads := Payloads(LogOf(h, messages));
            Serve(h, payloads) == Serve(h, messages) && LogOf(h, payloads) == LogOf(h, messages)
  {
    if messages != [] {
      var rest, last := messages[..|messages| - 1], messages[|messages| - 1];
      ReplayIsFaithful(h, rest);
      var s, log := Serve(h, rest), LogOf(h, messages);
      hide Dispatch, Logged, Faithful;
      if Logged(s, last) == [] {
        UnloggedIsIdle(h, s, last);
        assert log == LogOf(h, rest);
      } else {
        EntryRepeats(h, s, last);
        var entry := Logged(s, last)[0];
        assert log == LogOf(h, rest) + [entry];
        var payloads := Payloads(log);
        assert payloads[..|payloads| - 1] == Payloads(LogOf(h, rest)) && payloads[|payloads| - 1] == entry.payload;
      }
    }
  }

  /** A single order on an empty engine is replayed exactly if its length modulo 2^32 covers the 71 bytes. */
  lemma LoneOrder(h: Hash, data: Bytes)
    requires Wire.Decode(data).Add?
    ensures Serve(h, Payloads(LogOf(h, [data]))) == Serve(h, [data]) <==> |data| % TWO32 >= Wire.ADD_SIZE
  {
    var p := Kept(data);
    assert [data][..0] == [] && [p][..0] == [];
    assert Serve(h, []) == EmptyShop && LogOf(h, []) == [];
    assert LogOf(h, [data]) == [Entry(1, p)];
    assert Payloads([Entry(1, p)]) == [p];
    KeptDecodes(data);
    var m := Wire.Decode(data).order;
    hide Wire.Decode, Execute;
    assert Serve(h, [data]) == Placed(h, EmptyShop, m);
    assert m.marketId in Serve(h, [data]).books;
    if Wire.Decode(p).Ignored? {
      assert Serve(h, [p]) == EmptyShop;
    } else {
      assert Serve(h, [p]) == Placed(h, EmptyShop, m);
    }
  }

  // ----- replay after a crash

  /** Every prefix of the log is the log of a prefix of the messages. */
  lemma {:induction false} LogPrefix(h: Hash, messages: seq<Bytes>, k: nat) returns (j: nat)
    requires k <= |LogOf(h, messages)|
    ensures j <= |messages| && LogOf(h, messages[..j]) == LogOf(h, messages)[..k]
  {
    var log := LogOf(h, messages);
    if k == |log| {
      j := |messages|;
      assert messages[..j] == messages && log[..k] == log;
    } else {
      var rest := messages[..|messages| - 1];
      hide Logged;
      AtMostOne(Serve(h, rest), messages[|messages| - 1]);
      j := LogPrefix(h, rest, k);
      assert messages[..j] == rest[..j];
      assert log[..k] == LogOf(h, rest)[..k];
    }
  }

  lemma AtMostOne(s: Shop, data: Bytes)
    ensures |Logged(s, data)| <= 1
  {
  }

  /** The records of a log file, numbered from 1. */
  function Records(log: seq<Entry>): (rs: seq<Record>)
    requires |log| < TWO64 - 1
    ensures |rs| == |log| && forall i :: 0 <= i < |log| ==> rs[i] == Record(i + 1, log[i].op, log[i].payload)
  {
    seq(|log|, i requires 0 <= i < |log| => Record(i + 1, log[i].op, log[i].payload))
  }

  function EntriesOf(rs: seq<Record>): (log: seq<Entry>)
    ensures |log| == |rs| && forall i :: 0 <= i < |rs| ==> log[i] == Entry(rs[i].op, rs[i].payload)
  {
    seq(|rs|, i requires 0 <= i < |rs| => Entry(rs[i].op, rs[i].payload))
  }

  /** Wherever a crash cuts the log file: recovering the records and replaying them brings back the books and
      fills the engine had after some of the messages, none of them skipped: as many as reached the log before
      the cut. */
  lemma CrashReplay(h: Hash, messages: seq<Bytes>, n: nat) returns (j: nat)
    requires AllFaithful(messages)
    requires |LogOf(h, messages)| < TWO64 - 1
    requires n <= |FileOf(Records(LogOf(h, messages)))|
    ensures j <= |messages| && |LogOf(h, messages[..j])| == Whole(Records(LogOf(h, messages)), n)
    ensures var recovered := Parse(FileOf(Records(LogOf(h, messages)))[..n]);
            Serve(h, Payloads(EntriesOf(recovered))) == Serve(h, messages[..j])
  {
    hide Faithful, Parse, FileOf, Whole, LogOf, Serve;
    var log := LogOf(h, messages);
    var rs := Records(log);
    var k := Whole(rs, n);
    CrashPrefix(rs, n);
    j := LogPrefix(h, messages, k);
    assert EntriesOf(rs[..k]) == log[..k];
    assert AllFaithful(messages[..j]);
    ReplayIsFaithful(h, messages[..j]);
  }

  /** With the file whole nothing is lost. */
  lemma WholeFileReplay(h: Hash, messages: seq<Bytes>)
    requires AllFaithful(messages)
    requires |LogOf(h, messages)| < TWO64 - 1
    ensures var recovered := Parse(FileOf(Records(LogOf(h, messages))));
            Serve(h, Payloads(EntriesOf(recovered))) == Serve(h, messages)
  {
    hide Faithful, Parse, FileOf, LogOf, Serve;
    var log := LogOf(h, messages);
    ParseFile(Records(log));
    assert EntriesOf(Records(log)) == log;
    ReplayIsFaithful(h, messages);
  }

  // ----- messages behind torn bytes

  /** Behind a torn log file an order of any fields can be logged that is not recovered: with the client's sequence
      number given or with another one. */
  lemma OrderHidden(file: Bytes, m: Wire.OrderMsg) returns (lost: Wire.OrderMsg)
    requires FileOf(Parse(file)) != file
    ensures lost == m.(sequence := lost.sequence)
    ensures |Wire.OrderBytes(lost)| == Wire.ADD_SIZE && Lost(file, NextRecord(file, 1, Wire.OrderBytes(lost)))
  {
    hide FileOf, Parse, Lost, MaxSequence;
    var p := Wire.OrderBytes(m);
    lost := m;
    TornBytesHideAppends(file, NextRecord(file, 1, p));
    if !Lost(file, NextRecord(file, 1, p)) {
      var s := ReadU64(Varied(p), 63);
      lost := m.(sequence := s);
      VariedOrder(m, s);
      assert NextRecord(file, 1, Varied(p)) == NextRecord(file, 1, p).(payload := Varied(p));
    }
  }

  lemma VariedOrder(m: Wire.OrderMsg, s: u64)
    requires s == ReadU64(Varied(Wire.OrderBytes(m)), 63)
    ensures Wire.OrderBytes(m.(sequence := s)) == Varied(Wire.OrderBytes(m))
  {
    var p := Wire.OrderBytes(m);
    var v := Varied(p);
    assert U64Bytes(s) == v[63..71];
    hide U64Bytes, U32Bytes, ReadU64;
    assert p == p[..63] + U64Bytes(m.sequence) && v[..63] == p[..63];
    assert Wire.OrderBytes(m.(sequence := s)) == p[..63] + U64Bytes(s);
    assert v == v[..63] + v[63..71];
  }
}
