/** The write-ahead log of engine/src/wal.cpp. The file is a sequence of bytes that only append
    makes longer; a crash may cut it anywhere. Integers are stored as on the x86-64 machines the
    engine is written for, least significant byte first. */
module WriteAheadLog {
  import opened Types
  import opened LittleEndian

  const HEADER: nat := 13

  type Payload = p: Bytes | |p| < TWO32 witness []

  datatype Record = Record(sequence: u64, op: Byte, payload: Payload)

  function RecordBytes(r: Record): (b: Bytes)
    ensures |b| == HEADER + |r.payload|
  {
    U64Bytes(r.sequence) + [r.op] + U32Bytes(|r.payload|) + r.payload
  }

  /** The file that holds the records rs. */
  function FileOf(rs: seq<Record>): Bytes {
    if rs == [] then [] else RecordBytes(rs[0]) + FileOf(rs[1..])
  }

  // ----- reading

  /** b starts with a whole record. */
  predicate HasRecord(b: Bytes) {
    |b| >= HEADER && |b| >= HEADER + ReadU32(b, 9)
  }

  function FirstRecord(b: Bytes): Record
    requires HasRecord(b)
  {
    Record(ReadU64(b, 0), b[8], b[HEADER..HEADER + ReadU32(b, 9)])
  }

  function AfterRecord(b: Bytes): (r: Bytes)
    requires HasRecord(b)
    ensures |r| < |b|
  {
    b[HEADER + ReadU32(b, 9)..]
  }

  /** The records recovered from the bytes b: whole records until one is cut short. */
  function Parse(b: Bytes): seq<Record>
    decreases |b|
  {
    if HasRecord(b) then [FirstRecord(b)] + Parse(AfterRecord(b)) else []
  }

  function MaxSequence(rs: seq<Record>): u64 {
    if rs == [] then 0
    else
      var rest := MaxSequence(rs[..|rs| - 1]);
      if rs[|rs| - 1].sequence > rest then rs[|rs| - 1].sequence else rest
  }

  /** It is the largest number of all, wherever it stands, and 0 without records. */
  lemma {:induction false} MaxSequenceIs(rs: seq<Record>)
    ensures forall i :: 0 <= i < |rs| ==> rs[i].sequence <= MaxSequence(rs)
    ensures MaxSequence(rs) == 0 || exists i :: 0 <= i < |rs| && rs[i].sequence == MaxSequence(rs)
  {
    if rs != [] {
      var rest, last := rs[..|rs| - 1], rs[|rs| - 1];
      MaxSequenceIs(rest);
      if last.sequence <= MaxSequence(rest) && MaxSequence(rest) != 0 {
        var i :| 0 <= i < |rest| && rest[i].sequence == MaxSequence(rest);
        assert rs[i].sequence == MaxSequence(rs);
      } else {
        assert rs[|rs| - 1] == last;
      }
    }
  }

  // ----- reading gives back what was written

  lemma RecordFields(r: Record, tail: Bytes)
    ensures var b := RecordBytes(r) + tail;
            && b[0..8] == U64Bytes(r.sequence) && b[8] == r.op && b[9..13] == U32Bytes(|r.payload|)
            && b[HEADER..HEADER + |r.payload|] == r.payload && b[HEADER + |r.payload|..] == tail
  {
    hide U64Bytes, U32Bytes;
    var q, l := U64Bytes(r.sequence), U32Bytes(|r.payload|);
    var b := q + [r.op] + l + r.payload + tail;
    assert b[0..8] == q && b[9..13] == l;
  }

  lemma RecordReadBack(r: Record, tail: Bytes)
    ensures var b := RecordBytes(r) + tail;
            HasRecord(b) && FirstRecord(b) == r && AfterRecord(b) == tail
  {
    RecordFields(r, tail);
    hide U64Bytes, U32Bytes, RecordBytes;
    ReadsBack(RecordBytes(r) + tail, r.sequence, |r.payload|);
    hide ReadU64, ReadU32;
  }

  lemma ReadsBack(b: Bytes, q: u64, l: u32)
    requires |b| >= HEADER && b[0..8] == U64Bytes(q) && b[9..13] == U32Bytes(l)
    ensures ReadU64(b, 0) == q && ReadU32(b, 9) == l
  {
  }

  /** A record cut short is not read. */
  lemma TornRecord(r: Record, n: nat)
    requires n < |RecordBytes(r)|
    ensures !HasRecord(RecordBytes(r)[..n])
  {
    var b := RecordBytes(r);
    if n >= HEADER {
      RecordFields(r, []);
      assert b + [] == b;
      assert b[..n][9..13] == b[9..13];
      hide U64Bytes, RecordBytes;
      assert ReadU32(b[..n], 9) == |r.payload|;
    }
  }

  /** The uncut file gives back all its records. */
  lemma {:induction false} ParseFile(rs: seq<Record>)
    ensures Parse(FileOf(rs)) == rs
  {
    if rs != [] {
      ParseFile(rs[1..]);
      RecordReadBack(rs[0], FileOf(rs[1..]));
      hide HasRecord, FirstRecord, AfterRecord, RecordBytes;
    }
  }

  lemma {:induction false} FileSplit(rs: seq<Record>, ts: seq<Record>)
    ensures FileOf(rs + ts) == FileOf(rs) + FileOf(ts)
  {
    if rs == [] {
      assert rs + ts == ts;
    } else {
      assert (rs + ts)[0] == rs[0] && (rs + ts)[1..] == rs[1..] + ts;
      FileSplit(rs[1..], ts);
    }
  }

  /** The number of records of rs that lie wholly in the first n bytes of their file. */
  function Whole(rs: seq<Record>, n: nat): (k: nat)
    ensures k <= |rs|
  {
    if rs == [] || n < |RecordBytes(rs[0])| then 0 else 1 + Whole(rs[1..], n - |RecordBytes(rs[0])|)
  }

  /** Whole is what its name says: record k - 1 ends inside the cut and record k does not. */
  lemma {:induction false} WholeIs(rs: seq<Record>, n: nat)
    ensures var k := Whole(rs, n);
            |FileOf(rs[..k])| <= n && (k < |rs| ==> n < |FileOf(rs[..k + 1])|)
  {
    if rs == [] || n < |RecordBytes(rs[0])| {
      if rs != [] { assert FileOf(rs[..1]) == RecordBytes(rs[0]) + FileOf([]); }
    } else {
      var k := Whole(rs[1..], n - |RecordBytes(rs[0])|);
      WholeIs(rs[1..], n - |RecordBytes(rs[0])|);
      hide RecordBytes;
      FileHead(rs, k + 1);
      if k + 1 < |rs| { FileHead(rs, k + 2); }
    }
  }

  lemma FileHead(rs: seq<Record>, k: nat)
    requires 0 < k <= |rs|
    ensures FileOf(rs[..k]) == RecordBytes(rs[0]) + FileOf(rs[1..][..k - 1])
  {
    assert rs[..k][1..] == rs[1..][..k - 1];
  }

  /** Wherever a crash cuts the file, recovery returns exactly the records that lie wholly before the cut. */
  lemma {:induction false} CrashPrefix(rs: seq<Record>, n: nat)
    requires n <= |FileOf(rs)|
    ensures Parse(FileOf(rs)[..n]) == rs[..Whole(rs, n)]
  {
    if rs != [] {
      var first, rest := RecordBytes(rs[0]), FileOf(rs[1..]);
      if n < |first| {
        assert FileOf(rs)[..n] == first[..n];
        TornRecord(rs[0], n);
      } else {
        assert FileOf(rs)[..n] == first + rest[..n - |first|];
        RecordReadBack(rs[0], rest[..n - |first|]);
        CrashPrefix(rs[1..], n - |first|);
        hide HasRecord, FirstRecord, AfterRecord, RecordBytes;
      }
    }
  }

  /** Recovery never makes anything up: for any bytes, what it returns is what stands at their start, and
      behind that no whole record follows. */
  lemma {:induction false} ParseSound(b: Bytes)
    ensures FileOf(Parse(b)) <= b
    ensures !HasRecord(b[|FileOf(Parse(b))|..])
    decreases |b|
  {
    if HasRecord(b) {
      var rest, rs := AfterRecord(b), Parse(AfterRecord(b));
      ParseSound(rest);
      FirstBytes(b);
      SoundStep(b, FirstRecord(b), rs);
    } else {
      assert b[0..] == b;
    }
  }

  lemma SoundStep(b: Bytes, first: Record, rs: seq<Record>)
    requires |RecordBytes(first)| <= |b| && RecordBytes(first) == b[..|RecordBytes(first)|]
    requires FileOf(rs) <= b[|RecordBytes(first)|..]
    ensures FileOf([first] + rs) <= b
    ensures b[|FileOf([first] + rs)|..] == b[|RecordBytes(first)|..][|FileOf(rs)|..]
  {
    hide RecordBytes;
    assert ([first] + rs)[1..] == rs;
    var n := |RecordBytes(first)|;
    assert b == b[..n] + b[n..];
  }

  lemma FirstBytes(b: Bytes)
    requires HasRecord(b)
    ensures var n := |RecordBytes(FirstRecord(b))|;
            n <= |b| && RecordBytes(FirstRecord(b)) == b[..n] && AfterRecord(b) == b[n..]
  {
    var l := ReadU32(b, 9);
    assert U64Bytes(ReadU64(b, 0)) == b[0..8] && U32Bytes(l) == b[9..13];
    hide U64Bytes, U32Bytes, ReadU64, ReadU32;
    assert b[..HEADER + l] == b[0..8] + [b[8]] + b[9..13] + b[HEADER..HEADER + l];
  }

  // ----- sequence numbers over any life of the log

  /** What happens to a log: a record is appended, or the process stops with the first kept records wholly
      written and nothing behind them, and a new process recovers. */
  datatype Event = Written(op: Byte, payload: Payload) | Restarted(kept: nat)

  datatype Log = Log(records: seq<Record>, last: u64, next: u64)

  function After(es: seq<Event>): Log {
    if es == [] then Log([], 0, 1)
    else
      var l := After(es[..|es| - 1]);
      match es[|es| - 1]
      case Written(op, payload) => Log(l.records + [Record(l.next, op, payload)], l.next, (l.next + 1) % TWO64)
      case Restarted(kept) =>
        var rs := l.records[..Min(kept, |l.records|)];
        Log(rs, MaxSequence(rs), (MaxSequence(rs) + 1) % TWO64)
  }

  ghost predicate Consecutive(rs: seq<Record>) {
    forall i :: 0 <= i < |rs| ==> rs[i].sequence as int == i + 1
  }

  lemma {:induction false} MaxConsecutive(rs: seq<Record>)
    requires Consecutive(rs)
    ensures MaxSequence(rs) as int == |rs|
  {
    if rs != [] {
      MaxConsecutive(rs[..|rs| - 1]);
    }
  }

  /** Over any number of appends and restarts the records in the file are numbered 1, 2, 3, ... without a gap
      or a repetition, as long as there have been fewer than 2^64 events. */
  lemma {:induction false} EverySequence(es: seq<Event>)
    requires |es| < TWO64 - 1
    ensures var l := After(es);
            Consecutive(l.records) && l.last as int == |l.records| <= |es| && l.next == l.last + 1
  {
    if es != [] {
      var rest := es[..|es| - 1];
      EverySequence(rest);
      var l := After(rest);
      match es[|es| - 1]
      case Written(_, _) =>
      case Restarted(kept) => MaxConsecutive(l.records[..Min(kept, |l.records|)]);
    }
  }

  /** The next record is newer than all before it exactly until the 64-bit counter is used up. */
  lemma NewerUntilWrap(l: Log)
    requires Consecutive(l.records) && l.last as int == |l.records| && l.next as int == (l.last + 1) % TWO64
    ensures (forall i :: 0 <= i < |l.records| ==> l.records[i].sequence < l.next) <==> |l.records| < TWO64 - 1
  {
    if |l.records| == TWO64 - 1 {
      assert l.records[0].sequence == 1;
    }
  }

  // ----- appending behind torn bytes

  /** If a file read back as rs and then r, r stood right behind rs. */
  lemma AppendedStands(file: Bytes, torn: Bytes, rs: seq<Record>, r: Record)
    requires file == FileOf(rs) + torn && Parse(file + RecordBytes(r)) == rs + [r]
    ensures RecordBytes(r) <= torn + RecordBytes(r)
  {
    var bytes := RecordBytes(r);
    hide RecordBytes, Parse;
    ParseSound(file + bytes);
    FileSplit(rs, [r]);
    FileOfOne(r);
    hide FileOf;
    assert (FileOf(rs) + torn) + bytes == FileOf(rs) + (torn + bytes);
    PrefixBehind(FileOf(rs), bytes, torn + bytes);
  }

  lemma FileOfOne(r: Record)
    ensures FileOf([]) == [] && FileOf([r]) == RecordBytes(r)
  {
    assert [r][1..] == [];
  }

  lemma PrefixBehind(head: Bytes, a: Bytes, b: Bytes)
    requires head + a <= head + b
    ensures a <= b
  {
    assert a == (head + a)[|head|..] && b == (head + b)[|head|..];
  }

  /** The payload with another last byte. */
  function Varied(payload: Payload): Payload
    requires payload != []
  {
    var last: int := payload[|payload| - 1];
    payload[|payload| - 1 := (last + 1) % 256]
  }

  lemma WholeRecordIn(r: Record, torn: Bytes)
    requires RecordBytes(r) <= torn
    ensures HasRecord(torn)
  {
    var rest := torn[|RecordBytes(r)|..];
    assert torn == RecordBytes(r) + rest;
    RecordReadBack(r, rest);
  }

  /** A record that stands where torn bytes begin repeats itself at their length. */
  lemma RepeatsItself(r: Record, torn: Bytes)
    requires torn != [] && !HasRecord(torn) && RecordBytes(r) <= torn + RecordBytes(r)
    ensures var b := RecordBytes(r);
            |torn| < |b| && b[|b| - 1] == b[|b| - 1 - |torn|]
  {
    hide RecordBytes, HasRecord;
    var b := RecordBytes(r);
    if |torn| >= |b| {
      assert b == (torn + b)[..|b|] == torn[..|b|];
      WholeRecordIn(r, torn);
    } else {
      assert b[|b| - 1] == (torn + b)[|b| - 1];
    }
  }

  lemma OnlyLastDiffers(r: Record, v: Record)
    requires r.payload != [] && v == r.(payload := Varied(r.payload))
    ensures var b, c := RecordBytes(r), RecordBytes(v);
            |b| == |c| && b[|b| - 1] != c[|b| - 1] && forall i :: 0 <= i < |b| - 1 ==> b[i] == c[i]
  {
    hide U64Bytes, U32Bytes;
  }

  /** What a record is lost to: the next recovery does not find it behind the records there were. */
  ghost predicate Lost(file: Bytes, r: Record) {
    Parse(file + RecordBytes(r)) != Parse(file) + [r]
  }

  /** Recovery does not cut off torn bytes. Behind any of them, of two records that differ in the last byte of their
      payload only, at least one is lost, whatever their number and the rest of their payload. */
  lemma TornBytesHideAppends(file: Bytes, r: Record)
    requires FileOf(Parse(file)) != file && r.payload != []
    ensures Lost(file, r) || Lost(file, r.(payload := Varied(r.payload)))
  {
    hide RecordBytes, Parse, FileOf, HasRecord, Varied;
    ParseSound(file);
    var v := r.(payload := Varied(r.payload));
    var rs := Parse(file);
    var torn := file[|FileOf(rs)|..];
    assert file == FileOf(rs) + torn;
    if !Lost(file, r) && !Lost(file, v) {
      AppendedStands(file, torn, rs, r);
      AppendedStands(file, torn, rs, v);
      RepeatsItself(r, torn);
      RepeatsItself(v, torn);
      OnlyLastDiffers(r, v);
    }
  }

  /** The record that a log which has recovered the file appends next. */
  function NextRecord(file: Bytes, op: Byte, payload: Payload): Record {
    Record((MaxSequence(Parse(file)) + 1) % TWO64, op, payload)
  }

  /** Whatever is appended after a recovery is found by the next one exactly when the file ends where its last
      whole record ends: when the bytes of the records recovered are all there are. That is so of any records, and
      already of the one record with the next number, for any operation code and payloads of any length above 0. */
  lemma AppendsSurviveExactly(file: Bytes, op: Byte, length: u32)
    requires length > 0
    ensures (forall rs: seq<Record> :: Parse(file + FileOf(rs)) == Parse(file) + rs) <==> FileOf(Parse(file)) == file
    ensures (forall p: Payload :: |p| == length ==> !Lost(file, NextRecord(file, op, p)))
            <==> FileOf(Parse(file)) == file
  {
    hide RecordBytes, Parse, MaxSequence, FileOf;
    if FileOf(Parse(file)) == file {
      forall rs: seq<Record> ensures Parse(file + FileOf(rs)) == Parse(file) + rs {
        FileSplit(Parse(file), rs);
        ParseFile(Parse(file) + rs);
      }
      forall p: Payload | |p| == length ensures !Lost(file, NextRecord(file, op, p)) {
        FileOfOne(NextRecord(file, op, p));
      }
    } else {
      var p := Zeros(length);
      var r := NextRecord(file, op, p);
      TornBytesHideAppends(file, r);
      assert NextRecord(file, op, Varied(p)) == r.(payload := Varied(p));
      FileOfOne(r);
      FileOfOne(r.(payload := Varied(p)));
    }
  }

  function Zeros(length: u32): (p: Payload)
    ensures |p| == length
  {
    seq(length, _ => 0)
  }

  // ----- the log itself

  function Larger(a: u64, b: u64): u64 {
    if a < b then b else a
  }

  class Wal {
    var file: Bytes
    var lastSequence: u64
    var nextSequence: u64

    /** Opens a file for appending. */
    constructor (file: Bytes)
      ensures this.file == file && lastSequence == 0 && nextSequence == 1
    {
      this.file, lastSequence, nextSequence := file, 0, 1;
    }

    method Append(op: Byte, data: Bytes, len: u32)
      requires len <= |data|
      modifies this
      ensures file == old(file) + RecordBytes(Record(old(nextSequence), op, data[..len]))
      ensures lastSequence == old(nextSequence) && nextSequence == (old(nextSequence) + 1) % TWO64
    {
      ghost var r := Record(nextSequence, op, data[..len]);
      ghost var file0 := file;
      file := file + U64Bytes(nextSequence);
      file := file + [op];
      file := file + U32Bytes(len);
      file := file + data[..len];
      lastSequence, nextSequence := nextSequence, (nextSequence + 1) % TWO64;
      hide U64Bytes, U32Bytes;
      FiveParts(file0, U64Bytes(r.sequence), [op], U32Bytes(len), data[..len]);
    }

    /** Reads the record at an offset: number, operation code, length, payload. None when the file ends first. */
    method ReadRecord(at: nat) returns (r: Option<Record>, next: nat)
      requires at <= |file|
      ensures r.None? ==> Parse(file[at..]) == []
      ensures r.Some? ==> at < next <= |file| && Parse(file[at..]) == [r.value] + Parse(file[next..])
    {
      hide ReadU64, ReadU32, Parse;
      r, next := None, at;
      if at + HEADER > |file| { StopsAt(file, at); }
      if at + 8 > |file| { return; }
      var sequence := ReadU64(file, at);
      if at + 9 > |file| { return; }
      var op := file[at + 8];
      if at + HEADER > |file| { return; }
      var len := ReadU32(file, at + 9);
      if at + HEADER + len > |file| {
        StopsAt(file, at);
        return;
      }
      var payload := file[at + HEADER..at + HEADER + len];
      StandsAt(file, at, len);
      r, next := Some(Record(sequence, op, payload)), at + HEADER + len;
    }

    /** Reads whole records from the start of the file until one is cut short. */
    method Recover() returns (records: seq<Record>)
      modifies this`lastSequence, this`nextSequence
      ensures records == Parse(file)
      ensures lastSequence == Larger(old(lastSequence), MaxSequence(records))
      ensures nextSequence == (lastSequence + 1) % TWO64
    {
      hide Parse, MaxSequence;
      records := [];
      MaxAppended([], Record(0, 0, []));
      var at := 0;
      ghost var left := Parse(file);
      assert file[0..] == file;
      var r, next := ReadRecord(at);
      while r.Some?
        invariant at <= |file| && left == Parse(file[at..]) && records + left == Parse(file)
        invariant lastSequence == Larger(old(lastSequence), MaxSequence(records))
        invariant r.None? ==> left == []
        invariant r.Some? ==> at < next <= |file| && left == [r.value] + Parse(file[next..])
        decreases |file| - at, r
      {
        MaxAppended(records, r.value);
        assert (records + [r.value]) + Parse(file[next..]) == records + left;
        lastSequence := Larger(lastSequence, r.value.sequence);
        records := records + [r.value];
        at, left := next, Parse(file[next..]);
        r, next := ReadRecord(at);
      }
      nextSequence := (lastSequence + 1) % TWO64;
    }
  }

  lemma AppendedFile(rs: seq<Record>, r: Record)
    ensures FileOf(rs + [r]) == FileOf(rs) + RecordBytes(r)
  {
    FileSplit(rs, [r]);
    FileOfOne(r);
  }

  /** Any number of processes on one file, each appending behind what it recovered of the one before: the file
      holds exactly the records of After, and the counters of the object are those of After. */
  method Live(es: seq<Event>) returns (wal: Wal)
    requires |es| < TWO64 - 1
    ensures fresh(wal) && wal.file == FileOf(After(es).records)
    ensures wal.lastSequence == After(es).last && wal.nextSequence == After(es).next
    ensures Consecutive(After(es).records) && wal.nextSequence as int == |After(es).records| + 1
  {
    hide Consecutive, RecordBytes, Parse, MaxSequence;
    wal := new Wal([]);
    for i := 0 to |es|
      invariant fresh(wal) && wal.file == FileOf(After(es[..i]).records)
      invariant wal.lastSequence == After(es[..i]).last && wal.nextSequence == After(es[..i]).next
    {
      assert es[..i + 1][..i] == es[..i];
      ghost var l := After(es[..i]);
      hide FileOf;
      match es[i] {
        case Written(op, payload) =>
          wal.Append(op, payload, |payload|);
          assert payload[..|payload|] == payload;
          AppendedFile(l.records, Record(l.next, op, payload));
        case Restarted(kept) =>
          var records := Parse(wal.file);
          ParseFile(l.records);
          records := records[..Min(kept, |records|)];
          wal := new Wal(FileOf(records));
          ParseFile(records);
          records := wal.Recover();
      }
    }
    assert es[..|es|] == es;
    EverySequence(es);
  }

  lemma FiveParts(a: Bytes, b: Bytes, c: Bytes, d: Bytes, e: Bytes)
    ensures a + b + c + d + e == a + (b + c + d + e)
  {
  }

  lemma MaxAppended(rs: seq<Record>, r: Record)
    ensures MaxSequence(rs + [r]) == Larger(MaxSequence(rs), r.sequence) && MaxSequence([]) == 0
  {
    assert (rs + [r])[..|rs|] == rs;
  }

  lemma StandsAt(file: Bytes, at: nat, len: u32)
    requires at + HEADER + len <= |file| && len == ReadU32(file, at + 9)
    ensures var r := Record(ReadU64(file, at), file[at + 8], file[at + HEADER..at + HEADER + len]);
            Parse(file[at..]) == [r] + Parse(file[at + HEADER + len..])
  {
    var b := file[at..];
    assert b[9..13] == file[at + 9..at + 13] && b[0..8] == file[at..at + 8];
    assert ReadU32(b, 9) == len && ReadU64(b, 0) == ReadU64(file, at);
    hide ReadU32, ReadU64;
    assert b[HEADER..HEADER + len] == file[at + HEADER..at + HEADER + len];
    assert b[HEADER + len..] == file[at + HEADER + len..];
  }

  lemma StopsAt(file: Bytes, at: nat)
    requires at <= |file|
    requires at + HEADER > |file| || at + HEADER + ReadU32(file, at + 9) > |file|
    ensures Parse(file[at..]) == []
  {
    var b := file[at..];
    if at + HEADER <= |file| {
      assert b[9..13] == file[at + 9..at + 13];
    }
  }
}
