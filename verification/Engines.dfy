/** Engine of engine/src/main.cpp: the book table, the log and the order books as objects, and the
    dispatch of one message, proved to do what Replay.Dispatch says and to log what Replay.Logged
    says. Publishing to NATS is left out; the fills are kept in the ghost state. */
module Engines {
  import opened Types
  import opened LittleEndian
  import opened BookSpec
  import opened OrderBooks
  import opened ProbeTables
  import opened WriteAheadLog
  import Wire
  import opened Replay

  type BookMap = map<Uuid, OrderBook>

  // ----- many books on one heap

  ghost function Objects(m: BookMap): set<object> {
    set k, o | k in m && o in m[k].Repr() :: o
  }

  /** The books share no object with each other or with own. */
  ghost predicate Separate(m: BookMap, own: set<object>) {
    && (forall k :: k in m ==> m[k].Repr() !! own)
    && (forall j, k :: j in m && k in m && j != k ==> m[j].Repr() !! m[k].Repr())
  }

  /** Each object is a valid book of its market and holds the given book. */
  ghost predicate Holding(m: BookMap, books: map<Uuid, Book>, h: Hash)
    reads Objects(m)
  {
    && m.Keys == books.Keys
    && forall k :: k in m ==> BookIs(m[k], k, books[k], h)
  }

  ghost predicate BookIs(b: OrderBook, market: Uuid, book: Book, h: Hash)
    reads b.Repr()
  {
    b.market == market && b.hash == h && b.Valid() && b.book == book
  }

  lemma ObjectsInsert(m: BookMap, k: Uuid, b: OrderBook)
    requires k !in m
    ensures Objects(m[k := b]) == Objects(m) + b.Repr()
  {
    var m' := m[k := b];
    forall o | o in Objects(m) ensures o in Objects(m') {
      var j :| j in m && o in m[j].Repr();
      assert m'[j] == m[j];
    }
    forall o | o in b.Repr() ensures o in Objects(m') {
      assert m'[k] == b;
    }
  }

  lemma SeparateInsert(m: BookMap, own: set<object>, k: Uuid, b: OrderBook)
    requires Separate(m, own) && b.Repr() !! own && b.Repr() !! Objects(m)
    ensures Separate(m[k := b], own)
  {
    forall j | j in m ensures m[j].Repr() !! b.Repr() {
      assert forall o :: o in m[j].Repr() ==> o in Objects(m);
    }
  }

  lemma ObjectsAllocated(m: BookMap)
    ensures forall o :: o in Objects(m) ==> allocated(o)
  {
    forall o | o in Objects(m) ensures allocated(o) {
      var k :| k in m && o in m[k].Repr();
      ReprAllocated(m[k]);
    }
  }

  lemma ReprAllocated(b: OrderBook)
    ensures forall o :: o in b.Repr() ==> allocated(o)
  {
  }

  lemma ApartFromOwn(m: BookMap, own: set<object>)
    requires Separate(m, own)
    ensures Objects(m) !! own
  {
  }

  lemma HoldingInsert(m: BookMap, books: map<Uuid, Book>, h: Hash, k: Uuid, b: OrderBook, book: Book)
    requires Holding(m, books, h) && BookIs(b, k, book, h)
    ensures Holding(m[k := b], books[k := book], h)
  {
    hide BookIs;
    assert m[k := b].Keys == m.Keys + {k} == books[k := book].Keys;
  }

  /** All books but that of market k, which shares no object with them. */
  lemma HoldingWithout(m: BookMap, own: set<object>, books: map<Uuid, Book>, h: Hash, k: Uuid)
    requires Holding(m, books, h) && Separate(m, own) && k in m
    ensures k in books && BookIs(m[k], k, books[k], h)
    ensures Holding(m - {k}, books - {k}, h)
    ensures Objects(m - {k}) !! m[k].Repr() && Objects(m - {k}) !! own && m[k].Repr() <= Objects(m)
    ensures (m - {k})[k := m[k]] == m
  {
    hide BookIs, OrderBook.Repr;
    assert (m - {k}).Keys == m.Keys - {k} == (books - {k}).Keys;
  }

  lemma HoldingSize(m: BookMap, books: map<Uuid, Book>, h: Hash)
    requires Holding(m, books, h)
    ensures m.Keys == books.Keys && |m| == |books|
  {
    SameSize(m, books);
  }

  lemma SameSize<V, W>(a: map<Uuid, V>, b: map<Uuid, W>)
    requires a.Keys == b.Keys
    ensures |a| == |b|
  {
    assert |a.Keys| == |a| && |b.Keys| == |b|;
  }

  lemma NothingHeld(m: BookMap, h: Hash, own: set<object>)
    requires m == map[]
    ensures Objects(m) == {} && Separate(m, own) && Holding(m, map[], h)
  {
  }

  class Engine {
    const hash: Hash
    const wal: Wal
    const table: ProbeTable<OrderBook>

    /** A null book was dereferenced. */
    var halted: bool

    /** The state the objects stand for, and what has been logged. */
    ghost var shop: Shop
    ghost var log: seq<Entry>

    ghost function Own(): set<object> {
      {this, wal, table, table.entries}
    }

    ghost function Footprint(): set<object>
      reads this, table
    {
      Own() + Objects(table.contents)
    }

    /** Every market that had a book still has the same book object. */
    ghost predicate Stable(before: BookMap)
      reads table
    {
      forall k :: k in before ==> k in table.contents && table.contents[k] == before[k]
    }

    ghost predicate Valid()
      reads this, table, Footprint()
    {
      && table.hash == hash && table.Valid() && table.Single()
      && Separate(table.contents, Own())
      && Holding(table.contents, shop.books, hash)
      && shop.halted == halted
    }

    constructor (hash: Hash, file: Bytes)
      ensures Valid() && fresh(Footprint()) && this.hash == hash
      ensures shop == EmptyShop && log == [] && wal.file == file && wal.nextSequence == 1 && wal.lastSequence == 0
    {
      hide TableOk, KeysDiffer, Separate, Holding, Objects, OrderBook.Valid, OrderBook.Repr, BookIs;
      this.hash := hash;
      wal := new Wal(file);
      table := new ProbeTable(hash);
      halted, shop, log := false, EmptyShop, [];
      new;
      NothingHeld(table.contents, hash, Own());
    }

    /** Puts the new, empty book of a market into the table; fails when the table is full. */
    method AddBook(market: Uuid, book: OrderBook) returns (ok: bool)
      requires Valid() && market !in table.contents
      requires BookIs(book, market, EmptyBook, hash) && book.Repr() !! Footprint()
      modifies table, table.entries, this`shop
      ensures Valid() && (ok <==> |old(table.contents)| < BUCKETS)
      ensures table.contents == if ok then old(table.contents)[market := book] else old(table.contents)
      ensures shop == if ok then old(shop).(books := old(shop.books)[market := EmptyBook]) else old(shop)
    {
      hide OrderBook.Valid, TableOk, KeysDiffer, Separate, Holding, Objects, BookIs;
      ghost var m := table.contents;
      ObjectsInsert(m, market, book);
      SeparateInsert(m, Own(), market, book);
      ApartFromOwn(m, Own());
      ObjectsAllocated(m);
      ok := table.Insert(market, book);
      if ok {
        HoldingInsert(m, shop.books, hash, market, book, EmptyBook);
        shop := shop.(books := shop.books[market := EmptyBook]);
      }
    }

    /** The book of a market, made when there is none; None when the table is full. */
    method GetOrCreate(market: Uuid) returns (r: Option<OrderBook>)
      requires Valid() && !halted
      modifies table, table.entries, this`shop
      ensures Valid() && fresh(Footprint() - old(Footprint()))
      ensures Stable(old(table.contents))
      ensures r.None? <==> market !in old(shop.books) && |old(shop.books)| >= 256
      ensures r.Some? ==> market in table.contents && table.contents[market] == r.value
      ensures shop == if r.Some? then old(shop).(books := old(shop.books)[market := BookOf(old(shop), market)])
                      else old(shop)
    {
      hide OrderBook.Valid, TableOk, KeysDiffer, Separate, Holding, Objects, BookIs;
      HoldingSize(table.contents, shop.books, hash);
      ObjectsAllocated(table.contents);
      r := table.Find(market);
      if r.Some? {
        assert shop.books[market := shop.books[market]] == shop.books;
        return;
      }
      var book := NewBook(market);
      ObjectsInsert(table.contents, market, book);
      var ok := AddBook(market, book);
      if ok {
        r := Some(book);
      }
    }

    method NewBook(market: Uuid) returns (book: OrderBook)
      ensures fresh(book.Repr()) && BookIs(book, market, EmptyBook, hash)
    {
      hide OrderBook.Valid;
      book := new OrderBook(market, hash);
    }

    /** The order operations and the cancel change one book and nothing else that the engine owns. */
    method PlaceIn(book: OrderBook, m: Wire.OrderMsg)
      requires BookIs(book, m.marketId, book.book, hash)
      modifies book.Repr()
      ensures BookIs(book, m.marketId, Execute(hash, old(book.book), m).book, hash)
      ensures book.published == old(book.published) + Execute(hash, old(book.book), m).trades
    {
      hide OrderBook.Valid;
      if m.isMarket {
        book.AddMarketOrder(m.orderId, m.userId, m.side, m.quantity, m.sequence);
      } else {
        book.AddLimitOrder(m.orderId, m.userId, m.side, m.price, m.quantity, m.sequence);
      }
    }

    method CancelIn(book: OrderBook, c: Wire.CancelMsg)
      requires BookIs(book, c.marketId, book.book, hash)
      modifies book.Repr()
      ensures BookIs(book, c.marketId, Cancel(hash, old(book.book), c.orderId), hash)
      ensures book.published == old(book.published)
    {
      hide OrderBook.Valid;
      var _ := book.CancelOrder(c.orderId);
    }

    /** Executes an order on the book of its market, which is in the table. */
    method Place(book: OrderBook, m: Wire.OrderMsg)
      requires Valid() && m.marketId in table.contents && table.contents[m.marketId] == book
      modifies book.Repr(), this`shop
      ensures Valid() && table.contents == old(table.contents)
      ensures var out := Execute(hash, BookOf(old(shop), m.marketId), m);
              shop == old(shop).(books := old(shop.books)[m.marketId := out.book],
                                 fills := old(shop.fills) + out.trades)
    {
      hide OrderBook.Valid, TableOk, KeysDiffer, Separate, Holding, Objects, BookIs, Execute, OrderBook.Repr;
      ghost var contents, books, k := table.contents, shop.books, m.marketId;
      HoldingWithout(contents, Own(), books, hash, k);
      ObjectsAllocated(contents - {k});
      ApartFromOwn(contents, Own());
      ghost var earlier := book.published;
      BookIsNow(book, k, books[k], hash);
      PlaceIn(book, m);
      BookIsNow(book, k, Execute(hash, books[k], m).book, hash);
      HoldingInsert(contents - {k}, books - {k}, hash, k, book, book.book);
      assert (books - {k})[k := book.book] == books[k := book.book];
      shop := shop.(books := books[k := book.book], fills := shop.fills + book.published[|earlier|..]);
    }

    /** Cancels on the book of the market, which is in the table. */
    method Withdraw(book: OrderBook, c: Wire.CancelMsg)
      requires Valid() && c.marketId in table.contents && table.contents[c.marketId] == book
      modifies book.Repr(), this`shop
      ensures Valid() && table.contents == old(table.contents)
      ensures c.marketId in old(shop.books) && shop == Withdrawn(hash, old(shop), c)
    {
      hide OrderBook.Valid, TableOk, KeysDiffer, Separate, Holding, Objects, BookIs, BookSpec.Cancel, OrderBook.Repr;
      ghost var contents, books, k := table.contents, shop.books, c.marketId;
      HoldingWithout(contents, Own(), books, hash, k);
      ObjectsAllocated(contents - {k});
      ApartFromOwn(contents, Own());
      BookIsNow(book, k, books[k], hash);
      CancelIn(book, c);
      BookIsNow(book, k, BookSpec.Cancel(hash, books[k], c.orderId), hash);
      HoldingInsert(contents - {k}, books - {k}, hash, k, book, book.book);
      assert (books - {k})[k := book.book] == books[k := book.book];
      shop := shop.(books := books[k := book.book]);
    }

    /** The log has grown by the given entries, at most one, and the file by its record. */
    ghost predicate LoggedAs(log0: seq<Entry>, file0: Bytes, next0: u64, more: seq<Entry>)
      reads this`log, wal
    {
      && log == log0 + more
      && (more == [] ==> wal.file == file0 && wal.nextSequence == next0)
      && (|more| == 1 ==>
            && wal.file == file0 + RecordBytes(WriteAheadLog.Record(next0, more[0].op, more[0].payload))
            && wal.nextSequence as int == (next0 + 1) % TWO64)
    }

    lemma Unlogged()
      ensures LoggedAs(log, wal.file, wal.nextSequence, [])
    {
    }

    /** Appends a message to the log; its length is cut to 32 bits. */
    method Record(op: Byte, data: Bytes)
      requires Valid()
      modifies wal, this`log
      ensures Valid() && LoggedAs(old(log), old(wal.file), old(wal.nextSequence), [Entry(op, Kept(data))])
    {
      hide OrderBook.Valid, TableOk, KeysDiffer, Separate, Holding, Objects, RecordBytes;
      ObjectsAllocated(table.contents);
      ApartFromOwn(table.contents, Own());
      wal.Append(op, data, |data| % TWO32);
      log := log + [Entry(op, Kept(data))];
    }

    /** What main does with the log at the start: it reads the records, and the books stay empty. */
    method Recover() returns (records: seq<Record>)
      requires Valid()
      modifies wal
      ensures Valid() && records == Parse(wal.file) && wal.file == old(wal.file)
      ensures wal.nextSequence == (Larger(old(wal.lastSequence), MaxSequence(records)) + 1) % TWO64
    {
      hide OrderBook.Valid, TableOk, KeysDiffer, Separate, Holding, Objects, Parse, MaxSequence;
      ObjectsAllocated(table.contents);
      ApartFromOwn(table.contents, Own());
      records := wal.Recover();
    }

    /** A null book is dereferenced. */
    method Halt()
      requires Valid()
      modifies this`halted, this`shop
      ensures Valid() && shop == old(shop).(halted := true)
    {
      hide OrderBook.Valid, TableOk, KeysDiffer, Separate, Holding, Objects;
      ObjectsAllocated(table.contents);
      ApartFromOwn(table.contents, Own());
      halted, shop := true, shop.(halted := true);
    }

    /** One message from the subscription. */
    method Dispatch(data: Bytes)
      requires Valid()
      modifies Footprint()
      ensures Valid() && fresh(Footprint() - old(Footprint()))
      ensures Stable(old(table.contents))
      ensures shop == Replay.Dispatch(hash, old(shop), data)
      ensures LoggedAs(old(log), old(wal.file), old(wal.nextSequence), Logged(old(shop), data))
    {
      hide OrderBook.Valid, TableOk, KeysDiffer, Separate, Holding, Objects, BookIs, Placed, Withdrawn, OrderBook.Repr,
           LoggedAs;
      hide Wire.DecodeOrder, Wire.DecodeCancel;
      Unlogged();
      if halted || |data| < 1 {
        return;
      }
      HoldingSize(table.contents, shop.books, hash);
      var op := data[0];
      if op == Wire.OP_ADD && |data| >= Wire.ADD_SIZE {
        DispatchOrder(data, Wire.DecodeOrder(data));
      } else if op == Wire.OP_CANCEL && |data| >= Wire.CANCEL_SIZE {
        DispatchCancel(data, Wire.DecodeCancel(data));
      }
    }

    method DispatchOrder(data: Bytes, m: Wire.OrderMsg)
      requires Valid() && !halted
      modifies Footprint()
      ensures Valid() && fresh(Footprint() - old(Footprint()))
      ensures Stable(old(table.contents))
      ensures shop == Placed(hash, old(shop), m)
      ensures LoggedAs(old(log), old(wal.file), old(wal.nextSequence), [Entry(1, Kept(data))])
    {
      hide OrderBook.Valid, TableOk, KeysDiffer, Separate, Holding, Objects, BookIs, Execute, OrderBook.Repr, LoggedAs;
      var book := OpenBook(data, m.marketId);
      if book.None? {
        Halt();
        return;
      }
      InObjects(table.contents, m.marketId);
      ApartFromOwn(table.contents, Own());
      Place(book.value, m);
    }

    /** Logs the order, then looks up the book of its market. */
    method OpenBook(data: Bytes, market: Uuid) returns (r: Option<OrderBook>)
      requires Valid() && !halted
      modifies Own()
      ensures Valid() && fresh(Footprint() - old(Footprint())) && !halted
      ensures Stable(old(table.contents))
      ensures r.None? <==> market !in old(shop.books) && |old(shop.books)| >= MAX_MARKETS
      ensures r.Some? ==> market in table.contents && table.contents[market] == r.value
      ensures shop == if r.Some? then old(shop).(books := old(shop.books)[market := BookOf(old(shop), market)])
                      else old(shop)
      ensures LoggedAs(old(log), old(wal.file), old(wal.nextSequence), [Entry(1, Kept(data))])
    {
      hide OrderBook.Valid, TableOk, KeysDiffer, Separate, Holding, Objects, BookIs, OrderBook.Repr, LoggedAs;
      ghost var f0 := Footprint();
      Record(1, data);
      assert Footprint() == f0;
      label logged:
      r := GetOrCreate(market);
      ghost var added := Footprint() - f0;
      assert fresh@logged(added);
      forall o | o in Footprint() && o !in old(Footprint()) ensures fresh(o) {
        assert o in added;
      }
    }

    method DispatchCancel(data: Bytes, c: Wire.CancelMsg)
      requires Valid() && !halted
      modifies Footprint()
      ensures Valid() && fresh(Footprint() - old(Footprint()))
      ensures Stable(old(table.contents))
      ensures shop == if c.marketId in old(shop.books) then Withdrawn(hash, old(shop), c) else old(shop)
      ensures LoggedAs(old(log), old(wal.file), old(wal.nextSequence),
                       if c.marketId in old(shop.books) then [Entry(2, Kept(data))] else [])
    {
      hide OrderBook.Valid, TableOk, KeysDiffer, Separate, Holding, Objects, BookIs, BookSpec.Cancel, OrderBook.Repr,
           LoggedAs;
      HoldingSize(table.contents, shop.books, hash);
      ObjectsAllocated(table.contents);
      ApartFromOwn(table.contents, Own());
      Unlogged();
      var book := table.Find(c.marketId);
      if book.Some? {
        InObjects(table.contents, c.marketId);
        Record(2, data);
        Withdraw(book.value, c);
      }
    }
  }

  lemma InObjects(m: BookMap, k: Uuid)
    requires k in m
    ensures m[k].Repr() <= Objects(m)
  {
  }

  lemma BookIsNow(b: OrderBook, market: Uuid, book: Book, h: Hash)
    requires BookIs(b, market, book, h)
    ensures b.market == market && b.hash == h && b.book == book && BookIs(b, market, b.book, h)
  {
  }

  lemma RecordsGrow(log: seq<Entry>, e: Entry)
    requires |log| + 1 < TWO64 - 1
    ensures FileOf(Records(log + [e])) == FileOf(Records(log)) + RecordBytes(Record(|log| + 1, e.op, e.payload))
  {
    var r := Record(|log| + 1, e.op, e.payload);
    assert Records(log + [e]) == Records(log) + [r];
    hide RecordBytes;
    FileSplit(Records(log), [r]);
    assert FileOf([r]) == RecordBytes(r) + FileOf([]);
    assert FileOf([r]) == RecordBytes(r);
  }

  /** The log file after one more message, behind what earlier processes have logged. */
  lemma FileAfter(e: Engine, earlier: seq<Entry>, log0: seq<Entry>, file0: Bytes, next0: u64, more: seq<Entry>)
    requires e.LoggedAs(log0, file0, next0, more) && |more| <= 1
    requires |earlier| + |log0| + 1 < TWO64 - 1
    requires file0 == FileOf(Records(earlier + log0)) && next0 as int == |earlier| + |log0| + 1
    ensures e.log == log0 + more && |e.log| <= |log0| + 1
    ensures e.wal.file == FileOf(Records(earlier + e.log)) && e.wal.nextSequence as int == |earlier| + |e.log| + 1
  {
    hide FileOf, RecordBytes, Records;
    if more != [] {
      assert more == [more[0]];
      assert earlier + (log0 + more) == (earlier + log0) + [more[0]];
      RecordsGrow(earlier + log0, more[0]);
    } else {
      assert log0 + more == log0;
    }
  }

  /** A process recovers what earlier ones have logged. */
  lemma EarlierRecovered(earlier: seq<Entry>)
    requires |earlier| < TWO64 - 2
    ensures Parse(FileOf(Records(earlier))) == Records(earlier)
    ensures MaxSequence(Records(earlier)) as int == |earlier|
  {
    ParseFile(Records(earlier));
    MaxConsecutive(Records(earlier));
  }

  /** An engine process from its start, on an empty log file or behind earlier processes, through a stream of messages:
      its books and fills are those of Replay.Serve, from no books, and the log file holds exactly the records of the
      earlier processes and those of Replay.LogOf. */
  method ServeAll(hash: Hash, file: Bytes, ghost earlier: seq<Entry>, messages: seq<Bytes>) returns (e: Engine)
    requires |earlier| + |messages| < TWO64 - 2 && file == FileOf(Records(earlier))
    ensures fresh(e.Footprint()) && e.Valid() && e.hash == hash
    ensures e.shop == Serve(hash, messages) && e.log == LogOf(hash, messages)
    ensures |LogOf(hash, messages)| <= |messages| && e.wal.file == FileOf(Records(earlier + LogOf(hash, messages)))
  {
    hide OrderBook.Valid, TableOk, KeysDiffer, Separate, Holding, Objects, Engine.Valid, Dispatch, Logged;
    hide Parse, FileOf, Records, MaxSequence, RecordBytes, Engine.LoggedAs;
    e := new Engine(hash, file);
    EarlierRecovered(earlier);
    var _ := e.Recover();
    assert earlier + [] == earlier;
    for i := 0 to |messages|
      invariant fresh(e.Footprint()) && e.Valid() && e.hash == hash
      invariant e.shop == Serve(hash, messages[..i]) && e.log == LogOf(hash, messages[..i]) && |e.log| <= i
      invariant e.wal.file == FileOf(Records(earlier + e.log))
      invariant e.wal.nextSequence as int == |earlier| + |e.log| + 1
    {
      ghost var log0, file0, next0, shop0 := e.log, e.wal.file, e.wal.nextSequence, e.shop;
      ghost var objects0 := e.Footprint();
      assert fresh(objects0);
      AtMostOne(shop0, messages[i]);
      label received:
      e.Dispatch(messages[i]);
      ghost var added := e.Footprint() - objects0;
      assert fresh@received(added);
      forall o | o in e.Footprint() ensures fresh(o) {
        assert o in objects0 || o in added;
      }
      FileAfter(e, earlier, log0, file0, next0, Logged(shop0, messages[i]));
      assert messages[..i + 1][..i] == messages[..i];
    }
    assert messages[..|messages|] == messages;
  }
}
