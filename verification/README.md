# A verified model of the prediction market engine

This Dafny project models the parts of the system where a mistake costs money or
orders, and proves what they promise:

- **The limit order book** of the C++ engine. `OrderBooks` is the class itself: fixed arrays of order and level slots,
  two free stacks, doubly linked queues inside doubly linked level lists, price maps, a hashed cancel index and cached
  best prices, updated in place by the same loops. It refines `BookSpec`, a pure book of sorted levels of
  first-in-first-out orders. Over that book `PriceTime` gives matching in closed form (price, then time), `BookRuns`
  accounts for every unit over whole runs, and `CancelIndex`, `CancelCollisions` and `CancelRuns` say exactly when
  cancelling by id works. `BookGuarantees` reads the results off the fields of the object.
- **The lock-free ring and the bump allocator.** `RingProtocol` and `BumpAllocators` take every atomic access and
  every buffer access as a step of its own. Each atomic keeps its modification order, and a load may return any value
  not older than what the thread has seen; acquire and release decide what happens before what.
- **The engine around the books**: the open-addressing book table (`ProbeTables`), the messages (`Wire`), the
  write-ahead log (`WriteAheadLog`), dispatch over real objects (`Engines`), what each message does from its bytes on
  (`EngineMessages`), replay of the log (`Replay`), and that markets do not influence each other (`MarketIsolation`).
- **Money**: deposits, withdrawals, reservations and fills as atomic transactions (`LedgerSpec`, `Ledgers`), positions
  from fills delivered at least once (`PositionSpec`, `OrderFills`, `FillProcessors`, `FillPrices`, `EngineFills`),
  settlement (`SettlementSpec`, `Settlements`), order slicing and its executor (`AlgoPlans`, `VolumeProfiles`,
  `AlgoExecution`, `AlgoEngines`), and first-in-first-out lots (`LotSpec`, `PnlTrackers`).

`dafny verify dfyconfig.toml` checks everything. A class method is proved against a specification
function of the old state; what the source promises is then proved about that function, usually over
all runs. Tickets (arrival numbers) are ghosts that tell orders apart when ids do not.

## Reading order

`Types`, `BookSpec`, `BookSafety`, `PriceTime`, `PriorityList`, `BookRuns` are the pure book.
`LinkedLists`, `BookMemory`, `QueueUpdates`, `LevelUpdates`, `SlotPools`, `BookImage`, `BookSteps` say how it lies in
the arrays and what each array update does to it; `OrderBooks` is the code. The other modules can be
read on their own.

## Where the code and its documentation differ

The model follows the code.

- W16CryptoEngine/README.md:26 and W16CryptoEngine/README.md:206 say that the engine replays its log. main.cpp:213-214
  only reads and counts the records; the books stay empty (`Engines.Engine.Recover`). `Replay` proves that the log
  would be enough.
- W16CryptoEngine/README.md:206 says that no fills are lost after a restart. A restarted engine numbers its fills from
  1 again. `EngineFills.RestartDistinctExactly`: the keys of two runs differ exactly if no market has fills in both;
  otherwise the second run's fills are lost up to the number the first run made in the market (`RestartPositions`).
- The log is opened for appending after recovery as it stands. `WriteAheadLog.AppendsSurviveExactly`: what is appended
  is found by the next recovery exactly if the file ended with its last whole record.
- A fill that fails after its insertion is never completed, because its next delivery is a duplicate
  (`PositionSpec.CompleteExactly`).
- Withdrawal holds and orders share the column `reserved`, nothing calls reserve_balance (balances.rs:37), and every
  fill takes its cost from `reserved` (balances.rs:84-105). So a fill can use up a hold, and rejecting the withdrawal
  then refunds money that is not there: `LedgerSpec.FillUsesHold` is a run, `HoldsCoveredExactly` and
  `DecisionIsExact` say exactly when.
- test_spsc_queue.cpp:18-26 puts four items into a ring of capacity 4. The code holds three
  (`RingProtocol.RefusedWhenFull`).
- Two order ids in one hash bucket: cancelling one id can take out the other order
  (`CancelCollisions.CollisionCancelsAnother`), and the order that lost its bucket can never be cancelled
  (`CancelRuns.CollisionStrands`).
- An iceberg order of more than 2^32 - 1 slices is cut to one slice (`AlgoPlans.CreateIceberg`).
- A partly closed lot keeps its old unrealised profit until prices are updated (`LotSpec.SellKeepsMarks`).
- The processor books the taker as the buyer of every fill (positions/src/lib.rs:85-94), and takes the cost from the
  taker (line 82); reconciliation.rs:36-40 of the orders crate signs the taker by the aggressor. After a fill with a
  selling taker the seller is on record as long and a Yes settlement pays the seller (`PositionSpec.SellerGoesLong`).
  `PositionSpec.RecordedIsHeld` and `SettlementSpec.PaidForShares` say exactly when records and holdings agree.
- get_user_positions selects three columns into a row type with eight (positions.rs:7-16, 39-50), so reading any row
  fails: as written, a market in which anyone has a position cannot be settled. `Settlements.SettlementService.Settle`
  takes whether the rows can be read as an input.
- Slices of a VWAP order are cut off, not rounded: three units in three equal slices are planned as 0, 0 and 3
  (`AlgoPlans.ThreeThirds`).
- record_fill asks for a read lock while it holds the write lock (pnl.rs:77, 121, 164); the model ends before that.

## Model

| member | source | states |
|---|---|---|
| OrderBooks.OrderBook.constructor | W16CryptoEngine/engine/src/order_book.cpp:32-56 | the new book is valid: empty lists, full free stacks, cleared maps and index, best prices 0 and 10001 |
| OrderBooks.OrderBook.AllocOrder | W16CryptoEngine/engine/src/order_book.cpp:59-62 | pops the top of the free stack, or says that none is free |
| OrderBooks.OrderBook.FreeOrder | W16CryptoEngine/engine/src/order_book.cpp:65-67 | pushes a slot; the caller has shown that there is room |
| OrderBooks.OrderBook.FindOrCreateLevel | W16CryptoEngine/engine/src/order_book.cpp:70-124 | an existing level is found; otherwise a new empty level is linked in at its sorted place, named by the price map, on a slot that was free; it fails only with no level slot free |
| OrderBooks.OrderBook.RemoveLevel | W16CryptoEngine/engine/src/order_book.cpp:127-150 | the level leaves its list and map, its slot goes to the free stack, and the cached best price is that of the new head |
| OrderBooks.OrderBook.Enqueue | W16CryptoEngine/engine/src/order_book.cpp:153-169 | the arrays after linking a slot in at the tail, with the wrapped 64-bit total |
| OrderBooks.OrderBook.Dequeue | W16CryptoEngine/engine/src/order_book.cpp:172-187 | the arrays after unlinking a slot, wherever in the queue it is |
| QueueUpdates.EnqueuedLayout | W16CryptoEngine/engine/src/order_book.cpp:153-169 | those arrays hold the same book with the order at the end of its level, every other queue untouched |
| QueueUpdates.DequeuedLayout | W16CryptoEngine/engine/src/order_book.cpp:172-187 | those arrays hold the same book without exactly that order, all others in their order |
| LevelUpdates.AddedLayout | W16CryptoEngine/engine/src/order_book.cpp:77-123 | the arrays after inserting a level hold the same lists with an empty level at its sorted place |
| LevelUpdates.RemovedLayout | W16CryptoEngine/engine/src/order_book.cpp:133-142 | the arrays after removing a level hold the same lists without it |
| OrderBooks.OrderBook.Publish | W16CryptoEngine/engine/src/order_book.cpp:249-251 | the fill carries the maker of the slot, the taker, the level price and the next 64-bit fill number, and is published once |
| OrderBooks.OrderBook.Match | W16CryptoEngine/engine/src/order_book.cpp:215-272 | the two nested loops terminate and leave the book, the remainder and the published fills of the pure matching function, with every array invariant restored |
| OrderBooks.OrderBook.RestOrder | W16CryptoEngine/engine/src/order_book.cpp:291-318 | the remainder rests at its limit with index entry and best price updated, or is dropped when no order slot is free; the path that gives the slot back is never taken |
| OrderBooks.OrderBook.AddLimitOrder | W16CryptoEngine/engine/src/order_book.cpp:274-319 | refines the pure operation: same book afterwards, same fills in the same order |
| OrderBooks.OrderBook.AddMarketOrder | W16CryptoEngine/engine/src/order_book.cpp:321-332 | refines the pure operation: same book afterwards, same fills in the same order |
| OrderBooks.OrderBook.CancelOrder | W16CryptoEngine/engine/src/order_book.cpp:334-358 | reports true exactly when the bucket is in use, and refines the pure cancel |
| OrderBooks.OrderBook.TopBids | W16CryptoEngine/engine/src/order_book.cpp:360-369 | returns exactly the best levels, at most max_depth, with their totals and counts; the true totals when orders are below 2^47 |
| OrderBooks.OrderBook.TopAsks | W16CryptoEngine/engine/src/order_book.cpp:371-380 | returns exactly the best levels, at most max_depth, with their totals and counts; the true totals when orders are below 2^47 |
| BookGuarantees.SlotsAccounted | W16CryptoEngine/engine/src/order_book.cpp:44-67 | in every valid book each of the 131072 order slots and 16384 level slots is exactly once in use or on its free stack |
| BookGuarantees.LevelSlotsLeft | W16CryptoEngine/engine/src/order_book.cpp:77-78 | the level pool never runs dry: distinct prices in 1..9999 leave more than 6384 level slots free |
| BookGuarantees.BestPrices | W16CryptoEngine/engine/src/order_book.cpp:145-149 | cached best prices are those of the first levels, and the bid is below the ask |
| BookGuarantees.PriceMapExact | W16CryptoEngine/engine/src/order_book.cpp:71-87 | a price map entry is set exactly at the prices with a level, and names the slot with that level's price, count, head and tail; no live level is empty |
| BookGuarantees.LevelTotals | W16CryptoEngine/engine/src/order_book.cpp:167 | in every valid book with orders below 2^47 the 64-bit total of a level slot is the true sum of its orders |
| BookGuarantees.IndexNeverDangles | W16CryptoEngine/engine/src/order_book.cpp:309-312 | an index entry in use names a live order, its level slot and its side, even when ids collide |
| SlotPartition.TotalsExact | W16CryptoEngine/engine/src/order_book.cpp:167 | with quantities below 2^47 the 64-bit level total is the true sum |
| SlotPartition.OrderSlotsPartition | W16CryptoEngine/engine/src/order_book.cpp:59-67 | order slots in the queues and on the free stack are distinct and make up the pool |
| SlotPartition.LevelSlotsPartition | W16CryptoEngine/engine/src/order_book.cpp:77-78 | level slots in the lists and on the free stack are distinct and make up the pool |
| BookSteps.PendingLevelPool | W16CryptoEngine/engine/src/order_book.cpp:304-305 | when a limit order looks for its level a level slot is free |
| BookSafety.AddLimitKeeps | W16CryptoEngine/engine/src/order_book.cpp:274-319 | sorted sides, first-in-first-out levels, no empty level, no crossed prices, no dangling index entry: kept by every limit order |
| BookSafety.AddMarketKeeps | W16CryptoEngine/engine/src/order_book.cpp:321-332 | the same, for every market order |
| BookSafety.CancelKeeps | W16CryptoEngine/engine/src/order_book.cpp:334-358 | the same, for every cancel |
| BookSafety.LevelsBounded | W16CryptoEngine/engine/include/order_book.hpp:14 | uncrossed sides have fewer than 10000 levels together |
| BookSafety.MatchKeeps | W16CryptoEngine/engine/src/order_book.cpp:227-271 | matching keeps the resting side sound and stops only when nothing more can trade |
| PriceTime.PriceTimePriority | W16CryptoEngine/engine/src/order_book.cpp:227-266 | closed form of matching: the k-th fill exists if and only if the taker reaches the k-th order of the priority list, and is with it, at its price, for what the orders before it leave |
| PriceTime.RestingAfter | W16CryptoEngine/engine/src/order_book.cpp:253-270 | what is left of the resting side and of the taker, in closed form |
| PriceTime.FlattenSorted | W16CryptoEngine/engine/src/order_book.cpp:101-109 | of two orders on the priority list the first has the better price, or the same and arrived first |
| PriceTime.MatchIsSweep | W16CryptoEngine/engine/src/order_book.cpp:227-271 | matching level by level is one sweep of the priority list |
| PriceTime.FillIsFair | W16CryptoEngine/engine/src/order_book.cpp:190-212 | the fills of a limit order from the order alone: the k-th exists if and only if the limit is in 1..9999, the k-th order of the other side is priced within it, and those before offer less than is asked for; both parties, the maker's price, the exact quantity and the next number |
| PriceTime.MarketFillIsFair | W16CryptoEngine/engine/src/order_book.cpp:321-332 | the fills of a market order from the order alone: the k-th exists if and only if there is a k-th order on the other side and those before offer less than is asked for, at whatever price; all its fields |
| PriceTime.MarketLeaves | W16CryptoEngine/engine/src/order_book.cpp:321-332 | nothing of a market order rests, and the other side loses exactly what was traded |
| PriceTime.CountersAfter | W16CryptoEngine/engine/src/order_book.cpp:274-283 | an accepted order sets the book's sequence and raises the counters; any other order changes nothing |
| PriorityList.LimitRests | W16CryptoEngine/engine/src/order_book.cpp:291-318 | the own side after a limit order is the old priority list with the remainder put in, nothing else changed |
| PriorityList.RestedOnce | W16CryptoEngine/engine/src/order_book.cpp:304-307 | resting inserts one order into the priority list |
| PriorityList.RemovedOnce | W16CryptoEngine/engine/src/order_book.cpp:347-355 | cancelling takes one order out of the priority list |
| CancelIndex.CancelSucceeds | W16CryptoEngine/engine/src/order_book.cpp:334-338 | without a collision a cancel succeeds exactly for live ids |
| CancelIndex.CancelExact | W16CryptoEngine/engine/src/order_book.cpp:340-357 | and removes exactly the order with that id |
| CancelIndex.AddLimitIndexed | W16CryptoEngine/engine/src/order_book.cpp:309-312 | a limit order in an unused bucket keeps every live order cancellable |
| CancelCollisions.SucceedsExactly | W16CryptoEngine/engine/src/order_book.cpp:334-338 | in an indexed book, cancelling tells truly whether the id is live if and only if no other live id is in its bucket |
| CancelCollisions.RestIndexedExactly | W16CryptoEngine/engine/src/order_book.cpp:309-312 | an order that comes to rest keeps all live orders cancellable if and only if its bucket was unused |
| CancelCollisions.CollisionCancelsAnother | W16CryptoEngine/engine/src/order_book.cpp:335-357 | a run of two orders with colliding ids in which cancelling the first takes out the second |
| CancelCollisions.SameBucketExactly | W16CryptoEngine/engine/src/order_book.cpp:309 | two ids share a bucket if and only if their hashes differ by a multiple of 131072 |
| BookRuns.EveryRun | W16CryptoEngine/engine/src/order_book.cpp:274-358 | over every run of orders and cancels: the book stays well formed, every unit ordered is filled, resting, cancelled or discarded, and fills are positive and numbered 1, 2, 3, ... |
| CancelRuns.RunIndexedExactly | W16CryptoEngine/engine/src/order_book.cpp:309-312 | over every run: every live order can be cancelled by its id all the time if and only if each order that comes to rest finds its bucket unused at that moment |
| CancelRuns.CancellableExactly | W16CryptoEngine/engine/src/order_book.cpp:334-358 | in every run, collisions or not: an order can be cancelled at some later time if and only if a bucket of the cancel index names it now |
| CancelRuns.NeverCancelled | W16CryptoEngine/engine/src/order_book.cpp:334-358 | an order that no bucket names is not cancelled in any continuation, by any id |
| CancelRuns.CollisionStrands | W16CryptoEngine/engine/src/order_book.cpp:309-312 | an order that comes to rest on a bucket in use takes it over, and the order named there before can never be cancelled again |
| BookRuns.MatchConserves | W16CryptoEngine/engine/src/order_book.cpp:253-255 | matching neither makes nor loses quantity, for maker and taker |
| RingProtocol.EveryInterleaving | W16CryptoEngine/engine/include/spsc_queue.hpp:28-51 | under every interleaving with stale loads: popped is a prefix of pushed, at most capacity - 1 items are held, and no slot is touched by both threads unordered |
| RingProtocol.StepKeeps | W16CryptoEngine/engine/include/spsc_queue.hpp:28-51 | each single atomic access or buffer access keeps the invariant |
| RingProtocol.WriteOrdered | W16CryptoEngine/engine/include/spsc_queue.hpp:32-36 | the producer has seen every read of the slot it is about to write |
| RingProtocol.ReadOrdered | W16CryptoEngine/engine/include/spsc_queue.hpp:44-48 | the consumer has seen every write of the slot it is about to read |
| RingProtocol.WaitFree | W16CryptoEngine/engine/include/spsc_queue.hpp:28-51 | wherever a push or a pop stands, its next step is enabled and in range |
| RingProtocol.RefusedWhenFull | W16CryptoEngine/engine/include/spsc_queue.hpp:32-34 | a push is refused exactly when the ring holds capacity - 1 items as far as the producer can tell |
| RingProtocol.RefusedWhenEmpty | W16CryptoEngine/engine/include/spsc_queue.hpp:44-46 | a pop is refused exactly when no item is visible |
| RingProtocol.SizeExact | W16CryptoEngine/engine/include/spsc_queue.hpp:53-62 | at rest, size() is the number of items wherever the indices have wrapped, and empty() is exact |
| Masks.MaskIsMod | W16CryptoEngine/engine/include/spsc_queue.hpp:19 | masking with a power of two less one is the remainder |
| SpscQueues.SpscQueue.constructor | W16CryptoEngine/engine/include/spsc_queue.hpp:15-22 | the empty ring |
| SpscQueues.SpscQueue.WriteItem | W16CryptoEngine/engine/include/spsc_queue.hpp:36 | the item is written in the slot of the loaded tail, which is in range; nothing else changes |
| SpscQueues.SpscQueue.StoreTail | W16CryptoEngine/engine/include/spsc_queue.hpp:37 | the next index is published and the item counts as pushed |
| SpscQueues.SpscQueue.ReadItem | W16CryptoEngine/engine/include/spsc_queue.hpp:48 | the item in the slot of the loaded head is copied, which is in range; nothing else changes |
| SpscQueues.SpscQueue.StoreHead | W16CryptoEngine/engine/include/spsc_queue.hpp:49 | the next index is published and the item counts as popped |
| SpscQueues.SpscQueue.Push | W16CryptoEngine/engine/include/spsc_queue.hpp:28-39 | undisturbed, appends the item exactly if fewer than capacity - 1 are held |
| SpscQueues.SpscQueue.Pop | W16CryptoEngine/engine/include/spsc_queue.hpp:41-51 | undisturbed, returns the oldest item exactly if there is one |
| SpscQueues.SpscQueue.Size | W16CryptoEngine/engine/include/spsc_queue.hpp:53-57 | the number of items |
| BumpAllocators.EveryInterleaving | W16CryptoEngine/engine/include/spsc_queue.hpp:107-126 | for any threads in any interleaving of small requests, with spurious failures and stale loads: blocks are 64-byte aligned, inside the buffer, disjoint, and account for every byte used |
| BumpAllocators.SafeExactly | W16CryptoEngine/engine/include/spsc_queue.hpp:107-126 | in a buffer of any size, all runs with requests up to n bytes keep blocks inside and apart if and only if size plus n rounded up to lines stays below 2^64 |
| BumpAllocators.StepKeeps | W16CryptoEngine/engine/include/spsc_queue.hpp:107-126 | each load and each exchange of small requests keeps the invariant |
| BumpAllocators.RefusedWhenFull | W16CryptoEngine/engine/include/spsc_queue.hpp:111-122 | a call gives up exactly when the request does not fit behind the offset it read |
| BumpAllocators.AlignedIs | W16CryptoEngine/engine/include/spsc_queue.hpp:109 | the masked sum is the size rounded up to 64 bytes, or 0 once that reaches 2^64 |
| BumpAllocators.FitsExactly | W16CryptoEngine/engine/include/spsc_queue.hpp:111 | the wrapped check accepts a request if and only if it fits or its end passes 2^64 |
| BumpAllocators.GrantInside | W16CryptoEngine/engine/include/spsc_queue.hpp:111-125 | one accepted block lies inside the buffer if and only if its rounded end stays below 2^64 |
| BumpAllocators.HugeRequestOverlaps | W16CryptoEngine/engine/include/spsc_queue.hpp:107-126 | for every size and every request that is not small: a run in which a block ends behind the buffer and two blocks start at the same byte |
| BumpAllocators.BumpAllocator.CompareExchange | W16CryptoEngine/engine/include/spsc_queue.hpp:115-118 | succeeds exactly if the value is current and the failure is not spurious, and grants the block; otherwise refreshes current |
| BumpAllocators.BumpAllocator.Allocate | W16CryptoEngine/engine/include/spsc_queue.hpp:107-126 | undisturbed, returns the old offset exactly if the check passes, however often the exchange fails |
| ProbeTables.ProbeTable.Find | W16CryptoEngine/engine/src/main.cpp:87-95 | returns the book first inserted under the id, or nothing, for any hash function |
| ProbeTables.ProbeTable.Insert | W16CryptoEngine/engine/src/main.cpp:97-109 | adds the key, or for a known key a copy that is never found; fails exactly when all 256 buckets are taken, without copies exactly with 256 keys |
| ProbeTables.InsertedOk | W16CryptoEngine/engine/src/main.cpp:97-109 | writing into the first free bucket of the probe path adds a new key, changes nothing for a known one, and keeps every other key reachable |
| ProbeTables.GapMeansAbsent | W16CryptoEngine/engine/src/main.cpp:91 | a probe that meets an empty bucket shows that the key is absent |
| ProbeTables.NoCopies | W16CryptoEngine/engine/src/main.cpp:89-93 | no key is stored twice if and only if there are as many taken buckets as keys |
| Wire.EncodeOrder | W16CryptoEngine/api/crates/messaging/src/lib.rs:166-178 | 71 bytes that the engine decodes to the same order |
| Wire.EncodeCancel | W16CryptoEngine/api/crates/messaging/src/lib.rs:180-187 | 41 bytes that the engine decodes to the same cancel |
| Wire.OrderRoundTrip | W16CryptoEngine/engine/src/main.cpp:162-176 | decoding at the engine's offsets gives back every field |
| Wire.CancelRoundTrip | W16CryptoEngine/engine/src/main.cpp:186-189 | decoding at the engine's offsets gives back every field |
| Wire.OrderLayout | W16CryptoEngine/api/crates/messaging/src/lib.rs:166-178 | where each field stands in the 71 bytes of an order, with the values of side, kind and operation |
| Wire.CancelLayout | W16CryptoEngine/api/crates/messaging/src/lib.rs:180-187 | where each field stands in the 41 bytes of a cancel |
| Wire.DecodeExactly | W16CryptoEngine/engine/src/main.cpp:158-189 | any message: operation 1 and 71 bytes are an order, operation 2 and 41 bytes a cancel, all else is ignored; each field from its offset |
| Wire.OrderImage | W16CryptoEngine/engine/src/main.cpp:162-176 | a message is an encoded order if and only if it is 71 bytes with side and kind 0 or 1 |
| Wire.CancelImage | W16CryptoEngine/engine/src/main.cpp:186-189 | a message is an encoded cancel if and only if it decodes to one and is 41 bytes |
| Wire.TailIgnored | W16CryptoEngine/engine/src/main.cpp:162-189 | bytes after the 71 or 41 do not matter |
| LittleEndian.ReadU32 | W16CryptoEngine/engine/include/wire.hpp:7-14 | the number whose four bytes stand there, least significant first |
| LittleEndian.ReadU64 | W16CryptoEngine/engine/include/wire.hpp:16-23 | the number whose eight bytes stand there, least significant first |
| LittleEndian.Reads32 | W16CryptoEngine/engine/include/wire.hpp:7-14 | the value of each of the four bytes |
| LittleEndian.Reads64 | W16CryptoEngine/engine/include/wire.hpp:16-23 | two numbers of four bytes, the lower one first |
| WriteAheadLog.Wal.Append | W16CryptoEngine/engine/src/wal.cpp:27-33 | the file grows by exactly the bytes of one record, numbered next_sequence |
| WriteAheadLog.Wal.Recover | W16CryptoEngine/engine/src/wal.cpp:44-70 | returns the whole records at the start of the file and continues after the largest number |
| WriteAheadLog.CrashPrefix | W16CryptoEngine/engine/src/wal.cpp:44-70 | for any records and any byte cut of their file, recovery returns exactly the records wholly before the cut |
| WriteAheadLog.WholeIs | W16CryptoEngine/engine/src/wal.cpp:52-66 | which are all those that end inside the cut, and no more |
| WriteAheadLog.ParseFile | W16CryptoEngine/engine/src/wal.cpp:27-33 | the uncut file gives back all records |
| WriteAheadLog.ParseSound | W16CryptoEngine/engine/src/wal.cpp:52-66 | for any bytes at all, recovery returns what stands at their start and leaves no whole record behind |
| WriteAheadLog.MaxSequenceIs | W16CryptoEngine/engine/src/wal.cpp:64-68 | recovery continues behind the largest number of all records, wherever it stands |
| WriteAheadLog.EverySequence | W16CryptoEngine/engine/src/wal.cpp:32 | over any appends and restarts at record boundaries the records are numbered 1, 2, 3, ... |
| WriteAheadLog.Live | W16CryptoEngine/engine/src/wal.cpp:27-70 | the same on log objects and file bytes, over any number of processes: the file is exactly the bytes of those records and the counters of the object are theirs |
| WriteAheadLog.NewerUntilWrap | W16CryptoEngine/engine/src/wal.cpp:32 | the next number is new exactly until the 64-bit counter is used up |
| WriteAheadLog.TornBytesHideAppends | W16CryptoEngine/engine/src/wal.cpp:27-70 | behind any torn bytes: of two records that differ in their last payload byte only, at least one is never recovered, for any number, operation and payload |
| WriteAheadLog.AppendsSurviveExactly | W16CryptoEngine/engine/src/wal.cpp:27-70 | whatever is appended after a recovery is found by the next one if and only if the recovered records are all the bytes of the file; already so for the one record with the next number, for any operation and payload length |
| Replay.ReplayIsFaithful | W16CryptoEngine/engine/src/main.cpp:158-197 | replaying the logged payloads from an empty engine gives the same books, fills and log |
| Replay.CrashReplay | W16CryptoEngine/engine/src/main.cpp:213-214 | for any byte cut of the log file, recovering and replaying gives the state after some of the messages, none skipped, as many as were wholly logged |
| Replay.WholeFileReplay | W16CryptoEngine/engine/src/main.cpp:213-214 | with the file whole, the state after all messages |
| Replay.KeptDecodes | W16CryptoEngine/engine/src/main.cpp:177 | the logged payload says what the message said if and only if its length modulo 2^32 covers the fields |
| Replay.LoneOrder | W16CryptoEngine/engine/src/main.cpp:177 | a single order is replayed if and only if its length modulo 2^32 is at least 71 |
| Replay.OrderHidden | W16CryptoEngine/engine/src/wal.cpp:27-70 | behind any torn file an order of any fields but its sequence can be logged, with the next number, that is not recovered |
| EngineMessages.OrderIsServed | W16CryptoEngine/engine/src/main.cpp:161-184 | from the bytes of an order message to its fills: which there are, and that they name the message's order, user, market and side |
| EngineMessages.OrderIsAdded | W16CryptoEngine/engine/src/main.cpp:161-184 | an order message changes the book of its market only, by the operation and the arguments it carries; without room it stops the engine |
| EngineMessages.CancelIsServed | W16CryptoEngine/engine/src/main.cpp:185-197 | a cancel message cancels by its order id on the book of its market, or does nothing without one |
| EngineMessages.LoggedExactly | W16CryptoEngine/engine/src/main.cpp:174-195 | an order is logged as it came with operation 1, a cancel with operation 2 if its market has a book |
| EngineMessages.OthersAreIgnored | W16CryptoEngine/engine/src/main.cpp:158-189 | any other message changes and logs nothing |
| MarketIsolation.EveryMarketIsARun | W16CryptoEngine/engine/src/main.cpp:125-197 | with orders for at most 256 markets, each market's book and fills are those of a run of its own commands, whatever else is served |
| MarketIsolation.EveryBookWellFormed | W16CryptoEngine/engine/src/main.cpp:125-197 | so every book of the engine is well formed and each market's fills are numbered without gaps |
| MarketIsolation.StopsAt257 | W16CryptoEngine/engine/src/main.cpp:153-155 | the engine dies if and only if orders come for more than 256 markets; until then it has a book for exactly the markets ordered in |
| MarketIsolation.MarketsBounded | W16CryptoEngine/engine/src/main.cpp:84 | at most 256 markets |
| MarketIsolation.TwoProcesses | W16CryptoEngine/engine/src/main.cpp:210-220 | replaying a log that two processes have written gives each market the book of one run of both, and of a market that only one had orders in the book that process had |
| Engines.Engine.constructor | W16CryptoEngine/engine/src/main.cpp:119-123 | an engine without books |
| Engines.Engine.GetOrCreate | W16CryptoEngine/engine/src/main.cpp:125-156 | the book object of the market, the same one every time, made when there is none; fails only for a 257th market |
| Engines.Engine.Dispatch | W16CryptoEngine/engine/src/main.cpp:158-198 | with real book objects, table and log: does to the books what the pure dispatch does, and logs exactly its entry |
| Engines.Engine.Recover | W16CryptoEngine/engine/src/main.cpp:213-214 | reads the records; the books stay empty |
| Engines.ServeAll | W16CryptoEngine/engine/src/main.cpp:210-220 | from start, on an empty log or behind earlier processes, through any messages: books and fills of the pure engine, and a log file with exactly the earlier records and its own |
| Ledgers.Db.RecordDeposit | W16CryptoEngine/api/crates/db/src/balances.rs:148-178 | the transaction as specified, rolled back if a constraint or the column range fails |
| Ledgers.Db.UpsertAvailable | W16CryptoEngine/api/crates/db/src/balances.rs:23-35 | inserts or adds; fails exactly if the column would not hold the value |
| Ledgers.Db.CreditBalance | W16CryptoEngine/api/crates/db/src/balances.rs:23-35 | the credit as specified, or nothing |
| Ledgers.Db.ReserveBalance | W16CryptoEngine/api/crates/db/src/balances.rs:37-59 | moves the amount to the reserved balance, or reports insufficient balance or a violated column |
| Ledgers.Db.ReleaseReservation | W16CryptoEngine/api/crates/db/src/balances.rs:61-74 | moves the amount back, clamped at zero; nothing without a row |
| Ledgers.Db.ApplyFillBalances | W16CryptoEngine/api/crates/db/src/balances.rs:76-109 | both updates of a fill or neither |
| Ledgers.Db.CreateWithdrawal | W16CryptoEngine/api/crates/db/src/withdrawals.rs:28-72 | the transaction as specified: insufficient balance, constraint violation, or balance, withdrawal and hold together |
| Ledgers.Db.ApproveWithdrawal | W16CryptoEngine/api/crates/db/src/withdrawals.rs:74-109 | the transaction as specified, with every failure rolled back |
| Ledgers.Db.RejectWithdrawal | W16CryptoEngine/api/crates/db/src/withdrawals.rs:111-147 | the transaction as specified, with every failure rolled back |
| LedgerSpec.EveryRun | W16CryptoEngine/api/crates/db/src/withdrawals.rs:28-147 | over every run of deposits, credits, withdrawals, order reservations and fills: balances non-negative, holds one to one with pending withdrawals; a user's account adds up all the time if and only if no event that took effect on it took more for orders than was reserved beyond the holds |
| LedgerSpec.WithoutOrders | W16CryptoEngine/api/crates/db/src/withdrawals.rs:28-147 | without orders the reserved balance is the sum of the holds, and available plus reserved plus paid out is what came in |
| LedgerSpec.WithdrawalExactly | W16CryptoEngine/api/crates/db/src/withdrawals.rs:28-72 | a request commits if and only if the amount is positive and available, fits the reserved column and the id is new; which failure otherwise; every row it writes |
| LedgerSpec.DecideExactly | W16CryptoEngine/api/crates/db/src/withdrawals.rs:74-147 | a decision commits if and only if the withdrawal is pending and a refund fits; every row it writes |
| LedgerSpec.DepositExactly | W16CryptoEngine/api/crates/db/src/balances.rs:148-178 | a deposit commits if and only if it is positive and fits the column; what it writes |
| LedgerSpec.CreditExactly | W16CryptoEngine/api/crates/db/src/balances.rs:23-35 | a credit commits if and only if the balance stays within the column; what it writes |
| LedgerSpec.ReserveExactly | W16CryptoEngine/api/crates/db/src/balances.rs:37-59 | a reservation commits if and only if the amount is available and both columns stay in range; which failure otherwise; what it writes |
| LedgerSpec.ReleaseExactly | W16CryptoEngine/api/crates/db/src/balances.rs:61-74 | a release commits if and only if both columns stay in range or there is no row; what it writes |
| LedgerSpec.HoldsCoveredExactly | W16CryptoEngine/api/crates/db/src/balances.rs:37-109 | over every run: the reserved balance covers a user's holds all the time if and only if no release or fill took more than was reserved beyond them while there were any |
| LedgerSpec.ExchangeCovers | W16CryptoEngine/api/crates/db/src/balances.rs:76-109 | a fill, with both its updates and also with one user on both sides, leaves the holds covered if and only if it takes no more than what is reserved beyond them, or there are none |
| LedgerSpec.DecisionIsExact | W16CryptoEngine/api/crates/db/src/withdrawals.rs:91-135 | a decision moves exactly the held amount if and only if that much is reserved, as it is while the account adds up; otherwise a rejection adds exactly what is missing |
| LedgerSpec.FillUsesHold | W16CryptoEngine/api/crates/db/src/balances.rs:84-93 | for any amounts, a run in which a fill uses up a hold and the rejection refunds the whole amount all the same |
| LedgerSpec.DecidedOnce | W16CryptoEngine/api/crates/db/src/withdrawals.rs:77-89 | once decided, a withdrawal never changes and later decisions fail |
| LedgerSpec.PendingCanBeDecided | W16CryptoEngine/api/crates/db/src/withdrawals.rs:128-135 | a pending withdrawal can be approved; it can be rejected if and only if the refund fits the column |
| FillProcessors.FillProcessor.InsertFillDedup | W16CryptoEngine/api/crates/db/src/fills.rs:48-74 | refused by a CHECK constraint, duplicate or inserted, keyed on market and sequence |
| FillProcessors.FillProcessor.RecordPositionChange | W16CryptoEngine/api/crates/db/src/positions.rs:19-37 | appends one change |
| FillProcessors.FillProcessor.Process | W16CryptoEngine/api/crates/positions/src/lib.rs:48-107 | a new fill is inserted, paid, recorded as two opposite changes and put into its orders, as far as it comes before a failure; any other fill changes nothing |
| FillProcessors.FillCostIs | W16CryptoEngine/api/crates/positions/src/lib.rs:76-79 | the cost is price times quantity over 10000, rounded down, or 0 if the product does not fit 64 bits |
| FillProcessors.PaidExactly | W16CryptoEngine/api/crates/positions/src/lib.rs:76-83 | the cost leaves the reserved balances of taker and maker, not below zero, and goes to the maker's available balance, if and only if the fill is new, gets past its insertion and the balance has room |
| FillProcessors.FillProcessor.UpdateOrders | W16CryptoEngine/api/crates/positions/src/lib.rs:109-131 | the maker's and the taker's order rows take the fill, where the constraints of the table allow it |
| FillProcessors.OrdersReflectFills | W16CryptoEngine/api/crates/positions/src/lib.rs:31-106 | if every fill goes through when it first comes in, the orders table reflects each fill once, however often it is delivered |
| OrderFills.FilledExactly | W16CryptoEngine/api/crates/positions/src/lib.rs:109-131 | an order's filled quantity is what its fills give it if and only if that is no more than its quantity; its status is then filled exactly if it is all of it |
| FillProcessors.FillProcessor.RunLoop | W16CryptoEngine/api/crates/positions/src/lib.rs:31-46 | a delivery, fill by fill; the positions are as if nothing had failed if and only if no fill is interrupted when it first comes in and no maker's balance column overflows |
| FillProcessors.GoesThroughExactly | W16CryptoEngine/api/crates/positions/src/lib.rs:64-94 | both changes of every first delivery are recorded if and only if it is not interrupted and the maker's balance has room for its fills up to there |
| FillProcessors.TradeCommits | W16CryptoEngine/api/crates/db/src/balances.rs:76-109 | the balances of a fill are updated if and only if the maker's balance has room for the cost |
| PositionSpec.ExactlyOnce | W16CryptoEngine/api/crates/positions/src/lib.rs:64-94 | any delivery of a run's fills, with duplicates and in any order, gives the positions of applying each fill once |
| PositionSpec.OrderAndDuplicatesDoNotMatter | W16CryptoEngine/api/crates/positions/src/lib.rs:64-74 | two deliveries of the same fills give the same positions |
| PositionSpec.NetIsSum | W16CryptoEngine/api/crates/db/src/positions.rs:58-67 | the summed changes of a user are the sum over the distinct fills received |
| PositionSpec.SecondRunIsDropped | W16CryptoEngine/api/crates/db/src/fills.rs:54 | of fills delivered behind others exactly those with a known key are lost; each of the others counts once |
| PositionSpec.FailuresLose | W16CryptoEngine/api/crates/positions/src/lib.rs:64-94 | a failure after the insertion is for good: each position lacks exactly the changes that first attempts have missed |
| PositionSpec.CompleteExactly | W16CryptoEngine/api/crates/positions/src/lib.rs:64-94 | the tables are those of a delivery without failures if and only if the first attempt at each acceptable fill records both changes |
| PositionSpec.CountsFirsts | W16CryptoEngine/api/crates/positions/src/lib.rs:64-94 | any delivery whatever counts each key once, for the acceptable fill that came first |
| PositionSpec.RecordedIsHeld | W16CryptoEngine/api/crates/positions/src/lib.rs:85-94 | the recorded position of a user is what the user holds if and only if the user's fills with a selling taker cancel out |
| PositionSpec.SellerGoesLong | W16CryptoEngine/api/crates/positions/src/lib.rs:85-94 | one fill with a selling taker, of any quantity: the seller is recorded long and the buyer short |
| PositionSpec.ZeroSum | W16CryptoEngine/api/crates/positions/src/lib.rs:85-94 | after any delivery without failures the positions of every market add up to zero |
| EngineFills.EngineFillsDistinct | W16CryptoEngine/engine/src/order_book.cpp:249 | in an engine run no two fills of a market share a sequence number |
| EngineFills.EngineToPositions | W16CryptoEngine/api/crates/positions/src/lib.rs:64-94 | from the engine's messages to the positions recorded: each fill counts exactly once, with the taker as buyer |
| EngineFills.EngineRecordsHeld | W16CryptoEngine/api/crates/positions/src/lib.rs:85-94 | the positions recorded for an engine run are what the users hold if and only if fills with a selling taker cancel out |
| EngineFills.RestartDistinctExactly | W16CryptoEngine/engine/src/order_book.cpp:249 | two runs of the engine make fills with different keys if and only if they have no fills in a common market |
| EngineFills.KeyKnownExactly | W16CryptoEngine/api/crates/db/src/fills.rs:54 | a fill of a restarted engine has a key of the run before if and only if its number is at most the number of fills that run made in its market |
| EngineFills.RestartPositions | W16CryptoEngine/api/crates/positions/src/lib.rs:64-94 | delivered in order, exactly those fills of the second run are lost to the positions |
| EngineFills.RestartDeliveries | W16CryptoEngine/api/crates/db/src/fills.rs:54 | however the fills of two runs are delivered, mixed and repeated: each market counts one fill for each number up to the larger of the two counts, the one that came first |
| FillPrices.EngineFillsPriced | W16CryptoEngine/engine/src/order_book.cpp:282 | every fill of an engine has a price in 1..9999 and a positive quantity |
| EngineFills.EngineFillsAcceptable | W16CryptoEngine/api/crates/db/src/fills.rs:48-54 | every fill of an engine with a quantity below 2^63 meets the CHECK constraints of the fills table |
| SettlementSpec.ComputePayouts | W16CryptoEngine/api/crates/settlement/src/lib.rs:41-60 | the two loops: long positions get their shares on Yes, nobody on No |
| SettlementSpec.PayoutIsShorts | W16CryptoEngine/api/crates/settlement/src/lib.rs:39-60 | after any delivery a Yes settlement pays exactly the total short quantity recorded, at most the quantity traded; a No settlement nothing |
| SettlementSpec.EachIsPaidTheirShares | W16CryptoEngine/api/crates/settlement/src/lib.rs:41-58 | each user is paid the recorded positive position |
| SettlementSpec.PaidForShares | W16CryptoEngine/api/crates/settlement/src/lib.rs:41-58 | a user is paid for the shares really held if and only if the user's fills with a selling taker cancel out, or the user is long neither in truth nor on record |
| Settlements.SettlementService.ApplySettlementPayouts | W16CryptoEngine/api/crates/db/src/balances.rs:111-146 | all credits and the market's status and outcome, or none |
| Settlements.SettlementService.Settle | W16CryptoEngine/api/crates/settlement/src/lib.rs:16-76 | succeeds exactly on an open or paused market whose time has come and whose credits fit, if the row type fits the query or nobody has a position; which refusal otherwise; the market is settled with the outcome given, each user is paid the recorded long position; never a second time |
| AlgoPlans.CreateTwap | W16CryptoEngine/api/crates/analytics/src/execution.rs:99-120 | the slices sum to the quantity; panics exactly with no slices |
| AlgoPlans.TwapShape | W16CryptoEngine/api/crates/analytics/src/execution.rs:103-117 | equal slices, a last one larger by less than their number, a schedule inside the window |
| AlgoPlans.CreateVwap | W16CryptoEngine/api/crates/analytics/src/execution.rs:161-196 | with any rounding of 28-digit decimals: each slice is its weighted share rounded down within their error, the slices sum to the quantity, the remainder cannot underflow |
| AlgoPlans.VwapSchedule | W16CryptoEngine/api/crates/analytics/src/execution.rs:168-193 | the i-th slice comes i parts of the window after now, rounded down; the schedule never goes back and stays inside the window |
| AlgoPlans.ThreeThirds | W16CryptoEngine/api/crates/analytics/src/execution.rs:168-175 | three units in three equal slices whose shares come out a last digit below one: the first two slices get nothing |
| AlgoPlans.CreateIceberg | W16CryptoEngine/api/crates/analytics/src/execution.rs:230-246 | slices in 1..visible that sum to the total if their number fits 32 bits, and otherwise to one visible slice, which is less |
| VolumeProfiles.VolumeProfile.UpdateVolume | W16CryptoEngine/api/crates/analytics/src/execution.rs:330-361 | keeps the last 1000 reports, and every weight between 1/24 and 2: the clamped ratio of averages, or unchanged |
| VolumeProfiles.WeightIs | W16CryptoEngine/api/crates/analytics/src/execution.rs:342-359 | a weight is the ratio of the hour's average to the average of all, or the bound of 1/2 or 2 it would pass, and stays without reports |
| VolumeProfiles.Tally | W16CryptoEngine/api/crates/analytics/src/execution.rs:342-349 | totals and counts by hour, which add up to all reports |
| VolumeProfiles.Weights | W16CryptoEngine/api/crates/analytics/src/execution.rs:161-168 | slice i takes the weight of the i-th hour from now, or all are equal; none is more than 48 times another |
| AlgoEngines.ExecutionEngine.CreateTwapOrder | W16CryptoEngine/api/crates/analytics/src/execution.rs:89-143 | a fresh plan for the whole quantity is entered, slice by slice as planned |
| AlgoEngines.ExecutionEngine.CreateVwapOrder | W16CryptoEngine/api/crates/analytics/src/execution.rs:145-219 | a fresh plan for the whole quantity is entered, by the weights of the coming hours |
| AlgoEngines.ExecutionEngine.CreateIcebergOrder | W16CryptoEngine/api/crates/analytics/src/execution.rs:221-269 | a fresh plan is entered, all slices but the last of the visible size |
| AlgoEngines.ExecutionEngine.CancelOrder | W16CryptoEngine/api/crates/analytics/src/execution.rs:320-328 | true exactly for a known order, which is then cancelled |
| AlgoEngines.ExecutionEngine.RunTick | W16CryptoEngine/api/crates/analytics/src/execution.rs:371-467 | one tick of the executor, order by order and child by child |
| AlgoExecution.VisitExactly | W16CryptoEngine/api/crates/analytics/src/execution.rs:378-466 | one turn: each pending child whose time has come is submitted or has failed, every other stays; only running and waiting orders get one; complete exactly with all children filled |
| AlgoExecution.TickExactly | W16CryptoEngine/api/crates/analytics/src/execution.rs:374-466 | after a tick no child of a visited order is left pending whose time has come, and nothing else has moved |
| AlgoExecution.TickSubmits | W16CryptoEngine/api/crates/analytics/src/execution.rs:374-466 | a tick submits exactly the children that are pending, due and go through |
| AlgoExecution.NeverEarly | W16CryptoEngine/api/crates/analytics/src/execution.rs:391 | over every run each submission is made by a tick at or after the time its child was scheduled for |
| AlgoExecution.NeverOvertrades | W16CryptoEngine/api/crates/analytics/src/execution.rs:374-466 | over any run with creations and cancels at any time: each child is submitted at most once, and no more than the order in total |
| AlgoExecution.CancelStops | W16CryptoEngine/api/crates/analytics/src/execution.rs:320-328 | after a cancel nothing of the order is submitted in any continuation |
| AlgoExecution.EveryRun | W16CryptoEngine/api/crates/analytics/src/execution.rs:374-466 | what is submitted for an order is exactly its children marked submitted |
| PnlTrackers.PnLTracker.RecordFill | W16CryptoEngine/api/crates/analytics/src/pnl.rs:70-119 | a buy opens a lot; a sell closes the oldest shares and books the profit |
| PnlTrackers.PnLTracker.CloseLots | W16CryptoEngine/api/crates/analytics/src/pnl.rs:97-116 | the retain loop leaves exactly the specified lots and profit |
| PnlTrackers.PnLTracker.UpdatePrices | W16CryptoEngine/api/crates/analytics/src/pnl.rs:124-140 | marks every lot of the market, for all users |
| PnlTrackers.PnLTracker.UpdateBalance | W16CryptoEngine/api/crates/analytics/src/pnl.rs:306-310 | adds to the balance, starting from zero |
| LotSpec.LotsAreAQueue | W16CryptoEngine/api/crates/analytics/src/pnl.rs:81-116 | in every run the lots are the plain queue of single shares: all bought, less the oldest sold |
| LotSpec.BooksBalance | W16CryptoEngine/api/crates/analytics/src/pnl.rs:97-118 | in every run a user's balance is the sale proceeds less everything spent plus the cost of what is open |
| LotSpec.OldestFirst | W16CryptoEngine/api/crates/analytics/src/pnl.rs:100-116 | a sell closes the oldest shares, across lots, the last lot in part |
| LotSpec.ProfitIs | W16CryptoEngine/api/crates/analytics/src/pnl.rs:105-108 | the profit is the proceeds of the shares closed less what they cost |
| LotSpec.SellKeepsMarks | W16CryptoEngine/api/crates/analytics/src/pnl.rs:110-115 | a sell keeps unrealised profit exact if and only if no lot is closed in part, or that lot is marked at its entry price |
| LotSpec.PricesMakeMarksExact | W16CryptoEngine/api/crates/analytics/src/pnl.rs:124-140 | a price update makes every mark exact and leaves the shares as they are |
| LotSpec.NewLotIsExact | W16CryptoEngine/api/crates/analytics/src/pnl.rs:81-96 | a lot is entered at the fill's price and marked exactly at the price of the day |
| LotSpec.MarkExactly | W16CryptoEngine/api/crates/analytics/src/pnl.rs:124-140 | in the market all lots of all users are marked at the price, elsewhere none |
| LotSpec.WorthLessCost | W16CryptoEngine/api/crates/analytics/src/pnl.rs:129-136 | after a price update unrealised profit is the worth of the open shares less their cost |

## Left out

- Fill ids and timestamps: random or read from a clock; a fill here is everything else.
- The fill callback, NATS, HTTP, WebSocket, thread pinning, prefetches and log output: input and output. Published
  fills are a ghost sequence.
- The UUID hash (uuid.hpp): any function from ids to numbers, so all results hold for every hash.
- BookSpec.Bucket, ProbeTables.Home: the masks of the source are written as remainders; Masks.MaskIsMod is the reason.
- OrderBooks.OrderBook.FindOrCreateLevel: the source returns early for the first level of a side; here the walk over
  the empty list does the same.
- OrderBooks.OrderBook.RestOrder: the call that frees the order slot again when no level slot is free is an assertion
  that the case cannot happen.
- OrderBooks.OrderBook.CancelOrder: the bucket is cleared before the queue is unlinked, not between unlinking and
  freeing; the three writes go to different arrays.
- `top_bids` and `top_asks` share one loop, selected by side.
- RingProtocol.EveryInterleaving: acquire, release and coherence are taken as the C++ memory model states them;
  element copies are single steps.
- BumpAllocators.EveryInterleaving: requests are small, so that rounding and the end cannot pass 2^64;
  BumpAllocators.SafeExactly shows that this is the exact condition, for buffers up to 2^64 - 64 bytes. reset() is not
  a step.
- BumpAllocators.StepKeeps: requests are small, for the same reason.
- CancelCollisions.SucceedsExactly: asks for an indexed book; CancelRuns.RunIndexedExactly says in exactly which runs
  books are, and CancelRuns.CancellableExactly what can be cancelled in all others.
- ObjectPool, pool.hpp, snapshot.cpp, keccak256.hpp, crypto_fast.hpp: not part of this model. The pool starts empty
  and never hands anything out, the snapshot does not read back what it writes, and the hash permutation is not the
  standard one, so there is nothing of theirs to prove.
- WriteAheadLog.EverySequence: restarts are at record boundaries, which WriteAheadLog.AppendsSurviveExactly shows to
  be the exact condition, and there are fewer than 2^64 events. Stream buffering and fsync are covered only by cutting
  the file anywhere.
- Replay.ReplayIsFaithful: messages whose length modulo 2^32 does not cover their fields are logged short;
  Replay.KeptDecodes and Replay.LoneOrder give the exact condition.
- Engines.Engine.Dispatch: the null dereference for a 257th market is a flag that stops the engine; the mutex is a
  step boundary.
- LedgerSpec.EveryRun: the version columns, user rows and the deciding admin are left out.
- PositionSpec.ExactlyOnce: processing a fill does not fail midway; PositionSpec.CompleteExactly is the exact
  condition.
- FillProcessors.FillProcessor.InsertFillDedup: the foreign keys of the fills table; the orders, markets and users
  that a fill names are taken to have rows.
- EngineFills.EngineFillsAcceptable: the CHECK constraints only, for the same reason.
- FillProcessors.FillProcessor.Process: an order that cannot be loaded or updated for reasons outside the tables,
  which is only reported.
- Fill ids as primary keys: taken to be unique, as they are random.
- EngineFills.EngineToPositions: quantities are below 2^63, as the fills table demands.
- Settlements.SettlementService.Settle: two settlements do not run at the same time; sums are not bounded to 64 bits.
- AlgoPlans.CreateVwap: decimals enter as any function within the stated error of the exact products; a release build
  would wrap where a slice count of 0 is taken for a panic here. Chrono's own range is not modelled.
- AlgoEngines.ExecutionEngine.CreateTwapOrder: the id is a new one, as a random id is.
- AlgoEngines.ExecutionEngine.RunTick: the pre-flight check and the channel are one input per child. create_smart only
  picks numbers for create_vwap.
- VolumeProfiles.VolumeProfile.UpdateVolume: sums of volumes are not bounded to 64 bits, and averages are exact.
- PnlTrackers.PnLTracker.RecordFill: ends where the source asks for its own lock again and stops.
- LotSpec.BooksBalance: prices are in millionths and decimals do not overflow. Daily records, performance figures,
  risk and statistics rest on floats or only sum.
- position_monitor.rs and the circuit breakers: single comparisons, and partly not in the crate.
