# TickPlant verification

A Dafny model of TickPlant's concurrent protocols, its incremental order-book state and its
codecs, with proofs of the properties the platform relies on. Verify it with

    dafny verify dfyconfig.toml

## What is modelled

Files are grouped by the part of the platform they model.

- **Lock-free queues.** `MpscRingBuffer.dfy` (with `MpscGuarantees.dfy` and `MpscProgress.dfy`) and
  `SpscRingBuffer.dfy` model the two rings as step machines: every load, store, slot access and
  compare-and-swap of every thread is one step, a weak compare-and-swap may fail spuriously, and any
  schedule is a run. The rings also appear as classes whose methods perform the same steps on arrays
  in place. `Slots.dfy` holds the masked index arithmetic; `Words.dfy` and `Optional.dfy` are shared
  by several parts.
- **L3 to L2 reconstruction.** `Bytes.dfy` and `ItchCodec.dfy` model the big-endian readers and
  writers, the message builders and the framing of replay files; `ItchReplay.dfy` the order map, the
  price-level index and the emitted events, and an order book driven by them; `ItchLookups.dfy` when
  lookups succeed; `ItchOrders.dfy` which orders are live, from the messages alone.
- **Order books and the engine.** `OrderBooks.dfy`, `FeedBatches.dfy`, `EngineFeeds.dfy`,
  `ArbitrageEngine.dfy`, `ArbitrageScan.dfy`, `ArbitrageAnswer.dfy` and `BybitMirror.dfy` model the
  books, snapshot and delta application, pruning, the all-pairs scan, and the client's second copy
  of a book.
- **The dirty flag.** `DirtyFlag.dfy` (with `DirtyProgress.dfy`) models the hand-off between feed
  threads and the calculation thread, including the condition variable.
- **FIX.** `FixText.dfy`, `FixMessages.dfy`, `FixParser.dfy`, `FixBuilder.dfy` and `FixFields.dfy`
  model number text, the tokeniser, the repeating-group machine and the builder. `TextSearch.dfy` is
  shared.
- **Query servers.** `QueryConnection.dfy` models one connection, `UringServer.dfy` and
  `EpollServer.dfy` the two servers over arbitrary kernel behaviour, `UringOutcomes.dfy` and
  `EpollOutcomes.dfy` what each event comes to.
- **Smaller cores.** `HdrHistogram.dfy`, `LatencyStats.dfy`, `ChunkedDecoder.dfy` and
  `ChunkedCoding.dfy`.

Conventions: atomics are sequentially consistent; `size_t` counters are unbounded; `double` is an
exact real; clocks, kernel results and symbol normalisation are parameters. So is the request handler,
which may answer every request of every connection differently, as one that reads live books does.
Sizes that a sender declares to the chunk decoder are 64-bit words and their sums wrap. Where
a class updates fields in place, each method's contract equates the new state with a function of the
old one, and the properties are proved of that function over all runs.

Where code and comments disagree the model follows the code:

- The MPSC ring's comment on `capacity()` (src/mpsc_ring_buffer.hpp:127) says one slot is reserved;
  all `Size` slots are usable. Its comment on a positive difference (line 61) says the slot is
  claimed but unpublished; a positive difference means it is published or already handed back
  (`MpscGuarantees.SampleMeaning`).
- Field 52 of built FIX messages is announced as `YYYYMMDD-HH:MM:SS.sss`; the milliseconds are
  written over the seconds (`FixBuilder.SecondsAreLost`).
- A histogram query whose rank rounds to 0 answers 5 whatever was recorded (`HdrHistogram.RankZero`).
- Order Replace removes the old order and adds nothing.
- Re-adding a live reference breaks the level index (`ItchReplays.AddKeepsIndexIff`), and an order of
  no shares lets a later lookup fail. Lookups succeed on every run whose unfiltered adds have shares,
  re-added references included (`ItchLookups.LookupsSucceed`), and after an add of a new reference they
  can only be relied on if it had shares (`ItchLookups.AddIsSafeIff`); a removal leaves the index right
  exactly if what is left at the level has shares (`ItchLookups.RemoveAgreesIff`).
- A wake-up of the calculation thread can be missed, because the notification is sent without the
  mutex (`DirtyFlag.WakeUpCanBeMissed`); no update is forgotten at the level of the flag.
- The chunk decoder's loop need not end. A declared size that takes its 64-bit sum past 2^64 passes the
  bounds check (`ChunkedDecoder.WrappedTurn`), and can bring the loop back to the same size line for
  ever, appending the rest of the body with every turn (`ChunkedDecoder.LoopsOnItself`, and
  `ChunkedDecoder.LoopRunsForever` on a concrete body). The loop stops with the intended result exactly
  if it meets no such size line (`ChunkedDecoder.LoopDecodesIff`), which every well-formed chunked body
  and every truncation of one satisfies (`ChunkedCoding.TruncationDecodes`).
- The parser's comment on tag 269 (src/fix_parser.cpp:138) says that 35=X messages without tag 279 are
  handled; of several entries only the last one is delivered (`FixFields.OnlyLastWithoutActions`).
- `parse_int` counts up in a positive `int` even for negative numbers: of the printed ints only the
  least one overflows it (`FixText.OnlyLeastIntOverflows`).

## Model

| member | source | states |
|---|---|---|
| Slots.SlotIsRemainder | src/mpsc_ring_buffer.hpp:43 | the slot of a position is its remainder by the ring size |
| Slots.WindowApart | src/mpsc_ring_buffer.hpp:43 | positions less than Size apart occupy different slots |
| MpscGuarantees.PoppedIsClaimPrefix | src/mpsc_ring_buffer.hpp:39-111 | in every interleaving the popped values are exactly a prefix of the values in tail-claim order, and at most Size positions are live |
| MpscGuarantees.LivePositionsHaveOneOwner | src/mpsc_ring_buffer.hpp:39-66 | each live position is held by exactly the producer that won it, or published with that producer's item, never both |
| MpscGuarantees.NoSlotWrittenAndRead | src/mpsc_ring_buffer.hpp:51-53 | a slot being written is neither being written by another producer nor being read by the consumer |
| MpscGuarantees.ProducerOrderKept | src/mpsc_ring_buffer.hpp:39-111 | per-producer FIFO: values taken from a producer are a prefix of those whose push succeeded |
| MpscGuarantees.RestingRingHoldsTheRest | src/mpsc_ring_buffer.hpp:39-111 | at rest, accepted values are the popped ones followed by the resident ones |
| MpscRing.CasSeesFreshSequence | src/mpsc_ring_buffer.hpp:47-53 | when the CAS on tail_ succeeds the sequence read earlier still equals the claimed position |
| MpscGuarantees.SampleMeaning | src/mpsc_ring_buffer.hpp:43-63 | the sequence is behind a loaded position iff the ring is full there, ahead iff the position is published or handed back |
| MpscGuarantees.RejectionMeansFull | src/mpsc_ring_buffer.hpp:42-59 | try_push returns false exactly if all Size positions were claimed and unreclaimed when it read the sequence, whatever happens before it returns |
| MpscGuarantees.PopVerdict | src/mpsc_ring_buffer.hpp:93-102 | the sequence try_pop reads is never ahead of its position plus one, and is behind exactly if the position is unpublished |
| MpscProgress.PopDelivers | src/mpsc_ring_buffer.hpp:93-111 | with any steps of other threads between its accesses, try_pop returns empty exactly if position popped was unpublished at its read of the sequence; otherwise it delivers exactly that position's value, sets the slot's sequence to pos + Size and head_ to pos + 1 |
| MpscProgress.PushDecides | src/mpsc_ring_buffer.hpp:42-64 | each round of try_push gives up iff the ring was full at the read, wins its position iff that was free, tail_ still stands there and the CAS does not fail spuriously, and else goes round again from the present tail_ with nothing changed |
| MpscProgress.PushDelivers | src/mpsc_ring_buffer.hpp:51-53 | having won its position try_push publishes its value there and returns true, whatever happens meanwhile |
| MpscProgress.UncontendedPush | src/mpsc_ring_buffer.hpp:39-66 | an undisturbed push succeeds iff the ring is not full and fills exactly the next position; refused it leaves no trace |
| MpscProgress.PopsDrain | src/mpsc_ring_buffer.hpp:93-111 | with producers at rest, popping takes every value ever claimed, in claim order |
| MpscGuarantees.OneSlotLosesAnItem | src/mpsc_ring_buffer.hpp:23 | with one slot two pushes both succeed and the first value is overwritten, so Size must be at least 2 |
| MpscRing.ReachableInv | src/mpsc_ring_buffer.hpp:25-111 | the ring invariant holds in every reachable state |
| MpscRing.MpscRingBuffer.constructor | src/mpsc_ring_buffer.hpp:25-30 | slot i starts with sequence i, which establishes the invariant |
| MpscRing.MpscRingBuffer.EnterPush | src/mpsc_ring_buffer.hpp:39-40 | entering try_push is the Call step |
| MpscRing.MpscRingBuffer.AdvanceProducer | src/mpsc_ring_buffer.hpp:42-64 | each atomic access of try_push, done in place, is the producer step of the machine |
| MpscRing.MpscRingBuffer.AdvanceConsumer | src/mpsc_ring_buffer.hpp:93-111 | each atomic access of try_pop, done in place, is the consumer step |
| MpscRing.MpscRingBuffer.Execute | src/mpsc_ring_buffer.hpp:25-111 | any schedule performed in place is a run of the machine |
| SpscRing.StepRefinesQueue | src/ring_buffer.hpp:25-65 | every step in every interleaving is a step, or no step, of a bounded FIFO of capacity Size-1 |
| SpscRing.ContentsAreTheBacklog | src/ring_buffer.hpp:79-83 | the slots from head_ to tail_ hold exactly the pushed values not yet popped |
| SpscRing.VerdictsAreHonest | src/ring_buffer.hpp:30-60 | a push is refused iff Size-1 items are queued at the load of head_, a pop reports empty iff none is at the load of tail_ |
| SpscRing.PopDelivers | src/ring_buffer.hpp:54-65 | a pop that finds the queue empty leaves no trace; any other delivers its front item, whatever the producer does meanwhile |
| SpscRing.PushDelivers | src/ring_buffer.hpp:110-123 | a push that finds Size-1 items is refused and counted as dropped; any other enters exactly its item and returns true, whatever the consumer does meanwhile |
| SpscRing.WriterAndReaderApart | src/ring_buffer.hpp:34-62 | the slot being written is never the one being read |
| SpscRing.AttemptsAccountedFor | src/ring_buffer.hpp:110-165 | with the producer at rest, attempts = popped + resident + dropped, and order is kept |
| SpscRing.SpscRingBuffer.AdvanceProducer | src/ring_buffer.hpp:25-37 | each access of try_push and push, done in place, is the producer step |
| SpscRing.SpscRingBuffer.AdvanceConsumer | src/ring_buffer.hpp:54-65 | each access of try_pop, done in place, is the consumer step |
| SpscRing.SpscRingBuffer.Execute | src/ring_buffer.hpp:25-65 | any schedule performed in place is a run of the machine |
| Bytes.BigEndianValue | tests/replay/itch_replay.cpp:111-141 | the bytes written for a value denote it modulo the width |
| ItchCodec.ReadersAreBigEndian | tests/replay/itch_replay.cpp:68-100 | ru16, ru32, ru48 and ru64 read the big-endian value of their bytes |
| ItchCodec.Wu16 | tests/replay/itch_replay.cpp:111-114 | writes the big-endian field and changes nothing else |
| ItchCodec.Wu32 | tests/replay/itch_replay.cpp:116-121 | writes the big-endian field and changes nothing else |
| ItchCodec.Wu48 | tests/replay/itch_replay.cpp:134-141 | writes the low 48 bits big-endian and changes nothing else |
| ItchCodec.Wu64 | tests/replay/itch_replay.cpp:123-132 | writes the big-endian field and changes nothing else |
| ItchCodec.ReadWritten16 | tests/replay/itch_replay.cpp:68-114 | ru16 after wu16 is the identity on 16 bits |
| ItchCodec.ReadWritten32 | tests/replay/itch_replay.cpp:75-121 | ru32 after wu32 is the identity on 32 bits |
| ItchCodec.ReadWritten48 | tests/replay/itch_replay.cpp:93-141 | ru48 after wu48 is the value modulo 2^48 |
| ItchCodec.ReadWritten64 | tests/replay/itch_replay.cpp:82-132 | ru64 after wu64 is the identity on 64 bits |
| ItchCodec.TrimPadded | tests/replay/itch_replay.cpp:102-107 | padding with spaces does not change a trimmed stock name |
| ItchCodec.MakeAddOrder | tests/replay/itch_replay.cpp:145-167 | the built bytes decode to the same fields, the timestamp modulo 2^48; a stock of at most 8 characters without trailing space survives |
| ItchCodec.MakeOrderExecuted | tests/replay/itch_replay.cpp:169-181 | the built bytes decode to the same fields |
| ItchCodec.MakeOrderCancel | tests/replay/itch_replay.cpp:183-194 | the built bytes decode to the same fields |
| ItchCodec.MakeOrderDelete | tests/replay/itch_replay.cpp:196-205 | the built bytes decode to the same fields |
| ItchCodec.MakeOrderReplace | tests/replay/itch_replay.cpp:207-222 | the built bytes decode to the same fields |
| ItchCodec.DecodedFits | tests/replay/itch_replay.cpp:226-360 | whatever the bytes, the fields of a decoded message are within the widths the builders take |
| ItchCodec.DecodesIff | tests/replay/itch_replay.cpp:226-345 | which buffers decode to which kind of message, by type byte and least length |
| ItchCodec.VariantsDecode | tests/replay/itch_replay.cpp:232-235 | the variants F and C decode as A and E do |
| ItchCodec.FramesOfFramed | tests/replay/itch_replay.cpp:245-264 | a file of length-prefixed messages yields those messages, and a truncated one a prefix of them |
| ItchReplays.ReconstructionIsGrouping | tests/replay/itch_replay.cpp:268-469 | after every well-behaved run a level exists iff some live order rests there, with the sum of remaining shares and the number of orders, and no lookup failed |
| ItchOrders.LiveOrdersAreTold | tests/replay/itch_replay.cpp:226-469 | after every well-behaved run an order is live iff a message added it, of a followed stock, none since deleted or replaced it, and fewer shares were executed or cancelled since than it had; it then has that message's side, price/10000 and stock, and the shares that are left |
| ItchOrders.CountersAreTallies | tests/replay/itch_replay.cpp:226-360 | after any run that fails no lookup the five counters are the numbers of complete messages of their kinds, adds of followed stocks only |
| ItchOrders.AnnouncedIff | tests/replay/itch_replay.cpp:268-469 | a message emits one event iff it adds an order of a followed stock or touches a live one, with the message's timestamp |
| ItchReplays.DrivenBookIsGrouping | tests/replay/itch_replay.cpp:294-466 | a book fed every emitted event equals the grouping of the filtered stock's live orders, price by price with quantity and count |
| ItchReplays.HandleKeeps | tests/replay/itch_replay.cpp:268-360 | every handler keeps the index in agreement with the orders and emits events that tell exactly what changed |
| ItchReplays.ReduceKeeps | tests/replay/itch_replay.cpp:362-407 | executions and cancellations keep the index in agreement, also when they remove the order, and emit the event that tells so; what is left of the order is ItchOrders.LiveOrdersAreTold |
| ItchReplays.RemoveKeeps | tests/replay/itch_replay.cpp:409-469 | removals keep the index in agreement and their level lookup succeeds |
| ItchReplays.AddKeepsIndexIff | tests/replay/itch_replay.cpp:268-314 | an Add keeps the index in agreement iff its reference is not already live |
| ItchLookups.LookupsSucceed | tests/replay/itch_replay.cpp:226-469 | every lookup of every run succeeds, re-added references included, if unfiltered adds have shares |
| ItchLookups.AddIsSafeIff | tests/replay/itch_replay.cpp:268-469 | after an add of a new reference to a good state, every further run with shares passes its lookups iff the add had shares; otherwise some continuation throws |
| ItchLookups.RemoveAgreesIff | tests/replay/itch_replay.cpp:409-469 | with the index right a removal succeeds, and leaves it right iff nothing is left at the level or what is left has shares |
| ItchLookups.HandleKeepsSound | tests/replay/itch_replay.cpp:268-469 | every message with shares keeps each level at least at what rests there, and its lookup succeeds |
| ItchLookups.DeletingThrows | tests/replay/itch_replay.cpp:409-469 | deleting the neighbours of an order of no shares and then that order always ends in a failed lookup |
| ItchReplays.EmptyOrderThrows | tests/replay/itch_replay.cpp:409-469 | the smallest such run: two orders, one of no shares |
| ItchReplays.RunKeeps | tests/replay/itch_replay.cpp:226-243 | on feeds whose unfiltered adds have shares and new references the index agrees with the orders after every message |
| ItchReplays.ItchReplay.HandleAddOrder | tests/replay/itch_replay.cpp:268-314 | done in place, is the Add transition |
| ItchReplays.ItchReplay.ReduceOrderAt | tests/replay/itch_replay.cpp:362-407 | done in place, is the reduce transition, or reports the failed lookup |
| ItchReplays.ItchReplay.RemoveOrderAt | tests/replay/itch_replay.cpp:409-469 | done in place, is the remove transition, or reports the failed lookup |
| ItchReplays.ItchReplay.HandleMessage | tests/replay/itch_replay.cpp:316-360 | dispatch and counters of the five handlers |
| ItchReplays.ItchReplay.ProcessMessage | tests/replay/itch_replay.cpp:226-243 | returns true iff the type is known, and handles messages long enough |
| ItchReplays.ItchReplay.ReplayInto | tests/replay/order_book_test.cpp:99-104 | driving an OrderBook from the callback leaves it equal to the grouped live orders |
| OrderBooks.Highest | src/order_book.cpp:137 | the first key of the bid map is its highest price |
| OrderBooks.Lowest | src/order_book.cpp:142 | the first key of the ask map is its lowest price |
| OrderBooks.UncrossedMeaning | src/order_book.cpp:190-203 | pruning keeps exactly the bids below every ask, keeps all asks, and leaves an uncrossed book alone |
| OrderBooks.UncrossedSpread | src/order_book.cpp:151-158 | an uncrossed book has best bid below best ask and a spread that is not negative |
| OrderBooks.SpreadMeaning | src/order_book.cpp:151-158 | the spread is the gap of the best prices in ten-thousandths of the best bid |
| OrderBooks.EntriesMeaning | src/order_book.cpp:30-89 | per side and price the last entry naming it with a known action decides: 279=0 or 1, or any entry of 35=W, leaves exactly that price and quantity with order count 0, 279=2 leaves nothing; unnamed prices are kept by 35=X and forgotten by 35=W |
| OrderBooks.OverlayLastWrite | src/arbitrage_engine.cpp:80-91 | in a delta the last mention of a price decides, a zero quantity removing it |
| OrderBooks.OverlayUntouched | src/arbitrage_engine.cpp:80-91 | a price a delta does not mention keeps its level |
| OrderBooks.FillLastWrite | src/arbitrage_engine.cpp:73-76 | in a snapshot the last mention of a price decides |
| OrderBooks.StrictlyFallingUnique | src/order_book.cpp:118-133 | a map has one strictly descending listing |
| OrderBooks.StrictlyRisingUnique | src/order_book.cpp:118-133 | a map has one strictly ascending listing |
| OrderBooks.OrderBook.SetLevelAt | src/order_book.cpp:93-100 | sets one level and the time stamp, nothing else |
| OrderBooks.OrderBook.DeleteLevelAt | src/order_book.cpp:102-107 | removes one level and sets the time stamp |
| OrderBooks.OrderBook.Clear | src/order_book.cpp:109-114 | empties both sides and sets the time stamp |
| OrderBooks.OrderBook.PruneCrossed | src/order_book.cpp:190-203 | the loop terminates and leaves the book restricted to bids below the best ask |
| OrderBooks.OrderBook.ApplySnapshot | src/order_book.cpp:30-56 | every level of the new book is what the last entry naming it says, and no other level is left; other message types change nothing |
| OrderBooks.OrderBook.ApplyUpdate | src/order_book.cpp:58-68 | every level is what the last entry naming it says, and unnamed levels stay; other message types change nothing |
| OrderBooks.OrderBook.ApplyEntry | src/order_book.cpp:71-89 | new and change set exactly the entry's level, delete removes it, trades and unknown actions do nothing |
| OrderBooks.OrderBook.GetSnapshot | src/order_book.cpp:118-133 | lists bids strictly descending and asks strictly ascending, exactly the levels of the book, best bid below best ask if the book is uncrossed |
| FeedBatches.FeedMeaning | src/arbitrage_engine.cpp:69-96 | after a message the asks are the last-write-wins overlay, the bids that overlay below every ask |
| FeedBatches.DeltaLeavesValidSpread | src/arbitrage_engine.cpp:78-96 | any delta leaves an uncrossed book with a spread that is not negative |
| FeedBatches.FeedBook | src/arbitrage_engine.cpp:69-96 | clear, set, delete and prune calls on a book have that effect |
| FeedBatches.AmendBook | src/bybit_client.cpp:304-316 | the delta loops without pruning |
| FeedBatches.ReplaceBook | src/bybit_client.cpp:297-302 | the snapshot loops |
| Engine.ArbitrageEngine.UpdateOrderBook | src/arbitrage_engine.cpp:51-128 | applies the message to the keyed book, created with the message's exchange and symbol if missing, stamps it, leaves contents, labels and stamps of every other book alone and sets the dirty flag |
| Engine.ArbitrageEngine.UpdateFixData | src/arbitrage_engine.cpp:130-159 | the same for FIX market data, under the name FIX and the symbol, each level being what the last entry naming it says; other messages change nothing |
| Engine.ArbitrageEngine.Feed | src/arbitrage_engine.cpp:51-159 | any messages, taken in place, leave exactly the books EngineFeeds tells of |
| EngineFeeds.BooksCarryTheirNames | src/arbitrage_engine.cpp:51-142 | after any messages the book that one of them went to carries that message's exchange and symbol, FIX and the symbol for FIX messages, if exchange names hold no colon |
| EngineFeeds.KeysDiffer | src/arbitrage_engine.cpp:52 | two depth messages share a book only if exchange and symbol agree, if the exchange names hold no colon |
| EngineFeeds.BookIsOwnMessages | src/arbitrage_engine.cpp:51-159 | after any messages each book is what its own messages alone make of an empty book, and exists iff there were any |
| EngineFeeds.StampsAreLatest | src/arbitrage_engine.cpp:51-159 | a message that touches its book stamps it, and no other stamp moves |
| EngineFeeds.FixMeaning | src/arbitrage_engine.cpp:149-152 | a FIX message leaves every level of its book as the last entry naming it says |
| Engine.ArbitrageEngine.SnapshotBooks | src/arbitrage_engine.cpp:286-317 | one faithful sorted snapshot of every book that is not empty |
| Engine.ArbitrageEngine.CalculateArbitrage | src/arbitrage_engine.cpp:255-401 | publishes exactly the ordered pairs of different fresh books of one canonical symbol that pay, each once with its figures, and changes no book |
| ArbitrageScan.AllReportsExact | src/arbitrage_engine.cpp:329-394 | the nested loops report each qualifying ordered pair of different entries, once |
| ArbitrageScan.TopOfSnapshot | src/arbitrage_engine.cpp:335-341 | the front of a snapshot side is the best level of the book |
| ArbitrageScan.QualifiesMeansOpportune | src/arbitrage_engine.cpp:335-342 | the test on snapshots is the test on the books: bid above a positive ask, enough profit, both sizes positive |
| ArbitrageScan.OneDirectionOnly | src/arbitrage_engine.cpp:334-392 | of two uncrossed books at most one direction qualifies |
| ArbitrageAnswer.AnswerSpelledOut | src/arbitrage_engine.cpp:255-401 | a pair of books is reported iff both changed within 500 ms, canonical symbols agree, and 10000 times the best bid of one is at least the positive best ask of the other times 10000 plus the threshold, sizes positive; each report's figures satisfy 10000 sell = buy (10000 + profit), and its quantity is at most both sizes and equals one |
| ArbitrageAnswer.ProfitMeaning | src/arbitrage_engine.cpp:339 | 10000 bid = ask (10000 + profit in basis points) |
| ArbitrageScan.SnappedBoth | src/arbitrage_engine.cpp:286-319 | the fresh snapshots of both maps describe exactly the fresh books |
| ArbitrageScan.ScanConcludes | src/arbitrage_engine.cpp:326-395 | the reports over all symbols are exactly the paying pairs of books, each once |
| ArbitrageScan.ScanSymbol | src/arbitrage_engine.cpp:329-394 | the loops over one bucket give its reports in order, with their figures |
| ArbitrageScan.Scan | src/arbitrage_engine.cpp:286-395 | bucketing and comparing the fresh snapshots gives exactly the paying pairs |
| BybitMirror.EngineMirrorsLocal | src/bybit_client.cpp:297-316 | after any messages the asks agree, and a local bid is missing from the engine exactly if some delta since its last mention left it at or above the best ask |
| BybitMirror.UncrossedFeedsAgree | src/bybit_client.cpp:297-316 | if no delta leaves the local book crossed the two books are equal |
| BybitMirror.DroppedBidStaysMissing | src/arbitrage_engine.cpp:92-95 | the books can differ although the local one is uncrossed |
| BybitMirror.BybitClient.OnDepth | src/bybit_client.cpp:288-325 | updates the local book of the symbol only and hands the same snapshot on |
| BybitMirror.Relay | src/bybit_client.cpp:288-325 | relaying messages through client and engine leaves exactly these two books |
| DirtyFlag.NoUpdateForgotten | src/arbitrage_engine.cpp:125-307 | in every reachable state of a running engine an update whose flag store executed is announced, or due to be read, or was read by some calculation after it |
| DirtyFlag.AtRestAllIsSeen | src/arbitrage_engine.cpp:211-221 | with the flag clear, no read due and no caller midway the last calculation saw the whole map |
| DirtyFlag.WakeUpKeptIffNotMissed | src/arbitrage_engine.cpp:126-217 | a needed wake-up stays on its way in every step except exactly the last notification sent between the predicate's loads and the sleep |
| DirtyFlag.WakeUpCanBeMissed | src/arbitrage_engine.cpp:126-217 | a reachable state sleeps on a set flag with an unseen update |
| DirtyFlag.StepKeeps | src/arbitrage_engine.cpp:36-307 | every step of every thread keeps the flag invariant |
| DirtyProgress.EndsIff | src/arbitrage_engine.cpp:211-250 | the thread ends exactly by reading running_ as false at the loop head or after clearing the flag, or at the report limit |
| DirtyProgress.ThreadOutlivesRunning | src/arbitrage_engine.cpp:211-250 | while the engine runs its thread has not ended |
| DirtyProgress.WakeUpIsAnswered | src/arbitrage_engine.cpp:213-224 | a thread that finds the flag set clears it and, unless it finds the engine stopped, reads both maps with all they held at the wake-up and returns to the loop head, whatever happens meanwhile |
| DirtyProgress.WaitingLeadsOn | src/arbitrage_engine.cpp:211-219 | the thread sleeps only after finding the flag clear and the engine running |
| DirtyProgress.UpdateIsAnnounced | src/arbitrage_engine.cpp:54-158 | an update is entered, then flagged, then notified, after which the thread is not asleep |
| DirtyProgress.StopIsAnnounced | src/arbitrage_engine.cpp:36-39 | stop() clears running_, sets the flag and notifies |
| DirtyFlag.Handoff.BeginUpdate | src/arbitrage_engine.cpp:54-99 | the locked region appends one update and nothing else |
| DirtyFlag.Handoff.AdvanceCaller | src/arbitrage_engine.cpp:125-158 | flag store and notification, done in place, are the caller step |
| DirtyFlag.Handoff.BeginStop | src/arbitrage_engine.cpp:36-39 | stop() clears running_ before it sets the flag |
| DirtyFlag.Handoff.AdvanceThread | src/arbitrage_engine.cpp:211-307 | each access of calculation_loop, done in place, is the thread step |
| DirtyFlag.Handoff.Execute | src/arbitrage_engine.cpp:211-221 | any schedule performed in place is a run of the machine |
| FixText.ParseInt | src/fix_parser.cpp:46-59 | the loop computes the signed value of the leading digits, over unbounded integers; FixText.AccumulatorFitsIff says when the source's int is the same |
| FixText.ParseDouble | src/fix_parser.cpp:61-86 | the loops compute the signed value of leading digits and fraction |
| FixText.IntRoundTrip | src/fix_parser.cpp:46-59 | parsing a printed integer gives it back |
| FixText.AccumulatorFitsIff | src/fix_parser.cpp:53-57 | the 32-bit accumulator stays in range throughout iff the magnitude read is in range |
| FixText.OnlyLeastIntOverflows | src/fix_parser.cpp:46-59 | of the printed 32-bit ints exactly the least one overflows the accumulator |
| FixText.NumberRoundTrip | src/fix_parser.cpp:61-86 | parsing a number in fixed notation gives its exact value |
| FixText.IntThenText | src/fix_parser.cpp:46-59 | a printed integer is read back whatever follows its digits, and text without digits reads as 0 |
| FixText.NumberThenText | src/fix_parser.cpp:61-86 | a number in fixed notation is read back whatever follows it that cannot continue it |
| FixParser.NextField | src/fix_parser.cpp:21-44 | finds the first '=' and the next SOH, or the end, and shortens the cursor |
| FixParser.TokensOfSerialised | src/fix_parser.cpp:21-44 | tokenising any serialised field list gives it back, for all SOH-free values |
| FixParser.CollectedIsTokens | src/fix_parser.cpp:110-196 | the fields taken into account are the tokens up to the first with tag 10 |
| FixParser.AssignScalar | src/fix_parser.cpp:113-190 | a scalar tag sets its field to the value read and leaves all others |
| FixParser.AssignEntryField | src/fix_parser.cpp:127-178 | the repeating-group branches reset, open or fill an entry as specified, within the cap of 32 |
| FixParser.AssignField | src/fix_parser.cpp:111-193 | one pass through the switch makes the message declare one more field |
| FixParser.DeclaredOnce | src/fix_parser.cpp:101-196 | the fields determine the whole parsed message |
| FixParser.ParseMsgType | src/fix_parser.cpp:88-97 | maps the type text to its kind |
| FixParser.Parse | src/fix_parser.cpp:101-196 | every scalar is the last value of its tag before the trailer, entries are those of the group machine, at most 32, and the result is true iff the type is known |
| FixFields.FieldsRoundTrip | src/fix_parser.cpp:101-196 | whatever fields a message carries in whatever order, the last of each literal tag shows in its own message field as the text, whole number, decimal number or type that was written |
| FixFields.AbsentIsBlank | src/fix_parser.cpp:101-196 | a tag that is not carried leaves its field blank |
| FixFields.NewOrderParses | src/fix_parser.cpp:88-187 | a 35=D message, its fields in any order, parses to exactly what they say |
| FixFields.ExecutionParses | src/fix_parser.cpp:88-187 | a 35=8 message, its fields in any order, parses to exactly what they say |
| FixFields.OnlyLastWithoutActions | src/fix_parser.cpp:132-166 | of a 35=X message that omits tag 279 only the last quote is delivered |
| FixBuilder.Checksum | src/fix_parser.cpp:299-301 | the loop computes the byte sum modulo 256 |
| FixBuilder.BuildFixMessage | src/fix_parser.cpp:248-306 | the streams produce the serialised header, body and trailer fields |
| FixBuilder.BuiltParses | src/fix_parser.cpp:101-306 | parsing a built 35=W or 35=X message gives exactly its type, number, symbol and first min(32, n) entries, update action only for X |
| FixBuilder.GatheredFirst | src/fix_parser.cpp:143-167 | of n entries exactly the first min(32, n) are kept, in order |
| FixBuilder.QuoteExtends | src/fix_parser.cpp:143-178 | the fields of one entry add exactly that entry to the group, or nothing beyond the cap |
| FixBuilder.BuiltFrameChecks | src/fix_parser.cpp:287-305 | BodyLength and CheckSum of every built message read back as what FIX 4.4's Standard Message Header and Trailer define |
| FixBuilder.LoggedFormIsRejected | src/fix_parser.cpp:310-331 | the human-readable form, delimited by vertical bars, parses as a blank message of unknown type |
| FixBuilder.SecondsAreLost | src/fix_parser.cpp:255-269 | field 52 is never the announced timestamp, and does not depend on the seconds |
| QueryConnection.AnsweredStreams | src/query_server_uring.cpp:246-256 | handling a line keeps bytes received equal to lines and buffer, and bytes sent equal to responses |
| QueryConnection.AdvancedStreams | src/query_server_uring.cpp:270-282 | partial and complete sends keep bytes sent and unsent equal to the responses |
| QueryConnection.AnsweredMeaning | src/query_server_uring.cpp:246-256 | exactly the text up to the first line end, cut at a NUL, is handed to the handler, its response is unsent from position 0, and the bytes after the line end stay buffered |
| QueryConnection.AdvancedMeaning | src/query_server_uring.cpp:270-282 | a send moves exactly its bytes from unsent to sent and drops a finished response |
| QueryConnection.HandledAreTheFirstLines | src/query_server_uring.cpp:229-256 | the lines handled are the first lines of the bytes received, however they were cut |
| QueryConnection.AnswersInOrder | src/query_server_uring.cpp:229-282 | for NUL-free input bytes sent and unsent are the handler's responses to those lines in order |
| UringServer.UserDataRoundTrip | src/query_server_uring.cpp:33-41 | decode_ud inverts encode_ud for every 32-bit descriptor and operation |
| UringServer.OneOperationEach | src/query_server_uring.cpp:153-291 | one ACCEPT is in flight, and each open connection has exactly one operation: a SEND iff output is unsent, else a RECV with length at least 1 |
| UringServer.CompletionFindsItsConnection | src/query_server_uring.cpp:208-291 | a completion's descriptor denotes the connection it was submitted for, and no other open or closed one, although descriptors are reused |
| UringServer.ConnectionsStream | src/query_server_uring.cpp:208-291 | for any completions, lines handled and buffer make up the bytes received, responses go out in order, the buffer never exceeds 511 bytes |
| UringServer.CompleteKeeps | src/query_server_uring.cpp:208-291 | every completion keeps the server invariant and its map lookup succeeds |
| UringOutcomes.ClosesIff | src/query_server_uring.cpp:229-288 | in every reachable state a completion ends its connection iff the operation failed or 511 bytes hold no line end; nothing follows then, and no other connection is touched |
| UringOutcomes.LineIsAnswered | src/query_server_uring.cpp:241-262 | bytes that complete a line add exactly the first line of buffer and data to the lines handled and leave a SEND of the handler's response to it from position 0 |
| UringOutcomes.PartOfLineWaits | src/query_server_uring.cpp:244-255 | bytes that complete no line are kept and a RECV for the remaining room follows |
| UringOutcomes.SendContinues | src/query_server_uring.cpp:266-288 | a send is followed by the SEND of the rest, or a RECV once the response is out |
| UringOutcomes.AcceptOpens | src/query_server_uring.cpp:208-226 | an accepted descriptor becomes a new connection with a RECV of 511 bytes, and the next ACCEPT is in flight |
| UringServer.IoUringQueryServer.HandleAccept | src/query_server_uring.cpp:208-226 | done in place, is the accept transition |
| UringServer.IoUringQueryServer.HandleRecv | src/query_server_uring.cpp:229-263 | done in place, is the receive transition |
| UringServer.IoUringQueryServer.HandleSend | src/query_server_uring.cpp:266-288 | done in place, is the send transition |
| UringServer.IoUringQueryServer.ProcessCompletion | src/query_server_uring.cpp:200-291 | dispatch of one completion, keeping the invariant |
| UringServer.IoUringQueryServer.ServeLoop | src/query_server_uring.cpp:186-291 | any completions processed in place are a run of the machine |
| EpollServer.ConnectionsStream | src/query_server_epoll.cpp:222-282 | for any readiness events and any recv and send results, the same stream property holds on every connection, open or closed |
| EpollServer.RunKeepsSerials | src/query_server_epoll.cpp:193-207 | every accepted connection has a serial of its own, so a handler's answers are told apart |
| EpollServer.ReadingHasAnswered | src/query_server_epoll.cpp:222-282 | a connection in READING has sent every response to what it has handled |
| EpollServer.HandledKeeps | src/query_server_epoll.cpp:212-282 | one event keeps a connection's invariant: room to read, and unsent output only in WRITING |
| EpollOutcomes.ReadingALine | src/query_server_epoll.cpp:223-257 | the recv call that completes a line hands exactly the first line to the handler and turns the connection to writing its response from position 0 |
| EpollOutcomes.ReadingWithoutLine | src/query_server_epoll.cpp:223-240 | bytes without a line end are kept and reading goes on at EAGAIN; an error, an end of file or 511 bytes without a line end close |
| EpollOutcomes.ReadsStop | src/query_server_epoll.cpp:223-257 | every read event is one of these two |
| EpollOutcomes.WritingAll | src/query_server_epoll.cpp:260-281 | once the response is out the connection reads again with what it had already received |
| EpollOutcomes.WritingPart | src/query_server_epoll.cpp:260-270 | a partial send leaves the connection writing the rest, an error closes it |
| EpollOutcomes.OtherEvents | src/query_server_epoll.cpp:211-219 | a hangup closes, readiness not waited for changes nothing, and an event with both reads first and then writes |
| EpollOutcomes.AcceptsAll | src/query_server_epoll.cpp:193-207 | every accepted descriptor ends open as a new connection with a serial of its own, and open ones stay |
| EpollServer.EpollQueryServer.ReadUntilLine | src/query_server_epoll.cpp:223-257 | the recv loop stops at a complete line, at EAGAIN, or closes |
| EpollServer.EpollQueryServer.WriteOut | src/query_server_epoll.cpp:260-281 | the send loop stops when the response is out, at EAGAIN, or closes |
| EpollServer.EpollQueryServer.HandleReady | src/query_server_epoll.cpp:211-282 | one readiness event, done in place, is the step of the machine |
| EpollServer.EpollQueryServer.AcceptAll | src/query_server_epoll.cpp:193-207 | the accept loop registers each new descriptor once |
| HdrHistogram.CountsSumToAll | src/hdr_histogram.hpp:33-50 | the bucket counts sum to the number of samples |
| HdrHistogram.RankFound | src/hdr_histogram.hpp:69-75 | the bucket where the accumulated count reaches t holds the t-th smallest sample |
| HdrHistogram.SortedMeaning | src/hdr_histogram.hpp:53-78 | the order statistics refer to an ascending permutation of the samples |
| HdrHistogram.PercentileIsNearIff | src/hdr_histogram.hpp:53-78 | with rank at least 1 the answer is within 5 of the sample of that rank iff that sample is at most ten times the number of buckets |
| HdrHistogram.PercentileMonotone | src/hdr_histogram.hpp:53-78 | answers strictly between 0 and 100 grow with the percentile |
| HdrHistogram.RankZero | src/hdr_histogram.hpp:65-74 | the rank is 0 iff p times the count is below 50, and then the answer is 5 |
| HdrHistogram.RankZeroMisses | src/hdr_histogram.hpp:65-74 | the tenth percentile of one sample of 1000 is 5 |
| HdrHistogram.RankInRange | src/hdr_histogram.hpp:65-67 | the rank never exceeds the number of samples, so the scan never falls through |
| HdrHistogram.MidpointIsNearIff | src/hdr_histogram.hpp:176-185 | a bucket's midpoint is within 5 of a sample iff the sample is at most ten times the number of buckets |
| HdrHistogram.MeanIsNear | src/hdr_histogram.hpp:86-97 | while the sum fits 64 bits the reported mean is within 5 of the true mean of samples at most ten times the number of buckets |
| HdrHistogram.MeanIsExactIff | src/hdr_histogram.hpp:86-97 | the reported mean is that of the midpoints iff their sum fits 64 bits |
| HdrHistogram.MidpointSumFits | src/hdr_histogram.hpp:89-95 | the sum is at most ten times buckets times samples |
| HdrHistogram.BucketCount | src/hdr_histogram.hpp:167-174 | a tenth of the largest value, but at least 1000 and at most 100000 buckets |
| HdrHistogram.HDRHistogram.Record | src/hdr_histogram.hpp:33-50 | adds the clamped value to the samples and keeps counts, minimum and maximum right |
| HdrHistogram.HDRHistogram.GetPercentile | src/hdr_histogram.hpp:53-78 | 0 if empty, the maximum from 100, the minimum to 0, else the midpoint of the bucket of the sample of that rank |
| HdrHistogram.HDRHistogram.GetMean | src/hdr_histogram.hpp:86-97 | the loop computes the mean of the bucket midpoints, their sum modulo 2^64 |
| HdrHistogram.HDRHistogram.GetMin | src/hdr_histogram.hpp:81 | the minimum; 0 if empty, and exactly 0 if every sample is the largest 64-bit value |
| HdrHistogram.HDRHistogram.Reset | src/hdr_histogram.hpp:121-126 | forgets all samples |
| LatencyStats.BoundsHold | src/queue_latency_tracker.hpp:42-52 | at every moment min_ns is at most and max_ns at least every value whose loop has finished |
| LatencyStats.QuiescentIsExact | src/queue_latency_tracker.hpp:38-52 | at quiescence count, total_ns, min_ns and max_ns are exactly the number, sum, minimum and maximum of the records |
| LatencyStats.RetryMeansImproved | src/queue_latency_tracker.hpp:42-52 | a compare-and-swap that does not fail spuriously ends its loop unless another thread has strictly improved the extreme |
| LatencyStats.RecordAlone | src/queue_latency_tracker.hpp:38-52 | an undisturbed record ends after its six accesses with exactly its effect on count, total, minimum and maximum |
| LatencyStats.ExtremesOnlyImprove | src/queue_latency_tracker.hpp:42-52 | over any further schedule, lost races and spurious failures included, min_ns never rises, max_ns never falls, and a value either takes was recorded |
| LatencyStats.ExchangeStats.BeginRecord | src/queue_latency_tracker.hpp:38-39 | raises the count |
| LatencyStats.ExchangeStats.AdvanceThread | src/queue_latency_tracker.hpp:40-52 | each access of record, done in place, is the thread step |
| LatencyStats.ExchangeStats.Execute | src/queue_latency_tracker.hpp:38-52 | any schedule performed in place is a run of the machine |
| ChunkedCoding.EncodingDecodes | src/questdb_data_source.cpp:46-72 | the loop with its 64-bit sums stops on any chunked body with the concatenated data, for every spelling of the sizes, extensions free of CRLF, data that may contain CRLF, and anything after the last chunk |
| ChunkedCoding.TruncationDecodes | src/questdb_data_source.cpp:46-72 | on any truncation it stops with the data of exactly the chunks contained whole, and no sum wraps on the way |
| ChunkedCoding.TruncationDecodesToPrefix | src/questdb_data_source.cpp:46-72 | on any truncation it stops with a prefix of the whole |
| ChunkedDecoder.LoopDecodesIff | src/questdb_data_source.cpp:50-70 | the loop stops with the intended decoding iff no size line it meets declares a chunk ending past 2^64 (bodies that end with such a line apart) |
| ChunkedDecoder.StopsWithoutWrap | src/questdb_data_source.cpp:50-70 | without such a size line it stops within one turn more than there are characters, with the intended decoding |
| ChunkedDecoder.SmallSizesNeverWrap | src/questdb_data_source.cpp:61-67 | declared sizes below 2^64 less the body's length never wrap |
| ChunkedDecoder.TurnIsIdealIff | src/questdb_data_source.cpp:66-69 | a turn with 64-bit sums is the intended turn iff its sum does not wrap |
| ChunkedDecoder.WrappedTurn | src/questdb_data_source.cpp:66-69 | when the sum wraps the bounds check passes, the rest of the body is appended, and the position moves to at most one past the start of the data |
| ChunkedDecoder.LoopsOnItself | src/questdb_data_source.cpp:50-70 | a size line declaring 2^64 less its length and four, met past the first two characters, keeps the loop at itself for ever |
| ChunkedDecoder.LoopRunsForever | src/questdb_data_source.cpp:50-70 | on a body of 25 characters the loop never stops and its result grows with every turn |
| ChunkedDecoder.WrapAtTheEnd | src/questdb_data_source.cpp:50-70 | a body that ends with a wrapping size line may still decode |
| ChunkedDecoder.SizeLineReads | src/questdb_data_source.cpp:52-64 | a size line with extension reads as its hexadecimal size, 0 ending the body |
| ChunkedDecoder.DecodeChunked | src/questdb_data_source.cpp:46-72 | the loop, performed in place for any number of turns with 64-bit sums and every access in range, is that many turns of the machine |

## Left out

- Sockets, TLS, WebSocket and JSON parsing, JWT signing, epoll and io_uring calls: foreign code; the servers are modelled over arbitrary results of those calls.
- Weak memory orderings, false sharing, and wrap-around of `size_t` counters.
- Floating-point rounding; numbers the default stream format prints lossily or in scientific notation.
- The move overloads of `try_push` and `push`: same steps as the copying ones.
- `empty()`, `size()` and `full()` of the rings read while other threads run, and `reset_dropped_count`: approximations by design.
- The engine's two book maps are one map here, keyed by which map and which key; the locks are the steps of `DirtyFlag`.
- The nested level maps of the replay are one map keyed by stock, side and price.
- The sample arrays of `ExchangeStats` (plain stores), its `reset`, and `get_std_dev` of the histogram.
- `to_ticker_data`, `best_bid` on snapshots, query API, reports, registry, tick logger, metrics, symbol tables, CLI, thread affinity: easy members or presentation.
- Kraken and Coinbase local books: they filter zero quantities, so the two-copy relation differs.
- Liveness under fair scheduling. What single calls and events come to, with anything in between, is proved; pipelined requests left in a buffer are answered only when more input arrives, and missed wake-ups last until the next update.
- Order Replace's new order: the replay does not add it.
- Submission-queue exhaustion of io_uring (`io_uring_get_sqe` returning null) and cleanup at shutdown.
- DecodeChunked: performs a given number of turns, because the source's loop need not end.
- LoopDecodesIff: sets apart bodies that end with a wrapping size line, where nothing is appended by it and the outcome depends on where the sum lands; WrapAtTheEnd and LoopRunsForever with no text show both outcomes.
- Strings of 2^63 characters or more: `std::string` cannot hold them.
- ParseInt: integers are unbounded; where FixText.AccumulatorFitsIff fails the source's result is undefined.
- OneOperationEach: assumes that no response is empty, as every response of the handlers ends with a line end.
- BooksCarryTheirNames: assumes exchange names without a colon, as all of the clients' are; EngineFeeds.KeysMayMeet shows two messages sharing a book otherwise.
- CompletionFindsItsConnection: assumes the kernel accepts no descriptor that is still open.
- ReconstructionIsGrouping: assumes shares are positive, new references are not live and the filter is fixed, as the replay does; AddKeepsIndexIff, AddIsSafeIff and RemoveAgreesIff say exactly what that buys.
