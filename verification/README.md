# carteret in Dafny

carteret replays Nasdaq ITCH 5.0 sessions into a limit order book. This project models the parts of it
that carry the logic and proves what they are for: the pooled, windowed `FastBook` keeps the same book as the
map-and-list `ReferenceBook` on every message stream; the open-addressed order index is a map; the five queue models
keep their order; the ring between two cores is a queue; the two MoldUDP64 lines are arbitrated into one clean
stream; framing reads back what was written; and the determinism digests tell streams and books apart up to a hash
collision.

Classes stand for the classes of the repository and their methods for its methods, with the same branches and the same
loops. What a method does is stated against a value: the abstract book (`BookSpec`), the map a table stores, the log a
receiver has told its handler, the queue of pushed items. The properties are then proved about those values.
`dafny verify dfyconfig.toml` checks the whole project.

## Files

| file | contents |
|---|---|
| BookTypes, OrderedKeys | messages, orders, keys, counters; the first and last key of an ordered side |
| BookSpec, BookEffects | the abstract book, `map` of orders plus a FIFO per level, and one message's effect on it; that effect order by order, time priority, and what each counter counts |
| Bits, LevelBitmap | 64-bit words bit by bit; the two-level bitmap of a window |
| FastSide, SymbolTable | one side of one symbol: window, overflow, re-centring; all sides together |
| FastPool | the order pool on a snapshot of its array: lists, free list, levels, and what each operation leaves |
| OrderIndex, ChainedIndex | the open-addressed index with backward-shift deletion, and the chained one |
| FastBook, ReferenceBook | the two books |
| Gate, GateCases | trading states, reopening windows, and the excuse of every crossed or locked observation; a halt seen from two markets |
| Differential | the harness that drives both books and compares them |
| QueueModels, QueueTally, QueueBook | the five models of one order, the accounts, both against the book |
| QueueRules | what one message does to one order, in prices, sides and counts |
| QueueStream, QueueClock, QueueCases | the simulator as a fold over what happens to it, with its theorems; how long an order can live; streams that part the models |
| QueueSim | the simulator itself |
| SpscRing | the ring as interleaved steps of two threads |
| Wire, Layout, Parser | fields, frames, both framing forms; where every field lies; detection, the replay loop |
| MoldReceiver, MoldLines | the receiver on any packets; packetizing, arbitration of two lines |
| Sha256 | the hash as an object, against the standard's definition |
| ShaWords, ShaConstants, ShaMachine, ShaAbc | that definition bit by bit; its constants as roots of primes; its words as 32-bit machine words; the standard's first example |
| Determinism, BookDigest | the event stream's bytes, the book's bytes |

## Reading guide

* `Differentials.Differential.Replay` is the agreement of the books. From fresh books, a run ends without a divergence if
  and only if no add is refused and no invariant check falls due while an order of size zero is live; both
  books then hold exactly the book the messages describe. `SizedRunsAreQuiet` gives the runs that need no second condition.
* The counters are compared separately, because the second look of a `U` is at the retained order's symbol in one book
  (fast_book.hpp:281) and at the message's symbol in the other (reference_book.hpp:305).
  `Differentials.CountersAgreeExactly` says exactly when the counters agree after every message, and
  `Differentials.NamingAnotherParts` gives a stream on which they do not.
* `QueueStreams.Streamed` is what a stream of messages, placements and withdrawals makes of a fresh simulator, and
  `QueueSims.QueueSimulator` is proved to be in that state. The theorems are about every order of every stream,
  `EveryOrderRanks`, `ExactKnows` and `FillsRank`, and each clause has its own condition: most relations need none; that
  optimistic is ahead of proportional, and that exact has the front of the queue ahead, needs an orderly stream, which
  gives no reference to a second live order and names sides `B` or `S`; exact's count needs that no message takes more than
  an order has; that exact fills no later than conservative needs orders with sizes, and executions that take no more than
  there is. Only "no later" needs times that do not go back. `QueueCases` holds the streams that show what each is for.
* The definitions everything else rests on are fixed by lemmas that do not use them: the best price and the look by all levels
  (`ObservedExactly`), the gate by the run's own events (`LandsInItsBucket`), what an order hears by prices, sides and counts
  (`QueueRules`), the lengths of messages by their fields (`LengthsTile`), the probe by what the input spells
  (`ProbesExactly`), each counter by the messages it counts (`StepCounts`), the hash by its bits, its primes and the digest of
  "abc" (`AbcDigest`), and a record by where each of its fields lies (`RecordLayout`).
* Ghost fields (`book`, `free`, `entries`, `log`, `pushed`, ...) are abstract values that each method ties to the real
  fields it writes.

## Where the code and its description part

* `compare_everything` stops before locate 0xFFFF (differential.hpp:184), so orders at that locate are never looked at.
  `BlindExactlyAtLast` says that this is exactly where a passed comparison can be wrong; `LastLocateIsUnseen` is two
  different books that pass.
* After `maybe_recenter` the best price is in the window unless it is below the window's origin and that origin is below
  the hysteresis: anchoring is clamped at zero and the move is then too small to be made. `RebaseCovers` is the
  equivalence, `BestLeftOutside` two orders that lead there.
* The open-addressed `insert` refuses at half load even to overwrite; the chained one overwrites when full.
* When the index refuses an order, `add` unlinks it without giving back its shares (fast_book.hpp:651-656). With
  `max_orders` at most half the index's capacity that branch cannot be reached, and `FastBook` keeps `indexFailures` at zero.
* The hooks for a skipped frame are shown the last good message, or nothing, never the skipped frame (parser.hpp:103-109,
  `HooksSeeThePrevious`).
* The end-of-session packet's sequence number is not looked at, so messages lost just before it are not reported; a
  heartbeat with the same number reports them (`EndHidesLoss`). A packet of 0xFFFF messages reads as the end of the
  session (`FullPacketReadsAsEnd`). A packet whose numbers wrap is taken for a duplicate, or, if they run past the next
  number expected, handed on with numbers from zero (`WrappedPacket`); that is exactly what breaks the receiver's
  accounting (`AccountedExactly`).
* `on_cancel` recovers the depth before a removal by adding the removed quantity back to the depth after it. That is the true depth
  exactly when the message takes no more than the order has and is not a replace that stays at its price with shares
  (`AddedBackIsBefore`). The ordering of the models does not need it.

## Model

| member | source | states |
|---|---|---|
| `Differentials.Differential.Replay` | include/carteret/differential.hpp:87-164 | from fresh books, a run is passed if and only if no add was refused and no invariant check fell due while an order of size zero was live; then both books hold exactly the book of the messages and their counters are those of the two readings of `U`; within capacity a divergence is the first such check, and nothing else |
| `Differentials.Differential.On` | include/carteret/differential.hpp:87-164 | while nothing has diverged each book takes its step; books that agree go on agreeing, a refused add is reported at once, and otherwise something is reported exactly when a check falls due on an order of size zero; after a divergence it stays as it was |
| `Differentials.Differential.Modify` | include/carteret/differential.hpp:233-243 | the level is looked up before the message is applied, and agreeing books agree afterwards |
| `Differentials.Differential.Drive` | include/carteret/differential.hpp:226-231 | both books take the step, and agreement can only be lost, visibly, by a refused add |
| `Differentials.Differential.RefusalShows` | include/carteret/fast_book.hpp:604-618 | an add the fast book refuses leaves the touched level different in the two books, so the comparison of that level fails |
| `Differentials.Differential.CompareLevelNow` | include/carteret/differential.hpp:286-316 | passes if and only if nothing diverged before and presence, aggregates, order count and whole FIFO of the level are equal; the first divergence is kept |
| `Differentials.Differential.CompareBboNow` | include/carteret/differential.hpp:322-350 | passes if and only if nothing diverged before and both sides have the same best price or none |
| `Differentials.Differential.CompareEverything` | include/carteret/differential.hpp:179-204 | passes if and only if every reference level below the last locate equals the fast one and the live counts are equal |
| `Differentials.FullCompareIsSound` | include/carteret/differential.hpp:179-204 | a passed comparison of well-formed books with nothing at locate 0xFFFF means equal levels and equal live references: the fast book has no extra level, by counting orders |
| `Differentials.FullCompareIsExact` | include/carteret/differential.hpp:179-204 | with nothing at the last locate the comparison passes exactly on books with the same levels and as many orders |
| `Differentials.BlindExactlyAtLast` | include/carteret/differential.hpp:179-204 | a passed comparison guarantees equal levels, whatever the other book, if and only if nothing rests at locate 0xFFFF |
| `Differentials.LastLocateIsUnseen` | include/carteret/differential.hpp:179-204 | two different books pass the comparison when they differ at locate 0xFFFF only |
| `Differentials.Differential.CheckInvariantsNow` | include/carteret/differential.hpp:270-279 | finds something if and only if one of the books holds an order of size zero, and keeps an earlier divergence |
| `Differentials.Differential.Periodic` | include/carteret/differential.hpp:256-265 | at its two intervals, and only then, demands both checks; a failure of books that compare equal is an invariant violation |
| `Differentials.ReadingsShareBook` | include/carteret/reference_book.hpp:294-306 | the two readings of `U` never differ in the book or in the end-of-hours flag |
| `Differentials.SizedRunsAreQuiet` | include/carteret/differential.hpp:270-279 | orders of positive size never make a check report anything, so within capacity such runs pass |
| `Differentials.ZeroSizeIsReported` | include/carteret/differential.hpp:270-279 | one add of no shares is within any capacity, and with checks at every message raises the alarm |
| `Differentials.ReportsZeroSize` | include/carteret/differential.hpp:81-83 | a harness built with its checks at every message reports that run at its first message, although the books agree |
| `Differentials.ReadingsDiffer` | include/carteret/fast_book.hpp:266-282 | the two readings of one message differ exactly when it is a replace that names another symbol, and that symbol, in the book before without the new reference, shows otherwise than the retained one does afterwards |
| `Differentials.CountersAgreeExactly` | include/carteret/fast_book.hpp:266-282 | the shared counters agree after every message if and only if every replace names the retained symbol or one that shows the same, judged on the book before it |
| `Differentials.NamingRetainedAgrees` | include/carteret/reference_book.hpp:294-306 | if every replace names the symbol of the order it replaces, whole states agree |
| `Differentials.NamingAnotherParts` | include/carteret/reference_book.hpp:294-306 | a run of three messages after which the crossed counters differ by one |
| `BookSpec.StepWellFormed` | include/carteret/fast_book.hpp:234-290 | after any message each live order is in exactly one queue, once, the queue of its own level, and no queue is empty |
| `BookSpec.StepPositive` | include/carteret/reference_book.hpp:392-416 | adds and replaces of positive size never leave an order of size zero |
| `BookSpec.PositiveByLevel` | include/carteret/reference_book.hpp:392-416 | checking every level for orders of size zero checks every order |
| `BookSpec.SumAfterErase` | include/carteret/fast_book.hpp:714-745 | erasing an order takes exactly its shares off its level's sum |
| `BookSpec.BestBidIsHighest` | include/carteret/reference_book.hpp:71 | the best bid is a price if and only if a level rests there and every bid's is no higher |
| `BookSpec.BestOfferIsLowest` | include/carteret/reference_book.hpp:71 | the best offer is a price if and only if a level rests there and every offer's is no lower |
| `BookSpec.NoBestExactly` | include/carteret/fast_book.hpp:751-781 | a side has no best price if and only if it has no level |
| `BookSpec.ObservedExactly` | include/carteret/reference_book.hpp:545-612 | a look is crossed if and only if some bid is above some offer, locked if and only if none is and some bid is at an offer's price, one-sided if and only if a side has no level, and apart otherwise |
| `BookSpec.StepCounts` | include/carteret/reference_book.hpp:191-330 | over any message eleven counters move by one for exactly their own kind of message: orphans by kind, duplicates, zero-share crosses, removals at zero, over-takes, messages after the end of hours, and all of them |
| `BookSpec.LooksAreCounted` | include/carteret/reference_book.hpp:191-330 | the crossed and locked counters gain from exactly one look after an add, execution, cancel or delete, from two after a replace of a live order, and from nothing else |
| `BookSpec.OrphansAreCounted` | include/carteret/reference_book.hpp:475-512 | over a run each of the three orphan counters is the number of messages of its kind that named no live order when they came |
| `BookEffects.OrdersAfter` | include/carteret/fast_book.hpp:234-290 | the order under every reference after any message: only an add and a replace of a live order put one in, with the old symbol and side for a replace, and reductions go down to removal |
| `BookEffects.NobodyPasses` | include/carteret/fast_book.hpp:604-745 | time priority: of the orders that were there, whoever is ahead in a level after a message was ahead before it |
| `BookEffects.JoinsTheBack` | include/carteret/fast_book.hpp:266-282 | what a message puts in is last in the queue of its level, even by a replace at its own price |
| `BookSpec.BestExists` | include/carteret/fast_book.hpp:751-781 | an occupied level means its side has a best price, and the best is at least as good as every level |
| `FastBooks.FastBook.On` | include/carteret/fast_book.hpp:234-290 | every message has exactly its abstract effect, on orders, queues and counters; only an add can be refused, for a full pool or an unknown symbol, and the index never fails |
| `FastBooks.FastBook.Add` | include/carteret/fast_book.hpp:604-658 | refused exactly for a symbol beyond the table or a full pool without a duplicate to replace; otherwise a live duplicate is counted and replaced, the order joins the back of its level, and each window of the symbol is where its best price, seen from its first anchor, puts it |
| `FastBooks.FastBook.Enter` | include/carteret/fast_book.hpp:619-658 | accepted exactly when fewer orders are live than the pool holds: with the index sized for the pool, only the pool can refuse |
| `FastBooks.FastBook.OnReplace` | include/carteret/fast_book.hpp:266-282 | the old order's symbol and side are kept, the new one goes to the back of its level, and it is never refused, its slot having just been freed |
| `FastBooks.FastBook.Reduce` | include/carteret/fast_book.hpp:661-683 | false exactly for an unknown reference; takes at most the resting size, counts an over-take, and drops the order at zero |
| `FastBooks.FastBook.EraseRef` | include/carteret/fast_book.hpp:685-694 | removes exactly the named order from the book, or reports that there is none |
| `FastBooks.FastBook.Unlink` | include/carteret/fast_book.hpp:714-745 | the pool and the levels after unlinking: neighbours are joined, head and tail follow, the empty level is dropped, and no other level moves |
| `FastBooks.FastBook.Release` | include/carteret/fast_book.hpp:429-434 | the slot becomes the head of the free list |
| `FastBooks.FastBook.Alloc` | include/carteret/fast_book.hpp:419-427 | takes the head of the free list, or counts an exhaustion and changes nothing |
| `FastBooks.FastBook.SeedFreeList` | include/carteret/fast_book.hpp:217-230 | every slot is on the free list, in order |
| `FastBooks.FastBook.constructor` | include/carteret/fast_book.hpp:217-230 | for a pool of at most half the index's capacity, starts as the empty book with no window set |
| `FastBooks.FastBook.BestOf` | include/carteret/fast_book.hpp:751-781 | the best price of the abstract book or none, which is its highest bid or lowest offer |
| `FastBooks.FastBook.CheckBbo` | include/carteret/fast_book.hpp:790-799 | counts a crossed or locked inside, changes no level, moves no window of another symbol, and leaves each side's best price in its window unless it is below an old origin under the hysteresis |
| `FastBooks.FastBook.Level` | include/carteret/fast_book.hpp:334-349 | the snapshot is the level of the abstract book, with its references in FIFO order read along the links |
| `FastBooks.FastBook.LiveOrders` | include/carteret/fast_book.hpp:295 | the index size is the number of live orders |
| `FastBooks.FastBook.WalkLevel` | include/carteret/fast_book.hpp:400-417 | in a reachable book the walk finds something if and only if an order of the level has size zero |
| `FastBooks.FastBook.CheckInvariants` | include/carteret/fast_book.hpp:353-376 | over all windows and overflows, finds something if and only if some live order has size zero; no link, count or aggregate is ever wrong |
| `FastBooks.FastBook.LocateInTable` | include/carteret/fast_book.hpp:604-609 | every live order's symbol is in the table |
| `FastPools.SlotsPartition` | include/carteret/fast_book.hpp:419-434 | every slot is on the free list or holds a live order, never both, and holds that order's data |
| `FastPools.FreeCount` | include/carteret/fast_book.hpp:419-427 | the free list is empty exactly when as many orders are live as the pool holds |
| `FastPools.EraseFacts` | include/carteret/fast_book.hpp:714-745 | unlinking and freeing a slot is erasing the order from the book: lists stay doubly consistent, the partition of slots is kept, and each level is what the smaller book says |
| `FastPools.AddFacts` | include/carteret/fast_book.hpp:619-657 | filling the first free slot and linking it behind the tail is appending to the queue, with every other level untouched |
| `FastPools.DeductFacts` | include/carteret/fast_book.hpp:661-683 | lowering an order in place lowers its level by the same amount, and moves nothing |
| `FastPools.Neighbours` | include/carteret/fast_book.hpp:714-745 | in a queue each slot's links are its neighbours' slots, and are absent exactly at the ends |
| `FastPools.WalkStep` | include/carteret/fast_book.hpp:400-417 | the j-th step along the links meets the j-th order of the queue |
| `FastPools.BestFromLevels` | include/carteret/fast_book.hpp:751-781 | the best occupied level is the best key of the abstract book |
| `SymbolTables.SymbolTable.StoreLevel` | include/carteret/fast_book.hpp:699-745 | writing one level of one side leaves every other level of every symbol alone |
| `SymbolTables.SymbolTable.GrowLevel` | include/carteret/fast_book.hpp:619-649 | finds or creates the level, returns its old tail and links the new order behind it; no other level changes |
| `SymbolTables.SymbolTable.MaybeRecenter` | include/carteret/fast_book.hpp:541-559 | changes no level of any symbol and no other window, and moves the window where the best price puts it |
| `FastSides.FastSide.Recenter` | include/carteret/fast_book.hpp:476-530 | the price-to-level map is unchanged, every level is in exactly one home, the bitmap matches, and the origin moves if and only if the drift reaches the hysteresis |
| `FastSides.FastSide.MaybeRecenter` | include/carteret/fast_book.hpp:541-559 | no level changes, the best found is the true best, and afterwards it is in the window if and only if it is not below an old origin that was under the hysteresis |
| `FastSides.RebaseCovers` | include/carteret/fast_book.hpp:455-485 | the best is covered after the origin has been looked at, except exactly when best < base < W/8 |
| `FastBooks.BestLeftOutside` | include/carteret/fast_book.hpp:541-592 | a book with windows of 64 cents to which offers are added at 13 cents and then at 2 cents has its best offer outside its window |
| `FastSides.RebaseExactly` | include/carteret/fast_book.hpp:455-485 | where anchoring leaves the best price, an eighth of the window from the edge that better prices would cross unless clamped at zero, and exactly when a window moves |
| `FastSides.AnchorCovers` | include/carteret/fast_book.hpp:455-462 | anchoring on a price puts that price in the window |
| `FastSides.FastSide.LevelFor` | include/carteret/fast_book.hpp:567-592 | finds or creates a home for the price without changing any level, anchoring and allocating on first use |
| `FastSides.FastSide.FindLevel` | include/carteret/fast_book.hpp:594-602 | reads the level of a price wherever it lives |
| `FastSides.FastSide.Store` | include/carteret/fast_book.hpp:699-745 | writes one level; its occupancy bit and its overflow entry follow, and no other price is affected |
| `FastSides.FastSide.Best` | include/carteret/fast_book.hpp:751-781 | the returned price is occupied, and no occupied price of window and overflow is above it for bids, or below it for offers |
| `FastSides.FastSide.CollectWindow` | include/carteret/fast_book.hpp:489-504 | walking the set bits lists exactly the occupied window levels, each with its price |
| `LevelBitmaps.LevelBitmap.Set` | include/carteret/fast_book.hpp:125-128 | occupies exactly the slot more, and keeps the summary bit of a word set iff the word is nonzero |
| `LevelBitmaps.LevelBitmap.Clear` | include/carteret/fast_book.hpp:129-133 | vacates exactly the slot, and keeps the summary exact |
| `LevelBitmaps.LevelBitmap.Lowest` | include/carteret/fast_book.hpp:137-142 | the least occupied slot, or the width if there is none |
| `LevelBitmaps.LevelBitmap.Highest` | include/carteret/fast_book.hpp:143-147 | the greatest occupied slot, or the width if there is none |
| `OrderIndexes.OrderIndex.Find` | include/carteret/order_index.hpp:73-83 | the value stored for the key, or the none marker, in every reachable table |
| `OrderIndexes.OrderIndex.Insert` | include/carteret/order_index.hpp:88-114 | stores exactly the entry, unless the marker is given or half load would be passed, even for an overwrite; failures are counted |
| `OrderIndexes.OrderIndex.Erase` | include/carteret/order_index.hpp:117-131 | removes exactly the key and returns its value, or the marker |
| `OrderIndexes.OrderIndex.EraseAt` | include/carteret/order_index.hpp:158-175 | backward-shift deletion removes exactly the key of the hole and leaves every other key reachable from its home |
| `OrderIndexes.OrderIndex.constructor` | include/carteret/order_index.hpp:47-55 | an empty table of a power of two slots, at least 16 and at least twice the hint |
| `OrderIndexes.OrderIndex.Capacity` | include/carteret/order_index.hpp:47-55 | the capacity is the least sufficient power of two, doubled, and at least 16 |
| `OrderIndexes.OrderIndex.Probe` | include/carteret/order_index.hpp:73-83 | a probe ends, at the key's own slot or at a vacant one, and that decides membership |
| `OrderIndexes.ProbeDecides` | include/carteret/order_index.hpp:73-83 | where a probe stops decides whether the key is present and with which value |
| `OrderIndexes.PutEntry` | include/carteret/order_index.hpp:88-114 | writing where the probe stops keeps every other key reachable |
| `OrderIndexes.ShiftMoves` | include/carteret/order_index.hpp:158-175 | pulling an entry back into the hole keeps every path clear but for the new hole, across wraparound |
| `OrderIndexes.ShiftSkips` | include/carteret/order_index.hpp:158-175 | an entry already at or after its home relative to the hole may stay where it is |
| `OrderIndexes.ShiftEnds` | include/carteret/order_index.hpp:158-175 | at the end of the run the table stores exactly the remaining entries |
| `OrderIndexes.VacantSlot` | include/carteret/order_index.hpp:88-95 | a table with fewer keys than slots has a vacant one, so every probe ends |
| `OrderIndexes.MaskingStaysInside` | include/carteret/hash_policy.hpp:39-45 | the identity and library policies give a slot of the table |
| `OrderIndexes.MultiplyShiftStaysInside` | include/carteret/hash_policy.hpp:51-58 | the multiplying policy gives a slot of the table |
| `OrderIndexes.PoliciesExactly` | include/carteret/hash_policy.hpp:39-70 | the identity policy is the remainder modulo the table, the multiplying one the top bits of the product with 2^64 over the golden ratio rounded down |
| `Bits.NextIsMasked` | include/carteret/order_index.hpp:73-83 | stepping with a mask is stepping around the ring |
| `ChainedIndexes.ChainedIndex.Find` | bench/chained_index.hpp:89-98 | the value stored for the key, or the marker |
| `ChainedIndexes.ChainedIndex.Insert` | bench/chained_index.hpp:100-124 | overwrites at any load, and adds a key exactly while a node is free; failures are counted |
| `ChainedIndexes.ChainedIndex.Erase` | bench/chained_index.hpp:126-146 | removes exactly the key and returns its value, or the marker |
| `ChainedIndexes.ChainedIndex.Clear` | bench/chained_index.hpp:148-157 | forgets every entry and frees every node |
| `ChainedIndexes.ChainedIndex.constructor` | bench/chained_index.hpp:64-75 | an empty table with at least the hint's nodes, rounded up to a power of two |
| `ChainedIndexes.Pushed` | bench/chained_index.hpp:100-124 | a free node pushed on its bucket stores exactly the new entry; chains and free list still share nothing |
| `ChainedIndexes.Removed` | bench/chained_index.hpp:126-146 | a node cut out and freed removes exactly its key; chains and free list still share nothing |
| `ReferenceBooks.ReferenceBook.On` | include/carteret/reference_book.hpp:191-330 | every message has exactly its abstract effect, and the gate sees exactly the events the message makes |
| `ReferenceBooks.ReferenceBook.AddRetained` | include/carteret/reference_book.hpp:439-470 | a live duplicate is counted and replaced, the order goes to the back of its level, and the symbol is looked at |
| `ReferenceBooks.ReferenceBook.Execute` | include/carteret/reference_book.hpp:475-505 | takes at most the resting size, counts an over-take, and the order leaves at zero |
| `ReferenceBooks.ReferenceBook.Remove` | include/carteret/reference_book.hpp:507-512 | removes exactly the named order, or reports that there is none |
| `ReferenceBooks.ReferenceBook.EraseEntry` | include/carteret/reference_book.hpp:522-539 | takes the order out of its queue and aggregates and drops the level if that empties it |
| `ReferenceBooks.ReferenceBook.OnReplace` | include/carteret/reference_book.hpp:294-306 | keeps symbol and side of the old order, then looks at its symbol and at the message's |
| `ReferenceBooks.ReferenceBook.BestOf` | include/carteret/reference_book.hpp:545-560 | the last key of the bids and the first of the asks are the best prices of the abstract book, its highest bid and lowest offer |
| `ReferenceBooks.ReferenceBook.CheckBbo` | include/carteret/reference_book.hpp:545-624 | counts a crossed or locked inside as the abstract book does, and takes one look through the gate, whose buckets `LandsInItsBucket` fixes |
| `ReferenceBooks.ReferenceBook.Level` | include/carteret/reference_book.hpp:352-365 | the snapshot is the level of the abstract book |
| `ReferenceBooks.ReferenceBook.DepthAt` | include/carteret/reference_book.hpp:376-388 | the stored aggregate is the sum over the level's queue |
| `ReferenceBooks.ReferenceBook.CheckInvariants` | include/carteret/reference_book.hpp:392-416 | finds something if and only if some live order has size zero |
| `ReferenceBooks.ShowsAfterErase` | include/carteret/reference_book.hpp:522-539 | the aggregates after an erase are those of the smaller book, and never underflow |
| `ReferenceBooks.ReplayGate` | include/carteret/reference_book.hpp:191-330 | a session from a fresh book leaves it as the fold of its messages, the gate as the fold of the events they make, both sums of buckets balanced, and the crossed and locked counters the gate's totals |
| `ReferenceBooks.EventsAreOrdered` | include/carteret/reference_book.hpp:191-330 | messages whose times do not go back make an ordered run of gate events, of which all that follows holds |
| `Gates.BucketsBalance` | include/carteret/reference_book.hpp:545-624 | over every run crossed and locked observations each equal the sum of their five excuse buckets |
| `Gates.LandsInItsBucket` | include/carteret/reference_book.hpp:551-612 | for every run, from its events alone: a crossed or locked look is counted once, before the first action if the latest state is none, else under an operational halt if the latest of these is 'H', else while not trading if the latest state is not 'T', else awaiting the reopening if a window has opened and not closed and the cap has not run, else unexplained |
| `Gates.OthersAreNotCounted` | include/carteret/reference_book.hpp:545-624 | no other event moves a bucket |
| `Gates.PassesExactly` | include/carteret/reference_book.hpp:589-612 | a run leaves both unexplained counters at zero if and only if none of its crossed or locked looks is at a symbol that trades with no open window within its cap |
| `Gates.GateCounts` | include/carteret/reference_book.hpp:200-239 | state changes, halts, releases, windows and capped windows each count exactly their own events of the run |
| `Gates.StateIs` | include/carteret/reference_book.hpp:200-216 | the state held for a symbol is that of its latest action in the run |
| `Gates.HaltIs` | include/carteret/reference_book.hpp:229-239 | a symbol is operationally halted if and only if the latest halt action that halts or releases is 'H' |
| `Gates.WindowIs` | include/carteret/reference_book.hpp:200-330 | a symbol awaits its reopening if and only if the run has opened a window for it and nothing has closed it since |
| `GateCases.OnlyItsOwnMarketExcuses` | include/carteret/reference_book.hpp:229-239 | a symbol that trades, is halted by some market and then crosses is excused if that market is the one replayed, and fails the gate if it is another |
| `Gates.ClockShowsEntry` | include/carteret/reference_book.hpp:200-216 | while a symbol trades or waits for its reopening the clock shows its latest entry into 'T' |
| `Gates.ExcuseIsBounded` | include/carteret/reference_book.hpp:562-600 | an observation excused as awaiting the reopening is made in state 'T', not halted, and within the cap of the latest entry into 'T' |
| `Gates.ClosingShuts` | include/carteret/reference_book.hpp:320-330 | a cross, a clean two-sided look and an outlived cap each close the window |
| `Gates.StaysShut` | include/carteret/reference_book.hpp:200-216 | a closed window stays closed until a halt ends in a transition into 'T' |
| `Gates.NoExcuseAfterClosing` | include/carteret/reference_book.hpp:545-624 | after a window has closed, a later excuse has a new transition into 'T' before it |
| `QueueRules.ExecutionHeard` | include/carteret/queue_sim.hpp:467-512 | an execution at a better price than the order's leaves it as it was, one at a worse price fills every live view as traded through, and at its own price each view does its own sum, on either side; other symbols and sides are left alone |
| `QueueRules.RemovalHeard` | include/carteret/queue_sim.hpp:517-594 | a removal at the order's price: conservative stays, optimistic loses it, exact loses it if the order was ahead, proportional keeps its part of the level, and Bernoulli loses all of it for certain, none for certain, or what the coin says; other orders are left alone |
| `QueueRules.PrintHeard` | include/carteret/queue_sim.hpp:371-379 | a print fills every live view if the rule for it is on and it is at the order's price, and otherwise does nothing |
| `QueueRules.NothingHeard` | include/carteret/queue_sim.hpp:316-365 | no other message, and none that names no live order, changes an order |
| `QueueClocks.OutlivesByOneSweep` | include/carteret/queue_sim.hpp:658-672 | after any stream whose outside placements are made at the time of the clock, an order still live under some model is younger than its limit and 100 ms |
| `QueueClocks.SweepsExactly` | include/carteret/queue_sim.hpp:658-672 | when 100 ms have passed since the last sweep exactly the live orders younger than their limit stay, otherwise all do, and what joins has entered just now |
| `QueueStreams.EveryOrderRanks` | include/carteret/queue_sim.hpp:37-70 | for every order of every stream, whatever its references, sides, sizes and times: optimistic ≤ Bernoulli ≤ conservative and proportional ≤ conservative in shares ahead while live, and a fill under one is a fill under those it leads; on orderly streams also optimistic ≤ proportional; where times do not go back fills are also no later |
| `QueueStreams.ExactKnows` | include/carteret/queue_sim.hpp:467-594 | on orderly streams: while exact is live its references are a prefix of the level's FIFO in the book; its count is their sum if no message takes more than there is; and if orders have sizes and no execution takes more than there is, a conservative fill is an exact fill, and no later where times do not go back |
| `QueueStreams.FillsRank` | include/carteret/queue_sim.hpp:596-630 | counted over every order of any stream, conservative fills no more than Bernoulli and proportional, and Bernoulli no more than optimistic; on orderly streams proportional no more than optimistic, and conservative no more than exact where orders have sizes and no execution takes more than there is |
| `QueueStreams.StreamFollows` | include/carteret/queue_sim.hpp:316-434 | through messages, placements, withdrawals and sweeps of an orderly stream every order stays ranked and within its level, with the front of its queue ahead of exact |
| `QueueStreams.StreamBracketed` | include/carteret/queue_sim.hpp:316-434 | the relations that need no depth are kept through any stream |
| `QueueStreams.FollowsCompacted` | include/carteret/queue_sim.hpp:785-794 | giving up some orders and sweeping keeps every order ranked, those that stay and those that go |
| `QueueSims.QueueSimulator.Run` | include/carteret/queue_sim.hpp:316-434 | a fresh simulator through any stream is in the state the stream gives, its fills are those of every order of the stream, and they rank |
| `QueueSims.QueueSimulator.Act` | include/carteret/queue_sim.hpp:316-406 | each of the three ways in takes the simulator to the next state of the stream |
| `QueueSims.QueueSimulator.CountsEverything` | include/carteret/queue_sim.hpp:596-656 | a model's fills are those of every order ever placed, swept out or not |
| `QueueSims.QueueSimulator.AccountsBalance` | include/carteret/queue_sim.hpp:596-647 | for every model placed = filled + expired + live = placements, there is one reason and one fill time per outcome, and the four breakdowns each add up to the totals |
| `QueueSims.QueueSimulator.ListsAreExact` | include/carteret/queue_sim.hpp:743-794 | a symbol's list holds each position of its live orders once and nothing else |
| `QueueSims.QueueSimulator.On` | include/carteret/queue_sim.hpp:316-382 | one message: the book takes its step, every live order hears exactly what the message does to it, and the clock with its sweeps and placements moves or does not; the whole new state is given |
| `QueueSims.QueueSimulator.OnExecution` | include/carteret/queue_sim.hpp:467-512 | every order of the executed symbol, and no other, sees the execution, which does to it what `ExecutionHeard` says |
| `QueueSims.QueueSimulator.OnCancel` | include/carteret/queue_sim.hpp:517-594 | every order sees the removal with the depth left at its own level |
| `QueueSims.QueueSimulator.OnPrint` | include/carteret/queue_sim.hpp:364-382 | a print at an order's price fills it under every live model, when that rule is on |
| `QueueSims.QueueSimulator.FillAt` | include/carteret/queue_sim.hpp:596-630 | one model of one order is filled and the accounts still balance |
| `QueueSims.QueueSimulator.FillAllLive` | include/carteret/queue_sim.hpp:632-636 | every model that has the order live fills it |
| `QueueSims.QueueSimulator.ExpireAt` | include/carteret/queue_sim.hpp:638-647 | every model that has the order live gives it up |
| `QueueSims.QueueSimulator.PlaceAt` | include/carteret/queue_sim.hpp:718-756 | exactly when the symbol is two-sided, one order joins at the best price of its side, behind that level's whole queue under every model; otherwise a skip is counted |
| `QueueSims.QueueSimulator.Compact` | include/carteret/queue_sim.hpp:785-794 | drops exactly the orders no model has live, keeps the order of the rest, and lists them exactly |
| `QueueSims.QueueSimulator.CancelSymbol` | include/carteret/queue_sim.hpp:401-406 | afterwards exactly the live orders of other symbols remain, in order |
| `QueueSims.QueueSimulator.Sweep` | include/carteret/queue_sim.hpp:658-691 | afterwards exactly the live orders younger than their life remain, in order |
| `QueueSims.QueueSimulator.Tick` | include/carteret/queue_sim.hpp:658-691 | a time before the last is ignored; otherwise a sweep happens exactly at its interval and the placements join in turn, and every invariant is kept |
| `QueueSims.QueueSimulator.Finish` | include/carteret/queue_sim.hpp:428-434 | afterwards nothing is live, for every model placed = filled + expired = placements, and the fills are those of every order |
| `QueueSims.PositionsExact` | include/carteret/queue_sim.hpp:743-794 | the positions of a symbol are those of its orders, each once |
| `QueueModels.ExecutionViews` | include/carteret/queue_sim.hpp:467-512 | what an execution at the order's price does to all five views at once |
| `QueueModels.BracketedAfterExecution` | include/carteret/queue_sim.hpp:467-512 | an execution keeps the order of the four approximations, whatever it executes |
| `QueueModels.BracketedAfterCancel` | include/carteret/queue_sim.hpp:517-594 | a removal keeps optimistic ≤ Bernoulli ≤ conservative and proportional ≤ conservative, whatever the depth of the level |
| `QueueModels.DominatedAfterCancelExactly` | include/carteret/queue_sim.hpp:517-594 | a removal at the price keeps the order of the approximations if and only if proportional takes off no more than the removal and its lead over optimistic, or the removal brings optimistic to the front |
| `QueueModels.WithinDepthIsExact` | include/carteret/queue_sim.hpp:538-592 | where optimistic and proportional have the same count, that is if and only if proportional is within the level's depth before the removal |
| `QueueModels.ExactLeadsExactly` | include/carteret/queue_sim.hpp:483-509 | an execution at the price keeps exact no worse than conservative unless it names an order tracked ahead while conservative believes nothing is |
| `QueueModels.DominatedAfterCancel` | include/carteret/queue_sim.hpp:517-594 | a removal also keeps optimistic ≤ proportional as long as proportional is within the level's depth before it |
| `QueueModels.ShareBounds` | include/carteret/queue_sim.hpp:538-592 | the proportional share of a removal is at most all of it, and what stays ahead is at most what stays on the level |
| `QueueModels.WithinDepthAfterExecution` | include/carteret/queue_sim.hpp:498-509 | an execution at the price keeps proportional within the depth |
| `QueueModels.BracketedAfterPrint` | include/carteret/queue_sim.hpp:364-382 | a print keeps the order of the models |
| `QueueModels.BracketedAfterExpiry` | include/carteret/queue_sim.hpp:638-647 | giving an order up keeps the order of the models |
| `QueueBooks.DepthAfterStep` | include/carteret/reference_book.hpp:475-539 | an orderly message takes out of a level at most what it names there, and exactly that unless it also adds |
| `QueueBooks.TracksAfterStep` | include/carteret/queue_sim.hpp:483-492 | after every orderly message, whatever it takes, the tracked references are still a prefix of the FIFO, and their sum has lost what was really taken |
| `QueueBooks.RankedAfterExecution` | include/carteret/queue_sim.hpp:467-512 | an order stays ranked, and within its level, through an execution applied to book and order |
| `QueueBooks.RankedAfterRemoval` | include/carteret/queue_sim.hpp:517-594 | an order stays ranked, and within its level, through a cancel, delete or replace, with the depth the code reads |
| `QueueBooks.FrontedAfterTaking` | include/carteret/queue_sim.hpp:483-530 | through any execution or removal the references ahead of exact stay the front of the queue, and its count their sum if the message takes no more than there is |
| `QueueBooks.BackedAfterExecution` | include/carteret/queue_sim.hpp:483-509 | where orders have sizes, an execution that takes no more than there is fills exact by the time it fills conservative |
| `QueueBooks.BackedAfterRemoval` | include/carteret/queue_sim.hpp:524-530 | a removal, whatever it takes, leaves conservative believing at least what is really ahead |
| `QueueBooks.RankedAtEntry` | include/carteret/queue_sim.hpp:718-741 | a new order is ranked and exact, with its whole level ahead |
| `QueueBooks.AddedBackIsBefore` | include/carteret/queue_sim.hpp:517-545 | the depth after a removal plus what it removed is the depth before, if and only if it takes no more than is there and is not a replace at the same price with shares |
| `QueueBooks.RankedAfterHearing` | include/carteret/queue_sim.hpp:316-382 | through any orderly message an order stays ranked and the front of the queue stays ahead of exact, with the conditions of each further claim on the message alone |
| `QueueBooks.PartsOnZeroSize` | include/carteret/queue_sim.hpp:483-509 | an order tracked ahead while conservative believes nothing is ahead is a live order of size zero at the price |
| `QueueBooks.OverTakeExactly` | include/carteret/queue_sim.hpp:483-530 | what a message takes leaves exact's count right if and only if it is no more than the order ahead has, or nothing else is ahead |
| `QueueCases.ZeroSizeAheadParts` | include/carteret/queue_sim.hpp:483-509 | a stream of four actions, with a bid of size zero, after which conservative has filled and exact is live |
| `QueueCases.OverTakeParts` | include/carteret/queue_sim.hpp:483-509 | a stream with an execution of more than an order has, after which exact's count is not what is ahead, and then conservative fills and exact does not |
| `QueueCases.UnseenShrinkParts` | include/carteret/queue_sim.hpp:560-592 | a stream of five actions, with a second order under a live reference, after which proportional is ahead of optimistic |
| `QueueCases.OddSideParts` | include/carteret/queue_sim.hpp:560-592 | a stream with an order of a side that is neither, after which proportional is ahead of optimistic |
| `QueueCases.OtherPriceExecuted` | include/carteret/queue_sim.hpp:474-480 | a stream for every other price: a bid joins there and is executed; above the order's price nothing happens to it, below it every view has traded through |
| `QueueCases.ExactFillsAlone` | include/carteret/queue_sim.hpp:37-70 | a stream after which exact has filled and optimistic has not |
| `QueueCases.OptimisticFillsAlone` | include/carteret/queue_sim.hpp:37-70 | a stream after which optimistic has filled and exact has not |
| `QueueTallies.BucketsPartition` | include/carteret/queue_sim.hpp:144-166 | each count is in exactly one bucket of either table: from its edge on and short of the next |
| `QueueTallies.FillTimesPartition` | include/carteret/queue_sim.hpp:169-179 | each time to fill is in exactly one of the twelve buckets, told by their edges, and two buckets make a decade |
| `QueueTallies.FillIsCounted` | include/carteret/queue_sim.hpp:596-630 | a fill is counted under its symbol, the two buckets of its depth at entry, its reason and the bucket of its time to fill, each told by edges alone |
| `QueueTallies.BucketRises` | include/carteret/queue_sim.hpp:144-166 | a larger count is never in an earlier bucket |
| `QueueTallies.TalliedAfterPlacing` | include/carteret/queue_sim.hpp:743-755 | placing keeps all four breakdowns in step with the totals |
| `QueueTallies.TalliedAfterFill` | include/carteret/queue_sim.hpp:596-630 | filling keeps all four breakdowns in step with the totals |
| `QueueTallies.TalliedAfterExpiry` | include/carteret/queue_sim.hpp:638-647 | giving up keeps all four breakdowns in step with the totals |
| `QueueTallies.TalliedAfterSweep` | include/carteret/queue_sim.hpp:785-794 | sweeping settled orders out keeps all four breakdowns in step, with their fills remembered |
| `QueueTallies.KeptStay` | include/carteret/queue_sim.hpp:401-406 | expiring the orders that fail a test and compacting leaves exactly the live orders that pass it |
| `QueueTallies.StayingMembers` | include/carteret/queue_sim.hpp:785-794 | an order stays if and only if it was live and passes the test |
| `QueueTallies.AllSettled` | include/carteret/queue_sim.hpp:428-434 | with nothing live everything placed has filled or expired |
| `QueueTallies.FillsFollow` | include/carteret/queue_sim.hpp:596-630 | if each fill under one model is a fill under another, its total is no larger |
| `SpscRings.SpscRing.Run` | bench/spsc.hpp:36-50 | every interleaving of the two sides' steps does to the ring, with its slots, wrapped indices and caches, what it does to the queue of unbounded counts; pops stay a prefix of pushes and no more than the capacity is held |
| `SpscRings.EveryInterleavingIsAQueue` | bench/spsc.hpp:36-50 | over every schedule taken is a prefix of published, published of asked, both only grow, and at most the capacity is between them |
| `SpscRings.FiveStepsAreEnough` | bench/spsc.hpp:36-50 | with an item in the ring five steps of the consumer alone take one, with room five of the producer alone publish one: neither depends on the other being scheduled |
| `SpscRings.SpscRing.CheckRoom` | bench/spsc.hpp:36-38 | the wrapped test with the cached tail finds room exactly if fewer than the capacity are unread as far as the producer has seen; else the cache is refreshed |
| `SpscRings.SpscRing.WriteSlot` | bench/spsc.hpp:39 | the written slot holds no unread item |
| `SpscRings.SpscRing.PublishHead` | bench/spsc.hpp:40 | publishing appends exactly the written item |
| `SpscRings.SpscRing.CheckItem` | bench/spsc.hpp:44-46 | the test on the cached head finds an item exactly if one is published as far as the consumer has seen; else the cache is refreshed |
| `SpscRings.SpscRing.ReadSlot` | bench/spsc.hpp:47 | what is read is the next item pushed |
| `SpscRings.SpscRing.PublishTail` | bench/spsc.hpp:48-49 | publishing takes exactly the next item off |
| `SpscRings.SlotOfWrapped` | bench/spsc.hpp:30-47 | masking a wrapped index gives the slot of the true count, because the capacity is a power of two |
| `SpscRings.MinusExact` | bench/spsc.hpp:38 | the wrapped difference of two indices is the true one |
| `SpscRings.SlotsDiffer` | bench/spsc.hpp:39 | counts less than a capacity apart have different slots |
| `Wire.MsgLen` | include/carteret/spec.hpp:65-91 | a type byte has no length or one from 12 to 50 bytes, so the eight-byte load at offset 3 stays inside |
| `Layouts.LengthsTile` | include/carteret/spec.hpp:584-610 | the header tiles its eleven bytes, the fields of each type tile the rest of its length, and a byte has length zero if and only if it has no fields |
| `Layouts.EachByteOnce` | include/carteret/spec.hpp:412-425 | fields that tile a stretch hold each byte of it exactly once and no other byte |
| `Layouts.Audit` | include/carteret/spec.hpp:412-425 | the audit of a table accepts exactly those that tile |
| `Wire.PairsAreBigEndian` | include/carteret/wire.hpp:32-48 | the first of two bytes is the more significant, read or written |
| `Wire.OneLoadTwoFields` | include/carteret/wire.hpp:63-73 | the one load gives the six-byte timestamp and the two-byte tracking number |
| `Wire.BigEndianBack` | include/carteret/wire.hpp:32-48 | a number written big-endian reads back |
| `Wire.FramesAreRead` | include/carteret/wire.hpp:177-211 | framed bodies in front of anything: the good ones are handed on in order, the others are counted by kind, and reading goes on behind them |
| `Wire.SkippedFramesChangeNothing` | include/carteret/wire.hpp:197-206 | a well-framed body that is no message can be inserted anywhere without changing what is handed on |
| `Wire.RoundTrip` | include/carteret/wire.hpp:177-211 | a well-formed session reads back as its messages, and cleanly |
| `Wire.CleanIsSession` | include/carteret/parser.hpp:46-50 | a clean read means the input is the messages handed on, framed, perhaps ended by one zero prefix |
| `Wire.CleanExactly` | include/carteret/parser.hpp:46-50 | a read is clean if and only if the input is a well-formed session |
| `Wire.ZeroRoundTrip` | include/carteret/wire.hpp:213-237 | a session in the zero-prefixed form reads back as its messages, and cleanly |
| `Wire.AnyPrefixIsRead` | include/carteret/wire.hpp:213-237 | in the zero-prefixed form any prefix is passed over, and one that is not zero is counted |
| `Wire.CleanIsZeroFramed` | include/carteret/wire.hpp:213-237 | a clean zero-prefixed read means the input is the messages handed on behind zero prefixes |
| `Wire.ZeroCleanExactly` | include/carteret/parser.hpp:46-50 | a zero-prefixed read is clean if and only if the input is messages of known types behind zero prefixes |
| `Parsers.FrameReader.Next` | include/carteret/wire.hpp:166-237 | one frame of either form: status, cursor, body and both counters, for any bytes |
| `Parsers.DetectFraming` | include/carteret/wire.hpp:250-276 | the probing loops decide the form as the recursive definition of the probe does, within bounds |
| `Parsers.ProbesExactly` | include/carteret/wire.hpp:250-276 | the probe accepts a form if and only if the input begins with sixty-four messages in it, or with fewer but some where it may end; the zero form is taken only when it alone is accepted |
| `Parsers.DetectionIsRight` | include/carteret/wire.hpp:250-276 | every session of at least one message is recognised, in either form |
| `Parsers.EitherFormReadsBack` | include/carteret/parser.hpp:76-120 | without being told the form, a replay hands on exactly the messages written |
| `Parsers.Run` | include/carteret/parser.hpp:83-120 | a replay of any bytes ends, within the buffer, with the report of the frames read one after the other |
| `Parsers.HooksSeeThePrevious` | include/carteret/parser.hpp:103-109 | over any input each hook for a skipped frame is shown the last good message before that frame, or nothing if there is none |
| `Parsers.NoHookSeesItsFrame` | include/carteret/parser.hpp:103-109 | no hook is ever shown a frame that was skipped |
| `Parsers.LastGoodIs` | include/carteret/parser.hpp:86-115 | the last good message of some frames is one of them with no good one behind it |
| `Parsers.WalkedAreRead` | include/carteret/parser.hpp:86-115 | what is handed on are the good ones among the frames walked over, in order |
| `Parsers.FramesAreWalked` | include/carteret/wire.hpp:177-211 | frames in front of anything are walked one after the other |
| `MoldReceivers.MoldReceiver.Receive` | include/carteret/moldudp64.hpp:175-256 | any packet: outcome, what the handler is told, next number expected and staleness; the log stays accounted for while no number wraps; and the counters of packets are how many came to each end so far, with the end of session seen exactly if one did |
| `MoldReceivers.TalliedOnce` | include/carteret/moldudp64.hpp:142-154 | one packet moves the counter of what became of it and no other |
| `MoldReceivers.MoldReceiver.NoteGap` | include/carteret/moldudp64.hpp:267-275 | records the missing stretch, marks the feed stale and moves the expected number |
| `MoldReceivers.MoldReceiver.NumbersAreAccountedFor` | include/carteret/moldudp64.hpp:142-256 | over any packets: delivered + lost + 1 is the next number expected, numbers only go up, each number below is delivered or reported missing, once, and a message is marked stale if and only if a gap was recorded before it |
| `MoldReceivers.AccountedExactly` | include/carteret/moldudp64.hpp:202-256 | one packet keeps the accounting if and only if it is not handed on with numbers that run past the largest one and, from zero, past the next one expected |
| `MoldReceivers.MoldReceiver.SoundExactly` | include/carteret/moldudp64.hpp:175-256 | the receiver's log accounts for every number exactly while no such packet has come |
| `MoldLines.FedAccountsExactly` | include/carteret/moldudp64.hpp:175-256 | over any packets the log accounts for every number if and only if none of them did that when it came |
| `MoldReceivers.TilesCover` | include/carteret/moldudp64.hpp:175-256 | every number below the expected one is in exactly one entry of the log |
| `MoldReceivers.TilesInOrder` | include/carteret/moldudp64.hpp:175-256 | delivered numbers and gap ranges are disjoint and rise |
| `MoldLines.TwoLinesDeliverOnce` | include/carteret/moldudp64.hpp:175-256 | any interleaving of two in-order packetisations of one list, with different boundaries, delivers 1..n once, in order, with no gap and nothing stale |
| `MoldLines.Arbitrates` | include/carteret/moldudp64.hpp:175-256 | the same for any packets of the list, lost, late or doubled, none of which starts beyond one past everything before it |
| `MoldLines.GapExactlyOnJump` | include/carteret/moldudp64.hpp:202-240 | a gap is reported if and only if some packet starts beyond one past everything before it |
| `MoldLines.LinesDoNotJump` | include/carteret/moldudp64.hpp:175-256 | two lines in order, interleaved, never jump |
| `MoldLines.PacketReadsBack` | include/carteret/moldudp64.hpp:74-125 | a packet reads back as session, number, count and messages |
| `MoldLines.FullPacketReadsAsEnd` | include/carteret/moldudp64.hpp:193-200 | a packet reads as the end of the session if and only if it holds 0xFFFF messages |
| `MoldLines.EndHidesLoss` | include/carteret/moldudp64.hpp:193-200 | the end of session ahead of the expected number reports nothing, where a heartbeat reports the gap |
| `MoldLines.EndVouchesExactly` | include/carteret/moldudp64.hpp:193-200 | after the end of session numbered s everything below s was handed on or reported if and only if s is not beyond the next number expected |
| `MoldLines.WrappedPacket` | include/carteret/moldudp64.hpp:202-256 | a packet whose numbers wrap is a duplicate if they do not run past the next one expected, and otherwise is handed on as a gap and breaks the accounting |
| `MoldLines.WrappedIsDelivered` | include/carteret/moldudp64.hpp:202-256 | three messages from the largest number on, first thing, are handed on as that number, zero and one |
| `MoldLines.MoldPacketizer.constructor` | include/carteret/moldudp64.hpp:62-68 | the session is padded or cut to its field, and a packet takes at least one message |
| `MoldLines.MoldPacketizer.Packetize` | include/carteret/moldudp64.hpp:73-114 | the packets are the good messages of the stream in consecutive pieces of at most the limit, numbered on, then the end of the session |
| `MoldLines.ChunksAreALine` | include/carteret/moldudp64.hpp:73-114 | the pieces are end to end and reach the last message |
| `MoldLines.PacketizedIsDelivered` | include/carteret/moldudp64.hpp:73-256 | packetizing then receiving delivers every message once, in order and not stale, if a packet holds fewer than 0xFFFF |
| `MoldLines.ReceiveAll` | include/carteret/moldudp64.hpp:175-256 | feeding packets to the receiver is the fold of the effects of one packet |
| `MoldLines.Transmit` | include/carteret/moldudp64.hpp:62-256 | from framed bytes to the receiver's log: exactly the good messages of the stream |
| `Sha256s.Sha256.Block` | include/carteret/sha256.hpp:131-183 | the loops compute the compression function of FIPS 180-4 section 6.2, which `AbcDigest` fixes |
| `Sha256s.Sha256.Update` | include/carteret/sha256.hpp:36-50 | after taking bytes the object stands for everything taken so far, and for its length in bits modulo 2^64 |
| `Sha256s.Sha256.UpdateRaw` | include/carteret/sha256.hpp:113-125 | takes bytes without counting them |
| `Sha256s.Sha256.Finish` | include/carteret/sha256.hpp:65-92 | the digest is the standard's hash of everything taken, padded as in FIPS 180-4 section 5.1.1, and the object is unchanged |
| `Sha256s.HashPieces` | include/carteret/sha256.hpp:36-92 | however the input is cut into pieces the digest is that of the whole |
| `Sha256s.AbsorbSplits` | include/carteret/sha256.hpp:36-50 | whole blocks can be absorbed in two parts |
| `Sha256s.ZeroCountIsLeast` | include/carteret/sha256.hpp:65-78 | the padding fills the last block with the least number of zero bytes |
| `Sha256s.RotrBits` | include/carteret/sha256.hpp:127-129 | shifting and or-ing rotates: bit k comes from bit k + n around the word |
| `Sha256s.XorBits` | include/carteret/sha256.hpp:159-165 | exclusive or, bit by bit |
| `Bits.AndBits` | include/carteret/sha256.hpp:159-165 | and, bit by bit |
| `Sha256s.OrBits` | include/carteret/sha256.hpp:127-150 | or, bit by bit |
| `ShaWords.ChBits` | include/carteret/sha256.hpp:161 | bit by bit, the second word where the first has a one and the third where it has a zero |
| `ShaWords.MajBits` | include/carteret/sha256.hpp:164 | bit by bit, what at least two of the three have |
| `ShaWords.BigSigmaBits` | include/carteret/sha256.hpp:160-163 | each bit is whether an odd number of the three bits at its rotations is set |
| `ShaWords.SmallSigmaBits` | include/carteret/sha256.hpp:152-153 | the same, with the bits that a shift loses taken as zero |
| `ShaWords.ShrBits` | include/carteret/sha256.hpp:152-153 | shifting brings each bit down and nothing into the top |
| `ShaWords.PlusIsModular` | include/carteret/sha256.hpp:154-174 | a sum of words is taken modulo 2^32 |
| `ShaConstants.PrimesExactly` | include/carteret/sha256.hpp:132-142 | the list behind the constants holds exactly the primes up to 311 |
| `ShaConstants.PrimesAscend` | include/carteret/sha256.hpp:132-142 | it is ascending and holds sixty-four, so its i-th is the i-th prime |
| `ShaConstants.ConstantsAreRoots` | include/carteret/sha256.hpp:132-142 | each round constant is the first thirty-two bits of the fraction of the cube root of its prime |
| `ShaConstants.InitialAreRoots` | include/carteret/sha256.hpp:185-186 | the initial words are those of the square roots of the first eight primes |
| `ShaMachine.PlusIs` | include/carteret/sha256.hpp:154-174 | a sum modulo 2^32 is the machine's addition of 32-bit words |
| `ShaMachine.RotrIs` | include/carteret/sha256.hpp:127-129 | a rotation is the machine's |
| `ShaMachine.ExpandIs` | include/carteret/sha256.hpp:151-155 | a word of the schedule is what the machine makes of the four it depends on |
| `ShaMachine.RoundIs` | include/carteret/sha256.hpp:159-174 | a round of the model is a round on machine words |
| `ShaAbc.AbcDigest` | include/carteret/sha256.hpp:36-92 | the digest of the three bytes "abc" is ba7816bf 8f01cfea 414140de 5dae2223 b00361a3 96177a9c b410ff61 f20015ad |
| `Determinism.RecordLayout` | include/carteret/determinism.hpp:33-103 | every record of a kind has the same length, and the same number, most significant byte first, at the same place |
| `Determinism.RecordedOneWay` | include/carteret/determinism.hpp:56-103 | equal bytes mean equal event streams |
| `Determinism.EffectFront` | include/carteret/determinism.hpp:56-103 | the first record can be told from the bytes, whatever follows |
| `Determinism.FieldsFront` | include/carteret/determinism.hpp:98-103 | fixed-width fields in front of anything can be told from their bytes |
| `Determinism.EventStreamHash.Record` | include/carteret/determinism.hpp:56-103 | one record more, after everything recorded before |
| `Determinism.EventStreamHash.Finish` | include/carteret/determinism.hpp:94 | the digest is the hash of all records' bytes |
| `BookDigests.BookBytesOneWay` | include/carteret/determinism.hpp:113-140 | equal bytes of encodable books mean the same levels, the same queues in order and the same sizes |
| `BookDigests.OneBidIs` | include/carteret/determinism.hpp:113-140 | the forty-two bytes of a symbol with one bid of one order, byte by byte |
| `BookDigests.ListingOneWay` | include/carteret/determinism.hpp:113-140 | listings of symbols can be told from their bytes |
| `BookDigests.SameBookSameBytes` | include/carteret/determinism.hpp:113-140 | the bytes depend on nothing but the contents |
| `BookDigests.HashBook` | include/carteret/determinism.hpp:113-140 | the digest is the hash of the canonical bytes of the whole book |
| `BookDigests.HashSymbol` | include/carteret/determinism.hpp:115-138 | one locate: adds exactly the symbol's bytes, or nothing if it has no level |
| `BookDigests.HashSide` | include/carteret/determinism.hpp:120-136 | one side: tag, count, then levels by ascending price |
| `BookDigests.HashLevel` | include/carteret/determinism.hpp:124-135 | one level: price, aggregates, then the queue in arrival order |

## Left out

- FastBooks.FastBook.Add: the recovery after an index failure (fast_book.hpp:651-656) is not modelled, because under the required sizing, `max_orders` at most half the index's capacity, the branch cannot be reached.
- FastBooks.FastBook.On: the counters shared with the reference book are unbounded naturals, and the statistics of the fast book alone (sub-cent prices, overflow hits, window moves, probe lengths) are not kept.
- FastBooks.FastBook.Level: the level storage is split from `FastBook` into `SymbolTable` and `FastSide`, and pointers to a level are modelled as reading it and writing it back, so a bit or an overflow entry is updated together with its level.
- ReferenceBooks.ReferenceBook.EraseEntry: the stored list iterator of an order is modelled as the position of its reference in the queue.
- ReferenceBooks.ReferenceBook.CheckBbo: the diagnostics beside the excuse buckets (first and last time, worst widths, sets of symbols, widest reopening window) are not kept.
- Differentials.Differential.CompareLevelNow: a divergence keeps its message number, symbol, side, price and field, and neither the message type nor the printed values.
- Differentials.Differential.Replay: starts from fresh books.
- QueueStreams.EveryOrderRanks: that optimistic is no worse than proportional is not claimed of a stream that gives a reference to a second live order or names a side other than `B` or `S`; `UnseenShrinkParts` and `OddSideParts` show that it fails there.
- QueueStreams.ExactKnows: exact's count is not claimed where a message takes more than an order has, nor a fill no later than conservative's where an execution does or an order has size zero; `OverTakeParts` and `ZeroSizeAheadParts` show that they fail there, and `OverTakeExactly` when.
- QueueSims.QueueSimulator.Tick: which orders the schedule places, and the draws of the Bernoulli model, are inputs; the sampler and its pseudo-random generator are not part of this model.
- QueueSims.QueueSimulator.AccountsBalance: money values, pending valuations, accumulated cancel shares, sums of fill times and of shares ahead, the most live at once, and the fill callback are left out.
- QueueModels.ShareBounds: shares ahead are exact reals; the rounding of `double` is not modelled.
- SpscRings.SpscRing.Run: each load, store and slot access is one atomic step in program order; weaker memory orders than acquire and release give are not considered.
- MoldReceivers.MoldReceiver.NumbersAreAccountedFor: asks that no packet was handed on past the largest number; `AccountedExactly` shows that this is exactly what it must ask.
- BookDigests.BookBytesOneWay: asks that counts and aggregates fit the fields they are written in.
- ShaAbc.AbcDigest: one block; that longer messages are absorbed block after block is in `Sha256.Finish` and `AbsorbSplits`.
- Determinism.EventStreamHash.Finish: the digest is bytes, not hexadecimal text; which effect a message records is not modelled.
- OrderIndexes.OrderIndex.Erase: `clear` of the open-addressed index is not modelled.
- Layouts.LengthsTile: fields are offsets and widths; the per-type message accessors, `touches_book` and text fields are not modelled, and book proofs start from decoded messages.
- QueueClocks.OutlivesByOneSweep: asks that orders placed from outside enter at the time of the clock; one placed with an earlier time is as old as it says.
- Attribution, stock names and the arrival time of an order: carried by the reference book and used by nothing here.
- Periodic refresh of the simulated universe of symbols: placements are arbitrary inputs instead.
- Mapped files, command-line drivers, CSV and console output, benchmarks and Python studies: input and output around the logic.
- Recovery from gaps by GLIMPSE: the repository stops at detecting them.
