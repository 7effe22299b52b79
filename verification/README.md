# Pulsar Go consumer: grouped acknowledgments and the memory limit controller

This project models two state components of the Pulsar Go client's consumer side, and proves properties about them.

- **The acknowledgment tracker** (`pulsar/ack_grouping_tracker.go`). The grouped variant keeps the cache `cachedAcks`, which has three parts:
  - a fixed-capacity buffer of individual acks with a cursor;
  - a pending-ack index, which maps a message position to a nil marker (a non-batched message) or to a bit set of the batch indexes not yet acknowledged;
  - a cumulative watermark with a "needs flushing" flag.

  The cache is flushed to two injected callbacks, one for individual acks and one for cumulative acks. A loop serialises every call into the cache. The immediate variant keeps no state and forwards each ack at once.
- **The memory limit controller** (`pulsar/internal/memory_limit_controller.go`). It holds one int64 usage counter against a fixed limit. A limit of zero or less means unlimited. It offers non-blocking, forced and blocking reservation, and release. A release wakes blocked reservers when usage crosses from above the limit to at or below it.

Layout:

- `message_id.dfy` (`MessageIds`): message ids, their positions, their order and the earliest id.
- `bit_set.dfy` (`BitSets`): the bit-set operations the tracker uses, on `seq<bool>`.
- `ack_grouping.dfy` (`AckGrouping`): the cache as a value (`AckState`), with these parts:
  - one function per operation;
  - `Step`, one turn of the tracker's loop, and `Run`, the loop over a sequence of events;
  - the lemmas relating them.
- `ack_grouping_tracker.dfy` (`AckGroupingTracker`): the imperative model, with these parts:
  - the class `CachedAcks`. Each of its methods is proved to move the object's `State()` exactly as the matching `AckGrouping` function does;
  - `HandleEvent`, one turn of the loop over a `CachedAcks`;
  - the class `ImmediateTracker`;
  - `SelectVariant`, which chooses between the two trackers.
- `memory_limit.dfy` (`MemoryLimit`): 64-bit wrapping arithmetic, the admission and wake-up conditions, lemmas, and the class `MemoryLimitController`.

Modelling choices:

- **Message ids.** A `MessageId` is `(ledger, entry, batchIdx, batchSize)`.
  - Ids compare lexicographically on `(ledger, entry, batchIdx)`.
  - The pending-ack key is the position `(ledger, entry)`.
  - An id "is batch" when `batchSize > 1`.
  - The earliest id is `(-1, -1, -1, 0)`. It lies strictly below every id with non-negative ledger and entry and a batch index of at least -1 (`WellFormed`).
- **Bit sets.** A bit set is a `seq<bool>`. Testing a bit beyond the width reads as cleared, and clearing one there changes nothing.
- **Callbacks.** The injected callbacks are recorded as the fields `sent` and `sentCumulative`. Each call appends the id it was given. The list callback acknowledges its ids one at a time, in order (`pulsar/ack_grouping_tracker.go:71-76`).
- **64-bit arithmetic.** The memory counter and sizes are `Int64` values. Additions wrap in two's complement (`Add64`, `Neg64`), so overflow and the release condition `newUsage+size > limit` are modelled exactly. A wake-up (`broadcast`) is counted in the field `broadcasts`.

Two behaviours of `cachedAcks` are easy to misread, and the model states both as the code does them:

- **Fully acknowledged batches are not evicted when recorded.** `addAndCheckIfFull` (`pulsar/ack_grouping_tracker.go:174-192`) clears the batch bit but never removes a pending entry, even when no bit is left. Entries are removed only in `flushIndividualAcks`, or all at once when `clean` replaces the index with an empty one (line 258). `BatchOfThreeExample` shows an entry with no bit left that stays in the index until the next flush.
- **The flush drops every flushed position.** In `flushIndividualAcks`, the branch commented "all messages have been acknowledged" (line 232) deletes a batch entry once its bits are all cleared. The `delete` that follows on line 236 is unconditional, so the position of every flushed id is removed, whatever bits remain. `FlushIndividual` and `FlushForgetsFlushedPositions` state this.

## Model

| member | source | states |
|---|---|---|
| `MessageIds.Compare` | pulsar/ack_grouping_tracker.go:197 | three-way result in {-1, 0, 1}, zero exactly when ledger, entry and batch index agree (batch size ignored) |
| `MessageIds.CompareAntisymmetric` | pulsar/ack_grouping_tracker.go:204 | swapping the arguments negates the comparison, so `compare(last, id) >= 0` means `id <= last` |
| `MessageIds.LessEqTransitive` | pulsar/ack_grouping_tracker.go:197 | the order on ids is transitive |
| `MessageIds.LessEqTotal` | pulsar/ack_grouping_tracker.go:197 | any two ids are ordered one way or the other |
| `MessageIds.EarliestIsMinimum` | pulsar/ack_grouping_tracker.go:68 | the earliest id (initial watermark) is strictly below every id with non-negative ledger and entry and a batch index of at least -1 |
| `BitSets.Clear` | pulsar/ack_grouping_tracker.go:191 | keeps the width; bit j is set afterwards iff it was set before and j is not the cleared index |
| `BitSets.Full` | pulsar/ack_grouping_tracker.go:181-184 | a bit set of the given width with every bit set |
| `BitSets.NewFull` | pulsar/ack_grouping_tracker.go:181-184 | the allocate-then-set-each-bit loop yields the given width with every bit set |
| `AckGrouping.RecordPending` | pulsar/ack_grouping_tracker.go:177-192 | the index gains exactly the key of `id`, other keys keep their entries; an unseen non-batched id gets the nil marker; an unseen batched id gets a width-`batchSize` bit set with every bit but `batchIdx` set; a seen nil marker stays; a seen bit set loses only bit `batchIdx` |
| `AckGrouping.Add` | pulsar/ack_grouping_tracker.go:174-192 | `id` is appended to the buffer and the index becomes `RecordPending` of it (its position gets the nil marker or its batch bit cleared), other positions keep their entries; capacity, watermark, flag and sent acks unchanged |
| `AckGrouping.UpdateCumulative` | pulsar/ack_grouping_tracker.go:196-201 | the watermark never decreases and ends at or above `id`; it changes only to `id` and then sets the flag; the state changes iff `id` is strictly greater than the watermark; buffer, capacity, index and sent acks untouched |
| `AckGrouping.Duplicate` | pulsar/ack_grouping_tracker.go:203-216 | true for every id at or below the watermark whatever the index holds; above it: false when the position is absent, true for a nil marker or a non-batched id, otherwise true iff bit `batchIdx` is cleared |
| `AckGrouping.FlushIndividual` | pulsar/ack_grouping_tracker.go:219-240 | buffered ids are appended to the sent acks in order, the buffer is emptied, no flushed id's position remains pending, every other position keeps its entry, the watermark and flag are untouched |
| `AckGrouping.FlushCumulative` | pulsar/ack_grouping_tracker.go:242-247 | the watermark is sent once iff the flag was set, the flag is cleared, the watermark and the rest are unchanged |
| `AckGrouping.Flush` | pulsar/ack_grouping_tracker.go:249-252 | every buffered id is sent in order and the buffer emptied, then the watermark is sent iff the flag was set; the flag ends cleared, the watermark unchanged, and exactly the unflushed positions stay pending, each with its entry unchanged |
| `AckGrouping.Clean` | pulsar/ack_grouping_tracker.go:254-261 | empty buffer of the same capacity, empty index, watermark at the earliest id, flag cleared; sent acks kept |
| `AckGrouping.Step` | pulsar/ack_grouping_tracker.go:93-124 | one loop turn keeps room in the buffer (a full buffer is flushed at once) and the capacity, and moves the watermark only forward unless it cleans |
| `AckGrouping.Run` | pulsar/ack_grouping_tracker.go:93-124 | running the loop over any events keeps room in the buffer and the capacity |
| `AckGrouping.RunStopsAtClose` | pulsar/ack_grouping_tracker.go:119-121 | the loop stops at the first close request: the events after it change nothing |
| `AckGrouping.AddMarksDuplicate` | pulsar/ack_grouping_tracker.go:174-216 | once an individual ack for `id` is recorded, `id` reports as a duplicate |
| `AckGrouping.AddKeepsDuplicates` | pulsar/ack_grouping_tracker.go:174-216 | recording an individual ack never turns a duplicate into a non-duplicate |
| `AckGrouping.FlushForgetsFlushedPositions` | pulsar/ack_grouping_tracker.go:219-240 | after a flush, an id above the watermark whose position was flushed is not a duplicate, even when other indexes of its batch were never acknowledged |
| `AckGrouping.FlushIndividualIdempotent` | pulsar/ack_grouping_tracker.go:219-220 | flushing individual acks twice is the same as once |
| `AckGrouping.FlushCumulativeIdempotent` | pulsar/ack_grouping_tracker.go:242-247 | flushing the cumulative ack twice is the same as once |
| `AckGrouping.CleanForgetsDuplicates` | pulsar/ack_grouping_tracker.go:254-261 | after clean, no id above the earliest id (the reset watermark) is a duplicate |
| `AckGrouping.WatermarkNeverDecreases` | pulsar/ack_grouping_tracker.go:93-124 | over any run of the loop without a clean request, the final watermark is at or above the initial one |
| `AckGrouping.CumulativeDominance` | pulsar/ack_grouping_tracker.go:203-206 | an id at or below the watermark stays a duplicate through any run of the loop without a clean request |
| `AckGrouping.FillingBufferSendsAll` | pulsar/ack_grouping_tracker.go:96-102 | individual acks that exactly fill the buffer are all sent, once each and in order, by the last one; the buffer is then empty, none of their positions is pending, and the watermark is unchanged |
| `AckGrouping.CumulativeSentAtOnceWithoutTimer` | pulsar/ack_grouping_tracker.go:103-107 | with time-based flushing off, a cumulative ack above the watermark is sent within the same turn and the flag is cleared |
| `AckGrouping.FlushRequestDelivers` | pulsar/ack_grouping_tracker.go:112-121 | a flush, flush-and-clean or close request sends every buffered id, then the watermark iff the flag was set |
| `AckGrouping.BatchOfThreeExample` | pulsar/ack_grouping_tracker.go:174-236 | batch of three: after indexes 0 and 2, index 1 is not a duplicate and 0, 2 are; after index 1 the entry has no bit set but stays pending until a flush removes it |
| `AckGroupingTracker.CachedAcks.constructor` | pulsar/ack_grouping_tracker.go:65-70 | buffer of capacity `maxSize`, empty index, watermark at the earliest id, flag cleared, nothing sent |
| `AckGroupingTracker.CachedAcks.AddAndCheckIfFull` | pulsar/ack_grouping_tracker.go:174-194 | writes `id` at the cursor, advances the cursor by one, updates the index as `RecordPending`, returns true iff the cursor reached the capacity |
| `AckGroupingTracker.CachedAcks.TryUpdateLastCumulativeAck` | pulsar/ack_grouping_tracker.go:196-201 | new state is `UpdateCumulative` of the old one |
| `AckGroupingTracker.CachedAcks.IsDuplicate` | pulsar/ack_grouping_tracker.go:203-217 | returns `Duplicate` of the watermark, the index and `id`, changing nothing |
| `AckGroupingTracker.CachedAcks.FlushIndividualAcks` | pulsar/ack_grouping_tracker.go:219-240 | the per-id clear-and-delete loop leaves the state `FlushIndividual` gives; buffer array unchanged |
| `AckGroupingTracker.CachedAcks.FlushCumulativeAck` | pulsar/ack_grouping_tracker.go:242-247 | new state is `FlushCumulative` of the old one |
| `AckGroupingTracker.CachedAcks.Flush` | pulsar/ack_grouping_tracker.go:249-252 | individual flush, then cumulative flush |
| `AckGroupingTracker.CachedAcks.Clean` | pulsar/ack_grouping_tracker.go:254-261 | a fresh buffer of the same capacity and the state `Clean` gives |
| `AckGroupingTracker.HandleEvent` | pulsar/ack_grouping_tracker.go:93-124 | one loop turn over the cache gives the state `Step` gives, answers a duplicate query with `Duplicate` of the state before, and ends the loop exactly on a close request |
| `AckGroupingTracker.ImmediateTracker.constructor` | pulsar/ack_grouping_tracker.go:58-62 | nothing sent |
| `AckGroupingTracker.ImmediateTracker.Add` | pulsar/ack_grouping_tracker.go:133-135 | the id goes straight to the individual callback |
| `AckGroupingTracker.ImmediateTracker.AddCumulative` | pulsar/ack_grouping_tracker.go:137-139 | the id goes straight to the cumulative callback |
| `AckGroupingTracker.ImmediateTracker.IsDuplicate` | pulsar/ack_grouping_tracker.go:141-143 | always false |
| `AckGroupingTracker.ImmediateTracker.Flush` | pulsar/ack_grouping_tracker.go:145-146 | changes nothing |
| `AckGroupingTracker.ImmediateTracker.FlushAndClean` | pulsar/ack_grouping_tracker.go:148-149 | changes nothing |
| `AckGroupingTracker.ImmediateTracker.Close` | pulsar/ack_grouping_tracker.go:151-152 | changes nothing |
| `AckGroupingTracker.SelectVariant` | pulsar/ack_grouping_tracker.go:51-84 | immediate tracker iff options are given with `MaxSize <= 1`; no options means grouped with capacity 1000 and time-based flushing; otherwise grouped with capacity `MaxSize` (above 1) and time-based flushing iff `MaxTime > 0` |
| `MemoryLimit.Add64` | pulsar/internal/memory_limit_controller.go:67 | the int64 sum is congruent to the exact sum modulo 2^64 and equals it when it fits |
| `MemoryLimit.Neg64` | pulsar/internal/memory_limit_controller.go:85 | int64 negation is congruent to the exact negation and equals it except at the minimum value |
| `MemoryLimit.UnlimitedAlwaysAdmits` | pulsar/internal/memory_limit_controller.go:70 | with a limit of zero or less every reservation is admitted and adds its size |
| `MemoryLimit.RefusalLeavesUsage` | pulsar/internal/memory_limit_controller.go:69-72 | a reservation is refused exactly when the limit is enforced (`limit > 0`) and usage already exceeds it, and a refusal leaves usage unchanged |
| `MemoryLimit.OvershootBound` | pulsar/internal/memory_limit_controller.go:69-75 | from usage at or below the limit, a reservation of non-negative size is admitted and leaves usage at most the limit plus that size |
| `MemoryLimit.ReleaseUndoesReserve` | pulsar/internal/memory_limit_controller.go:74-85 | releasing the size just reserved restores the original usage, wrap-around included |
| `MemoryLimit.AddBackAfterRelease` | pulsar/internal/memory_limit_controller.go:85-86 | the release condition's `newUsage+size` is the usage before the release |
| `MemoryLimit.ReleaseWakesExactlyOnCrossing` | pulsar/internal/memory_limit_controller.go:84-89 | the release condition as written holds iff old usage was above the limit and new usage is at or below it |
| `MemoryLimit.UsageStaysWithinOvershoot` | pulsar/internal/memory_limit_controller.go:64-89 | under an enforced limit with `limit + maxSize` within int64, starting from usage in [0, limit + maxSize], any sequence of non-blocking reservations and covered releases (never more than the usage at that moment) whose sizes are all between 0 and `maxSize` keeps usage in [0, limit + maxSize] |
| `MemoryLimit.MemoryLimitController.constructor` | pulsar/internal/memory_limit_controller.go:42-48 | the given limit, zero usage, no wake-ups |
| `MemoryLimit.MemoryLimitController.IsMemoryLimited` | pulsar/internal/memory_limit_controller.go:99-101 | the limit is enforced iff it is above zero; when it is not, the current usage is admitted |
| `MemoryLimit.MemoryLimitController.CurrentUsage` | pulsar/internal/memory_limit_controller.go:91-93 | returns the counter and changes nothing |
| `MemoryLimit.MemoryLimitController.TryReserveMemory` | pulsar/internal/memory_limit_controller.go:64-78 | succeeds iff the limit is not enforced or usage is not above it; on success usage grows by `size` (in int64), on failure it is unchanged; no wake-up |
| `MemoryLimit.MemoryLimitController.ForceReserveMemory` | pulsar/internal/memory_limit_controller.go:80-82 | usage grows by `size` whatever the limit, with no failure case |
| `MemoryLimit.MemoryLimitController.ReleaseMemory` | pulsar/internal/memory_limit_controller.go:84-89 | usage shrinks by `size`; one wake-up iff usage went from above the limit to at or below it |
| `MemoryLimit.MemoryLimitController.ReserveMemory` | pulsar/internal/memory_limit_controller.go:50-62 | succeeds exactly as a non-blocking attempt would; a failure (the wait ending in cancellation) leaves usage unchanged |

## Left out

- The goroutine, the channels, the `select` loop and the request/reply wrappers of `timedAckGroupingTracker` (`pulsar/ack_grouping_tracker.go:79-124`, `263-298`). These are concurrency plumbing. The loop body is modelled as one sequential turn (`Step`, `HandleEvent`). A call made after close deadlocks in the source. `Run` instead stops at the close.
- The ticker (`pulsar/ack_grouping_tracker.go:79-84`, `100`, `113`). This is wall-clock behaviour. A timer tick is an event that may arrive at any turn. Resetting and stopping the ticker are not modelled.
- The bit-set library is foreign code. It is replaced by `seq<bool>` with the library's out-of-range behaviour.
- `messageIDCompare`, `messageIDHash`, `messageIDIsBatch` and `EarliestMessageID` are not part of this model. They are replaced by a lexicographic order, the key `(ledger, entry)`, `batchSize > 1` and `(-1, -1, -1, 0)`. Because the key is the pair itself, collisions of the source's int64 hash are not modelled.
- The width of message-id fields is not modelled: they are unbounded integers.
- The failure or blocking of the injected callbacks is not modelled. The tracker assumes they return.
- `CurrentUsagePercent` (`pulsar/internal/memory_limit_controller.go:95-97`) is floating-point division.
- Contention on the compare-and-swap retry loop (`pulsar/internal/memory_limit_controller.go:65-77`) is not modelled. Each attempt is one atomic step, and it succeeds when uncontended.
- MemoryLimit.UsageStaysWithinOvershoot: covers only sizes between 0 and `maxSize` and covered releases. The code accepts negative sizes, and a negative release raises usage without passing the admission gate, so no such bound holds for arbitrary calls.
- MemoryLimit.MemoryLimitController.ReserveMemory: the condition-variable wait and a wake-up by another caller's release are not modelled. With no other caller, only cancellation can end the wait, so the call returns the result of its attempts and fails with usage unchanged.
- AckGroupingTracker.CachedAcks.AddAndCheckIfFull: requires a free slot in the buffer. The source would index past the buffer otherwise. Its only caller, the loop, flushes a full buffer at once.
