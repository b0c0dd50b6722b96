# ShunyaKV in Dafny

A model of the core of ShunyaKV, a sharded in-memory key-value cache that speaks RESP, with
proofs about every input, every run and every interleaving. `dafny verify dfyconfig.toml`
checks the whole project.

## What is modelled

**The cache engine of one shard** (`SieveSpec`, `SieveTheory`, `SieveClock`, `ShardSpec`,
`ShardInvariant`, `ShardTheory`, `LossyMap`, `FreeSlots`, `ReadYourWrite`, `LostWrites`, `ShardRuns`,
`SecondChance`, `Retention`, `Statistics`, `CacheEngine`). An entry is in the free pool, in the key table, on the probation list or on the SIEVE list with its moving hand,
and three counters shadow these structures. `CacheEngine` has the classes `Entry`, `SievePolicy`,
`CacheEntryPool` and `Store`, which work in place; each method is proved equal to a function of
`ShardSpec` on the whole state. The functions are generic in the entry's identity, and the
classes use the entry objects themselves. The proofs about the functions are then: one invariant
kept by every operation; a forward simulation to `LossyMap`, a map with expiry times that may
forget keys while it is written to; the exact condition under which a write can be read back, told
from the state before it; how long a value with a time to live stays readable, and exactly which
other keys a set loses; second chance, over every run of the engine; and the SIEVE list with its
hand as a refinement of two plain queues.

**The incremental request extractor** (`Bytes`, `RespStream`, `RespStreamProcessor`, `RespWriter`,
`RespRoundTrip`, `RespErrors`) and **the whole-frame parser** (`FrameParser`, `FramePrefix`,
`ParserAgreement`), which implement
the sections "Arrays" and "Bulk strings" of the Redis serialization protocol specification.
`RespStream` is the state machine without offsets; the class `RespStreamProcessor` works on
positions into a buffer that grows and is compacted, and refines it, up to a whole connection
(`Receive`).

**Commands** (`Commands`, `Client`): dispatch, the argument checks of SET and GET, and their replies,
against a client that reads replies with its own constants.

**One pipelined connection** (`Connection`, `ConnectionTheory`, `ConnectionLiveness`): the read loop and the write loop
as a transition system over every suspension point, with the condition variable, the semaphore,
the eof flag and the queue of reply futures; handlers finish in any order or never, reads, writes
and flushes may fail. It reads through the extractor of `RespStream`. Next to what never goes wrong
it is shown what can always still happen: every reply can be written and the connection can end
cleanly.

**Routing and the whole node** (`HashPartition`, `Powers`, `Service`, `ServiceProgress`): the
multiply-shift owner of a hash against the published ranges, and N shards with forwarded requests in
flight.

**All of it together** (`EndToEnd`): the operations a client writes, their execution on the node and
what the client reads.

**The latency histogram** (`LatencyHistogram`).

`Seals` keeps large definitions folded in proofs that do not need their bodies.

## Results that are not what one might expect

- A set can be lost at once: overwriting a sanctuary entry does not mark it visited
  (src/pool/object_pool.cc:134-136), so the eviction check of that very set may take it.
  `ReadYourWrite` gives the exact condition and `RewriteLost` a run of two sets and a get.
- A plain set over an expired entry that was not collected yet keeps the passed expiry, so the
  acknowledged value cannot be read (`ExpiredLeftover`, reached from the start in `LeftoverReached`).
- The incremental extractor accumulates decimal fields unchecked; it accepts what the whole-frame
  parser refuses exactly when a field does not fit in 64 bits (`ParsersAgree`,
  `OverflowDisagrees`).
- After a protocol error the outputs depend on how the bytes were cut
  (`ChunkingMattersAfterError`); before it they do not (`ChunkingIrrelevant`), and for bytes that
  are whole frames followed by at most an unfinished one they never do (`GoodHoweverCut`).
- Published ranges and router disagree at the lower end of range i exactly when the number of
  data shards does not divide 2^64 i, so they agree everywhere exactly for powers of two
  (`OwnerAgainstPublished`, `AgreeForPowersOfTwo`).
- Releasing 1024 slots when the write loop gives up does not end a read loop that receives more
  requests than there were slots at that time: it waits forever (`WaitsIff`, `HangsIff`,
  `AbortCanHang`).
- The probation counter drifts: fallback allocations are counted and never counted out
  (`Conservation`, `RunFallbacks`).

## Assumptions

- One `set`, `set_with_ttl` or `get` is one atomic step of its shard. This is the behaviour with
  eviction and reaper budgets below 1000, where the yields at src/pool/object_pool.cc:90 and
  src/eviction/sieve_policy.cc:79 are not reached.
- Where two times are compared, the later one is not smaller. Expiry times are computed modulo
  2^64, as in the source, so nothing is assumed about overflow.
- Signed overflow in the extractor's decimal accumulation is taken as two's complement wrap-around.
- A buffer is shorter than 2^32 bytes, the limit of the string type it is kept in. Over a whole
  connection that is a condition on the unfinished frame and the next chunk (`FitsBuffer`), and for
  encoded commands one on single commands and chunks (`CommandsFit`).
- The hash function is a parameter with 64-bit results; the soft trigger and quantiles are reals
  instead of doubles.
- A wait on the condition variable may also end without a signal, and a signal without a waiter is
  lost. A failed write may have sent a part of its bytes.

## Model

| member | source | states |
|---|---|---|
| `SieveTheory.PassIs` | src/eviction/sieve_policy.cc:59-82 | a pass takes exactly the expired or unvisited entries of the part it scans, in order, keeps exactly the others, and stops only at the end of the list or at the victim that uses up the budget |
| `SieveTheory.VictimsAreFirst` | src/eviction/sieve_policy.cc:45-91 | the victims are the first `budget` evictable entries from the hand on, without wrapping around |
| `SieveTheory.EvictList` | src/eviction/sieve_policy.cc:45-91 | after a call the list holds each non-victim once and the hand is on a live entry unless the list is empty |
| `SieveTheory.EvictFrame` | src/eviction/sieve_policy.cc:59-82 | entries before the hand are untouched; only scanned survivors lose their visited bit, and nothing else of any entry changes |
| `SieveTheory.EvictLoad` | src/eviction/sieve_policy.cc:53-88 | with a budget, every call on a non-empty list decreases list length plus visited bits |
| `SieveTheory.Drains` | src/eviction/sieve_policy.cc:53-88 | so 2n calls without hits or inserts empty any list of n entries |
| `SieveTheory.ApplyHealthy` | src/eviction/sieve_policy.cc:11-93 | every operation of the policy keeps the list free of repetitions and the hand on a live entry |
| `SieveTheory.UnvisitedWasCleared` | src/eviction/sieve_policy.cc:17-93 | over every run of the policy, whatever its owner writes, a listed entry without its bit lost it to an earlier pass that went over it or to its owner, and was not hit since |
| `SieveTheory.PolicySecondChance` | src/eviction/sieve_policy.cc:59-93 | so for every unexpired victim of a call; an entry visited when a call starts is no unexpired victim of it |
| `SieveClock.ApplyTicks` | src/eviction/sieve_policy.cc:11-93 | every operation on the list with its hand is one on two queues, ahead of the hand and behind it: new entries come last, erasing removes, a pass takes the stale entries ahead up to the budget and moves the others behind, and the hand starts over only when nothing is left ahead |
| `ShardInvariant.ReleaseInv` | src/pool/object_pool.cc:232-313 | releasing a held entry keeps the invariant, in both pool modes and on a full pool |
| `ShardInvariant.EvictKeysInv` | src/kv_store.cc:71-87 | the victim loops remove exactly the keys they are given and release exactly their entries, and keep the invariant |
| `ShardInvariant.ReapInv` | src/pool/object_pool.cc:51-101 | the reaper removes exactly the oldest min(budget, n) probation entries and their keys, first in first out, its counter covers them, and the invariant is kept |
| `ShardInvariant.AcquireInv` | src/pool/object_pool.cc:146-230 | an acquisition never fails, hands out an entry that is blank but for its use, evicts at most the oldest probation keys and leaves all other keys and the SIEVE list alone |
| `ShardInvariant.PromoteInv` | src/pool/object_pool.cc:126-144 | promotion moves a probation or unlinked entry to the SIEVE list, keeps its key and value, and keeps the invariant |
| `ShardTheory.OverwriteInv` | src/kv_store.cc:110-128 | overwriting writes value and, with a TTL, expiry into the entry that is there, promotes it, and returns the acquired one to the pool |
| `ShardTheory.CheckMemoryInv` | src/kv_store.cc:225-279 | the eviction check removes exactly the keys of the SIEVE victims when it is due, and nothing otherwise |
| `ShardTheory.SetInv` | src/kv_store.cc:98-189 | a set keeps the invariant and is exactly: lose the reaped keys, write, lose the victims of the check |
| `ShardTheory.GetInv` | src/kv_store.cc:191-209 | a get keeps the invariant, loses nothing but an expired key, and returns the stored value exactly when the key is there and not expired |
| `LossyMap.ItemHistory` | include/ttl/entry.hh:55-61 | over every run an item has the value of the last set of its key; an expiry it has is that of the last TTL set of the key, with only plain sets since and the key there all the time |
| `LossyMap.PlainSetOfAbsent` | src/kv_store.cc:98-132 | a key that was absent and has had only plain sets since has no expiry, whatever it had before |
| `LossyMap.HitIsLastWrite` | docs/commands.md:30-36 | over every run a hit is the value of the last set of its key; the item hit has no expiry, or the one inherited from the last TTL set since which the key has been there, and it has not passed |
| `ReadYourWrite.OwnPass` | src/kv_store.cc:225-279 | the pass of a set takes the key just written exactly when it was an unvisited sanctuary key that a pass started before the set would have taken |
| `FreeSlots.InsertionFree` | src/pool/object_pool.cc:146-313 | how many entries the pool holds after an overwrite, computed from the state before it: reaping, acquisition and the returned entry |
| `FreeSlots.DueIs` | src/kv_store.cc:225-246 | so whether eviction is due after an overwrite is known before it |
| `FreeSlots.SetDue` | src/kv_store.cc:225-246 | whether eviction is due after any set, told from the state before it: the entries then in use reach the trigger's share of the pool; an exhausted pool reaches every share up to the whole |
| `FreeSlots.AcquiresOldest` | src/pool/object_pool.cc:146-222 | the entry handed out is the one free longest, and a new one only when none is free |
| `ReadYourWrite.WriteKept` | src/kv_store.cc:98-189 | after a set the key holds the new value with the effective expiry, or was taken by its own pass, with the exact condition on the state before |
| `ReadYourWrite.ReadYourWrite` | src/kv_store.cc:98-209 | a set followed by a get returns the new value if and only if the effective expiry has not passed and the key was not neglected while eviction was due, all told from the state before the set; never lost for an absent, a probation or a visited key |
| `LostWrites.ExpiredLeftover` | include/ttl/entry.hh:55-61 | a plain set over an uncollected expired entry can never be read |
| `LostWrites.LeftoverReached` | include/ttl/entry.hh:55-61 | a run from a fresh pool into that state: a TTL set, a plain set of the key after the TTL, and a get that misses |
| `LostWrites.RewriteLost` | src/pool/object_pool.cc:126-144 | on a fresh pool of one entry the second set of a key is lost before the next get |
| `Retention.TtlReadBack` | src/kv_store.cc:137-209 | a value set with a TTL is read back exactly until ttl after the set, unless the set's own pass takes the key |
| `Retention.LongTtlWraps` | src/kv_store.cc:162 | a TTL that runs over 64 bits is taken modulo 2^64: the value is readable until what is left, for ever when nothing is |
| `Retention.PlainReadBack` | docs/commands.md:30-36 | a plain set of an absent key is read back at any later time |
| `Retention.TtlPreserved` | docs/commands.md:30-36 | a plain set keeps the TTL of the key: the new value is readable exactly as long as the old one would have been |
| `Retention.SetLoses` | src/kv_store.cc:98-189 | a set loses another key if and only if it is among the oldest on probation while the reaper runs, or a victim of its pass while eviction is due |
| `Retention.HitSurvives` | src/kv_store.cc:191-209 | a key that was just hit is hit again after any set of another key, until it expires |
| `Statistics.SetCounts` | src/kv_store.cc:71-87 | the eviction counter grows by exactly the keys a set loses, the reaper's by those it took |
| `Statistics.GetCounts` | src/kv_store.cc:191-209 | a get counts no eviction, not even for a key it drops as expired |
| `ShardRuns.InitialInv` | src/pool/object_pool.cc:5-23 | a prepopulated pool satisfies the invariant and holds nothing |
| `ShardRuns.PerformInv` | src/kv_store.cc:98-209 | every operation keeps the invariant and is a step of the lossy map with the same result |
| `ShardRuns.RunSimulates` | src/kv_store.cc:98-209 | every run of the engine is a run of the lossy map with the same results |
| `ShardRuns.RunHits` | src/kv_store.cc:191-209 | so over every run of the engine a hit is the value of the last set of its key; the item hit has no expiry, or the unexpired one of the last TTL set since which the key has been there |
| `ShardRuns.Partition` | src/pool/object_pool.cc:51-313 | in every reachable state the table's entries are the disjoint union of probation list, SIEVE list and orphans, found under their own keys and of the kind of their list; free entries are blank and in none of these |
| `ShardRuns.Conservation` | src/pool/object_pool.cc:103-305 | sanctuary counter = SIEVE list; probation counter = probation list plus fallbacks ever made; pool and table together = pool size plus fallbacks minus destroyed; the pool never overflows |
| `ShardRuns.RunFallbacks` | src/pool/object_pool.cc:170-193 | the fallback count, and the drift of the probation counter, is exactly the number of sets that found the pool empty |
| `ShardRuns.RunProbSize` | src/pool/object_pool.cc:196-222 | with a reaper budget the probation list never exceeds max(1, threshold), however far its counter has drifted |
| `SecondChance.BareWasPassed` | src/eviction/sieve_policy.cc:59-93 | over every run of the engine, a listed entry without its bit was gone over by the due pass of an earlier set, and has been listed under its key and not asked for since |
| `SecondChance.EvictedWasPassed` | src/kv_store.cc:225-279 | second chance, over every run of the engine: an unexpired entry taken by the check of a set was gone over by the due pass of an earlier set, and no get has asked for its key since |
| `CacheEngine.Entry.UpdateFrom` | include/ttl/entry.hh:55-61 | takes the value over and, with a TTL, the expiry and the next 32-bit version; all else stays |
| `CacheEngine.SievePolicy.OnInsert` | src/eviction/sieve_policy.cc:11-24 | in place, exactly `SieveSpec.Insert` of the list, hand and entries before |
| `CacheEngine.SievePolicy.OnErase` | src/eviction/sieve_policy.cc:26-43 | in place, exactly `SieveSpec.Erase`: a hand on the erased entry moves on, around the end if need be |
| `CacheEngine.SievePolicy.OnHit` | src/eviction/sieve_policy.cc:93 | in place, exactly `SieveSpec.Hit` |
| `CacheEngine.SievePolicy.EvictVictims` | src/eviction/sieve_policy.cc:45-91 | the loop with the moving hand is exactly the one-pass function `SieveSpec.Evict` and hands out the victims' keys in order |
| `CacheEngine.CacheEntryPool.constructor` | src/pool/object_pool.cc:5-23 | prepopulation makes exactly the initial state, with distinct blank entries |
| `CacheEngine.CacheEntryPool.RemoveFromProbation` | src/pool/object_pool.cc:103-124 | in place, exactly `ShardSpec.Unprobate`, hand included |
| `CacheEngine.CacheEntryPool.PromoteToSanctuary` | src/pool/object_pool.cc:126-144 | in place, exactly `ShardSpec.Promote` |
| `CacheEngine.CacheEntryPool.ReleaseEntry` | src/pool/object_pool.cc:232-313 | both release paths are exactly `ShardSpec.Release` |
| `CacheEngine.CacheEntryPool.ReaperLoop` | src/pool/object_pool.cc:51-101 | the loop with its wrapping hand takes exactly the first min(budget, n) entries, oldest first, and its decrements cannot wrap |
| `CacheEngine.Store.constructor` | src/kv_store.cc:54-89 | a started store is valid and empty |
| `CacheEngine.Store.EvictAll` | src/kv_store.cc:71-87 | the victim loop over the table is exactly `ShardSpec.EvictKeys` |
| `CacheEngine.Store.RunSequentialReaper` | src/pool/object_pool.cc:51-101 | with the store's callback, exactly `ShardSpec.Reap` |
| `CacheEngine.Store.CheckMemoryAndEvict` | src/kv_store.cc:225-279 | exactly `ShardSpec.CheckMemory` |
| `CacheEngine.Store.DoAcquire` | src/pool/object_pool.cc:146-167 | exactly `ShardSpec.AcquirePlain`; the entry is a pooled one, or a new object when the pool is empty |
| `CacheEngine.Store.DoProbAcquireFallback` | src/pool/object_pool.cc:169-193 | the empty-pool branch: exactly `ShardSpec.AcquireProb`, counting an entry it never links |
| `CacheEngine.Store.DoProbAcquirePooled` | src/pool/object_pool.cc:195-223 | the other branch: exactly `ShardSpec.AcquireProb` |
| `CacheEngine.Store.Place` | src/kv_store.cc:110-128 | try_emplace with its overwrite path is exactly `ShardSpec.Placed` |
| `CacheEngine.Store.Set` | src/kv_store.cc:98-132 | stores always, keeps the store valid, is exactly `ShardSpec.Set` and a set of the lossy map that keeps an expiry that is there |
| `CacheEngine.Store.SetWithTtl` | src/kv_store.cc:137-189 | stores always, keeps the store valid and is exactly `ShardSpec.Set` with the expiry (now + ttl) modulo 2^64, whose meaning for later gets `Retention.TtlReadBack` gives |
| `CacheEngine.Store.Get` | src/kv_store.cc:191-209 | keeps the store valid, is exactly `ShardSpec.Get` and a get of the lossy map |
| `RespStream.ExtractConserves` | src/resp/resp_stream_processor.cc:173-298 | no byte is lost or read twice: a request takes exactly its own frame off the front; an error strictly shrinks the unread bytes |
| `RespStream.ErrorResyncs` | src/resp/resp_stream_processor.cc:59-75 | an error inside a frame continues exactly at the next star, wherever in the field or payload it struck |
| `RespStream.ChunkingIrrelevant` | src/resp/resp_stream_processor.cc:119-298 | for every byte stream and every cut, the outputs up to the first error are those of the uncut stream; without an error all outputs and the final state are |
| `RespStream.ChunkingMattersAfterError` | src/resp/resp_stream_processor.cc:176-197 | after an error they depend on the cut: every stray line, cut in two anywhere but before a star, is reported twice, uncut once |
| `RespRoundTrip.RoundTrip` | src/resp/resp_writer.cc:33-59 | every list of commands, encoded and cut into chunks in any way, is extracted as exactly those commands in order, with nothing left |
| `RespRoundTrip.PartSession` | src/resp/resp_stream_processor.cc:166-298 | bytes that drain without an error leave the same outputs and the same state however they are cut |
| `RespRoundTrip.UnfinishedIsShort` | src/conn/socket_handler.cc:49-77 | between two chunks of encoded commands, what is unfinished is shorter than one of the commands |
| `RespRoundTrip.Recovery` | src/resp/resp_stream_processor.cc:59-75 | after an error inside a frame, star-free garbage and then encoded commands yield exactly those commands, even when they arrive later in pieces |
| `RespErrors.StraySkipped` | src/resp/resp_stream_processor.cc:181-193 | a stray line is reported once, and what is behind it is read as if it were not there |
| `RespErrors.StrayThenCommands` | src/resp/resp_stream_processor.cc:181-193 | a stray line and commands behind it, in any cut that does not split the line, give the error and then exactly those commands |
| `RespErrors.MixedDrained` | src/resp/resp_stream_processor.cc:173-298 | commands and stray lines in any order: each command comes out and each line is reported, in order and once |
| `RespErrors.CountRefused` | src/resp/resp_stream_processor.cc:200-217 | a count outside 1 to 1024, negative ones included, is answered -ERR invalid argc and reading goes on at the next star |
| `RespErrors.CountUnread` | src/resp/resp_stream_processor.cc:119-164 | a count that is no number is a protocol error |
| `RespErrors.LengthRefused` | src/resp/resp_stream_processor.cc:238-255 | a bulk length outside 0 to 64 MiB, the null bulk string included, is answered -ERR invalid bulk length and reading goes on at the next star |
| `RespErrors.LengthUnread` | src/resp/resp_stream_processor.cc:238-249 | a bulk length that is no number is a protocol error |
| `RespErrors.DollarMissing` | src/resp/resp_stream_processor.cc:225-233 | an argument without its dollar is a protocol error |
| `RespErrors.LineEndMissing` | src/resp/resp_stream_processor.cc:266-274 | a payload that does not end in a line end is a protocol error |
| `RespWriter.WriteBulk` | src/resp/resp_writer.cc:33-43 | appends exactly the bulk string's encoding |
| `RespWriter.WriteArrayBulk` | src/resp/resp_writer.cc:49-59 | appends exactly the encoding that `RoundTrip` reads back |
| `StreamProcessor.CompactIfNeeded` | src/resp/resp_stream_processor.cc:44-57 | the unread bytes stay the same; what is kept in front of them is short |
| `StreamProcessor.RespStreamProcessor.Append` | src/conn/socket_handler.cc:59-60 | appending to the buffer keeps the frame in progress and every slice into it |
| `StreamProcessor.RespStreamProcessor.ParseIntCrlf` | src/resp/resp_stream_processor.cc:119-164 | the digit loop computes the field's number modulo 2^64 in two's complement, or asks for more, or rejects, without moving |
| `StreamProcessor.RespStreamProcessor.ResetAndResync` | src/resp/resp_stream_processor.cc:59-75 | continues at the next star or at the end |
| `StreamProcessor.RespStreamProcessor.TryExtractRequest` | src/resp/resp_stream_processor.cc:166-298 | on offsets into the compacted buffer, exactly one extraction of the state machine, whose requests `RespRoundTrip` and whose errors `RespErrors` pin down |
| `StreamProcessor.RespStreamProcessor.DrainBuffer` | src/conn/socket_handler.cc:63-77 | the inner read loop ends and yields exactly what the state machine drains |
| `StreamProcessor.RespStreamProcessor.Feed` | src/conn/socket_handler.cc:55-77 | one turn of the read loop is exactly appending the chunk and draining |
| `StreamProcessor.RespStreamProcessor.BufferSize` | src/resp/resp_stream_processor.cc:44-57 | between calls the buffer holds less than 4096 bytes beside the frame in progress and what is unread |
| `StreamProcessor.Receive` | src/conn/socket_handler.cc:49-85 | the read loop over a whole connection, on offsets into the compacted buffer: for every chunks that fit, the requests are those of the state machine, and for encoded commands exactly those commands |
| `StreamProcessor.CommandsFit` | src/resp/resp_stream_processor.cc:44-57 | encoded commands fit the buffer however long the connection, when no command with a chunk behind it fills it |
| `FrameParser.ParseIntCrlf` | src/resp/resp_parser.cc:18-41 | reads a field located by its carriage return and refuses one that does not fit in 64 bits |
| `FrameParser.ReadBulk` | src/resp/resp_parser.cc:62-87 | reads one element in place, with its limit tested before its payload is looked for, and tells need-more from error |
| `FrameParser.ParseFrameLength` | src/resp/resp_parser.cc:43-93 | the loop over positions measures the frame: exactly `FrameLength` |
| `FrameParser.ParseCommandFromFrame` | src/resp/resp_parser.cc:95-144 | the loop over positions reads the arguments, or throws: exactly `CommandArgs` |
| `FramePrefix.LengthStays` | src/resp/resp_parser.cc:43-93 | a measured length and a found error stay so when more bytes come |
| `FramePrefix.FrontNeedsMore` | src/resp/resp_parser.cc:43-93 | every proper front part of a frame needs more |
| `FramePrefix.WholeRoundTrip` | src/resp/resp_parser.cc:43-144 | a written command is measured exactly, whatever follows, and read back |
| `FramePrefix.FrameRefused` | src/resp/resp_parser.cc:43-59 | bytes without a star and counts that are no positive 64-bit numbers are refused |
| `FramePrefix.ElementRefused` | src/resp/resp_parser.cc:62-76 | elements without a dollar and lengths that are no 64-bit numbers from 0 on are refused |
| `FramePrefix.LineEndRefused` | src/resp/resp_parser.cc:78-85 | a payload without its line end is refused |
| `ParserAgreement.ParsersAgree` | src/resp/resp_parser.cc:43-144 | for every byte string, the whole-frame parser accepts a prefix with some arguments if and only if the extractor's first output is that frame with those arguments and every decimal field fits in 64 bits |
| `ParserAgreement.OverflowDisagrees` | src/resp/resp_stream_processor.cc:150-160 | for every command, whatever follows it, a count written 2^64 too large is taken by the extractor and refused by the whole-frame parser |
| `ParserAgreement.FrameIs` | src/resp/resp_stream_processor.cc:166-298 | the extractor outputs a request, waits or reports an error exactly as the grammar of a frame says of the bytes at the front |
| `ParserAgreement.GoodIff` | src/resp/resp_stream_processor.cc:166-298 | draining reports no error if and only if the bytes are whole frames followed by at most an unfinished one |
| `ParserAgreement.GoodHoweverCut` | src/conn/socket_handler.cc:55-77 | such bytes give the same requests and the same state however they are cut |
| `Commands.Ieq` | src/cmd_set.cc:33-48 | equal lengths and at each place the same byte, or the capital and the small form of one ASCII letter |
| `Commands.FoldedIff` | src/resp/resp_stream_processor.cc:22-40 | the folding of the dispatcher makes exactly the two forms of each letter equal |
| `Commands.AnyCase` | docs/commands.md:5-9 | SET, EX and GET with any choice of case per letter are run as the operation they ask for |
| `Commands.DispatchedIff` | src/cmd_set.cc:58-95 | a request is run as an operation if and only if it asks for it, with words in any case, a non-empty key and a TTL from 1 to 2^64 - 1 |
| `Commands.ArgsUnderstood` | docs/commands.md:15-36 | what a client writes for an operation is understood as that operation |
| `Commands.OperationsArrive` | src/resp/resp_stream_processor.cc:77-101 | operations written by a client and cut in any way arrive at the store as those operations, in order |
| `Commands.ReplyTells` | src/cmd_get.cc:65-75 | the reply to a GET tells a miss from every hit and any two values apart |
| `Client.ReplyRead` | src/cmd_get.cc:65-75 | a client reads the reply to an operation as its outcome: OK, the value, or null |
| `Client.SetRefused` | docs/commands.md:38-46 | what SET refuses by its arguments, and the error a client reads for it |
| `Client.ExpiryRefused` | docs/commands.md:38-46 | what SET refuses of a time to live, and the error a client reads for it |
| `Client.GetRefused` | docs/commands.md:75-80 | what GET refuses, and the error a client reads for it |
| `Client.WordRefused` | src/resp/resp_stream_processor.cc:77-101 | other known words have their handlers, any other word is an unknown command, no word an empty one, and an error of the extractor is passed on |
| `Client.ExtractorErrors` | src/resp/resp_stream_processor.cc:79-82 | the extractor's errors are read by a client as their message |
| `Client.GetOnTheWire` | src/resp/resp_writer.cc:33-59 | GET on the wire, byte for byte |
| `Client.NumberOnTheWire` | src/resp/resp_writer.cc:33-43 | lengths and counts are written in decimal, most significant digit first |
| `Connection.NextKeeps` | src/conn/socket_handler.cc:49-134 | every step of reader, writer and environment keeps the protocol's invariant |
| `ConnectionTheory.RepliesInOrder` | src/conn/socket_handler.cc:49-134 | in every interleaving the bytes written are the replies of a prefix of the extracted requests, in order, each once, and after an abort at most a part of the next |
| `ConnectionTheory.CleanExit` | src/conn/socket_handler.cc:95-98 | a clean end means every request in the bytes read was answered and all is flushed |
| `ConnectionTheory.NothingUnflushed` | src/conn/socket_handler.cc:95-124 | whenever the writer sleeps everything issued is answered and flushed |
| `ConnectionTheory.OneReplyPerCommand` | src/conn/socket_handler.cc:49-134 | commands sent in any cut get exactly one reply each, in order, on a clean end, which `ConnectionLiveness.CommandsAnswered` shows can always be reached |
| `ConnectionTheory.SlotsConserved` | src/conn/socket_handler.cc:70-133 | free, granted, queued and in-hand slots are 1024, and 2047 after an abort, so work in flight is bounded |
| `ConnectionTheory.NoDeadlock` | src/conn/socket_handler.cc:70-100 | while the writer is alive a reader without a slot faces a writer at work on all of them, and a sleeping writer a reader that can wake it |
| `ConnectionTheory.QuietMeansAnswered` | src/conn/socket_handler.cc:49-134 | a connection that can do nothing without more input has answered and flushed all it has read |
| `ConnectionTheory.ComesToRest` | src/conn/socket_handler.cc:49-134 | between two reads only boundedly many steps fit, so it does come to rest |
| `ConnectionTheory.FlushedTogether` | src/conn/socket_handler.cc:120-132 | over every run a written reply is flushed exactly when no other is waiting, and otherwise its slot is given back at once |
| `ConnectionLiveness.CanAnswer` | src/conn/socket_handler.cc:49-134 | from every reachable state that is not aborted, whatever the handlers answer, steps without failure or input lead to everything read being answered and flushed in order |
| `ConnectionLiveness.CanFinish` | src/conn/socket_handler.cc:49-134 | for every input in every cut there is a run without any failure that writes exactly the answers, flushes them and ends cleanly |
| `ConnectionLiveness.CommandsAnswered` | src/conn/socket_handler.cc:49-134 | so for commands: one reply each, in order |
| `ConnectionLiveness.CanBreak` | src/conn/socket_handler.cc:107-118 | a connection can be cut off after any byte: every proper prefix of the answers can be all that is written |
| `ConnectionLiveness.CanLoseFlush` | src/conn/socket_handler.cc:120-132 | the last flush can fail, with everything written and not all of it gone out |
| `ConnectionTheory.AbortedWaitsForever` | src/conn/socket_handler.cc:107-118 | a reader that waits for a slot after an abort waits in every continuation |
| `ConnectionTheory.HangsIff` | src/conn/socket_handler.cc:63-77 | after an abort the reader, run on alone, hangs if and only if the buffer holds more requests than there are slots |
| `ConnectionTheory.WaitsIff` | src/conn/socket_handler.cc:63-118 | over every run, at any time after an abort and however requests arrive, the reader hangs if and only if more requests were extracted than had room at the abort; come to rest, if and only if the bytes received hold more |
| `ConnectionTheory.AbortCanHang` | src/conn/socket_handler.cc:107-118 | a run from the start for every list of commands: it hangs if and only if there are more than 2048 |
| `HashPartition.OwnerShardInRange` | include/hash_wrapper.hh:30-35 | every hash has its owner among the data shards |
| `HashPartition.RouterAgainstRange` | include/hash_wrapper.hh:30-35 | the router sends a hash of range i to data shard i, except exactly the lowest hash of a range whose exact lower end is not whole, which goes to the shard before |
| `HashPartition.RangesTile` | src/node_info_helpers.cc:24-36 | the published ranges start at 0, follow on one another without gap or overlap, end at 2^64 - 1 and are not empty |
| `HashPartition.RangeSizes` | src/node_info_helpers.cc:27-28 | their sizes differ by at most one |
| `HashPartition.PublishedIs` | src/node_info_helpers.cc:27-28 | every hash lies in exactly one of them |
| `HashPartition.OwnerAgainstPublished` | include/hash_wrapper.hh:30-35 | the router's owner is the published one, except exactly at the lower end of a range whose exact end is not whole, where it is the shard before |
| `HashPartition.AgreeEverywhere` | include/hash.hh:23-33 | they agree on every hash if and only if the number of data shards divides 2^64 |
| `HashPartition.AgreeForPowersOfTwo` | include/hash.hh:23-33 | that is, if and only if it is a power of two |
| `HashPartition.ComputeHashRanges` | src/node_info_helpers.cc:10-36 | the loop's table tiles the hash space, one range per data shard, with port base_port + shard modulo 2^16, the router follows it but for the exact exceptions, and it is published exactly with at least one core |
| `HashPartition.ComputeHash` | src/node_info_helpers.cc:55-86 | a data shard is told exactly its own entry of that table, with its own port, any other shard nothing |
| `Service.TakesSteps` | src/cmd_set.cc:99-117 | a step of the node keeps every shard's invariant and every key at its home; executing is a step of the node's lossy map, forwarding changes no contents |
| `Service.NodeSimulates` | src/cmd_get.cc:48-63 | whatever shard requests arrive at and whatever order forwarded ones run in, the executed requests are a run of one lossy map, whose states are the contents of all shards, with the same results, each on the shard that owns its key |
| `Service.NodeHits` | src/cmd_get.cc:48-63 | a hit anywhere on the node is the value of the last executed set of its key; the item hit has no expiry, or the unexpired one of the last executed TTL set since which the key has been there |
| `Service.KeysAtHome` | include/hash.hh:23-33 | over every run a key is stored nowhere but on its owner |
| `Service.ExactlyOnce` | src/cmd_set.cc:99-117 | every request has been received as often as it was executed or is in flight |
| `ServiceProgress.FollowsTable` | src/cmd_set.cc:99-117 | a request sent to the shard the published table names is executed there at once, unless its hash is the lowest of a range whose exact end is not whole; then it takes one hop, to the shard before |
| `ServiceProgress.CanDeliver` | src/cmd_set.cc:108-116 | whichever request is under way can be executed next, on its home shard |
| `ServiceProgress.AllLand` | src/cmd_set.cc:108-116 | every run can be continued until nothing is under way, and then every request received has been executed as often as it was received |
| `EndToEnd.ClientReads` | src/resp/resp_stream_processor.cc:77-117 | over every run: a client that writes operations in any cut reads, on a clean end, one reply for each, in order, telling the outcome of that operation's own execution on the node |
| `EndToEnd.ClientHits` | src/cmd_get.cc:48-75 | a value the client reads is that of the last set of its key executed before, on the shard that owns it |
| `EndToEnd.ClientServed` | src/conn/socket_handler.cc:49-134 | for all operations, cuts, receiving shards and times there are runs of node and connection after which the client has read all outcomes |
| `LatencyHistogram.Histogram.AddUs` | include/router_metrics.hh:23-33 | one more sample, in the bucket of its highest bit |
| `LatencyHistogram.Histogram.MergeFrom` | include/router_metrics.hh:35-40 | the samples of both, also when merged with itself |
| `LatencyHistogram.Histogram.CountIsSum` | include/router_metrics.hh:18-40 | the buckets together hold exactly the counted samples |
| `LatencyHistogram.InBucketIs` | include/router_metrics.hh:23-33 | bucket i counts exactly the samples from 2^i up to 2^(i+1), the first one also zeros |
| `LatencyHistogram.RankedBucket` | include/router_metrics.hh:57-68 | the first bucket whose cumulative count reaches the rank is that of the rank-th smallest sample |
| `LatencyHistogram.RankedExists` | include/router_metrics.hh:51-56 | each rank belongs to exactly one value, which is a sample |
| `LatencyHistogram.Rank` | include/router_metrics.hh:45-56 | the rank is the least whole number that is at least q times the count, at least 1 and at most the count; q below 0 asks for the first and q above 1 for the last |
| `LatencyHistogram.Histogram.QuantileUs` | include/router_metrics.hh:42-70 | there is a sample of that rank; the answer is at least it and less than twice it (1 for a zero sample) |

## Left out

- Seastar itself, sockets, accept loops, TLS, the orchestrator and main: input and output over a library.
- Suspension inside one store operation: operations are atomic, see the assumptions.
- `resp::Reader` and src/server.cc: a path that is not built.
- `evict_ttl_keys` and its priority queue (src/kv_store.cc:285-318), include/ttl/ttl_policy.hh: nothing feeds them.
- The hash function FNV-1a: a parameter.
- Memory sizing, configuration, INFO, NODE_INFO and QUIT, JSON text, logging and metrics other than the histogram: they would only add easy members.
- The links of intrusive lists: the lists are sequences of entry objects.
- The order in which one core delivers forwarded requests to another: any order is allowed, so nothing is stated about two pipelined requests of one connection to the same remote key.
- LatencyHistogram.Histogram.AddUs: counts are unbounded, because 2^64 samples cannot be reached.
- Service.NodeSimulates: the handler's latency and miss counters are not part of the state.
