# shrt-cpp in Dafny

A model of the storage engines and protocol code of a URL shortener, and proofs
about it. The shortener keeps links in an in-memory index backed by an
append-only text log (one per instance, tailed by its siblings), or in RocksDB or
a RESP store behind a bounded cache, and serves them over a small pipelined HTTP
server.

`dafny verify dfyconfig.toml` checks the whole project (Dafny 4.11).

## How it is organised

| file | models |
|---|---|
| `Common.dfy` | what the stores share |
| `Text.dfy` | number printing and reading (`itoa`, `strtoll`, `std::stoll`), string search |
| `Codec.dfy` | the log line codec: escaping, printers, `parse_op` |
| `Log.dfy` | log files: line splitting, replay, tail readers, the write queue |
| `Replay.dfy` | `apply`: folding records into the index, stray hits, the cap on them |
| `Merge.dfy` | the order in which sibling logs are merged does not matter |
| `HitFlow.dfy` | the life of a hit at the grain of the source's locks |
| `Store.dfy` | one instance of the log store and all its operations |
| `Agreement.dfy` | index and files agree over every run |
| `Ledger.dfy` | what the log store promises a client, over the sequence of operations alone |
| `HitDrift.dfy` | how far replayed hits are from live ones, over every run |
| `Compaction.dfy` | crashes during a compaction |
| `Truncation.dfy` | readers that tail a log while its owner compacts |
| `ReadMiss.dfy` | reading a code that a sibling owns |
| `FifoCache.dfy` | one shard of the read-through cache |
| `ValueCodec.dfy`, `Rocks.dfy` | the RocksDB store behind its cache |
| `RocksLedger.dfy` | what the RocksDB store promises a client, over the sequence of operations alone |
| `KvNodes.dfy` | many nodes over one RESP store |
| `Http.dfy`, `HttpRoundTrip.dfy` | request framing and pipelining |
| `Resp.dfy` | the RESP encoder and incremental decoder |
| `RateLimit.dfy` | the token bucket with idle eviction |
| `Metrics.dfy` | the 60-slot request counter |

Conventions. A byte string is a Dafny `string` whose characters stand for bytes;
the theorems hold for all strings. Integers are unbounded, and the source's
widths are written out where they matter: 64-bit fields in the codecs, the cast of
an owner to `int`, the wrap-around of a content length. The clock, the random
generator, the sizes returned by `read` and `write`, the chunks returned by
`recv`, and the iteration order of unordered maps are parameters, and the
theorems hold for all their values. A code generator's retry loop is represented
by the code it ends with. Operations that the source runs as one atomic step under
its locks are one step here; `HitFlow` splits them at the locks. Methods follow the
source's loops and field updates and are proved equal to specification functions;
the theorems about runs are about those functions.

Where the code and its comments disagree the model follows the code:

- `dec` is commented as decoding the older form `{e}|{c}|{u}` with creation time 0
  (src/store_rocks.cpp:40-41); it keeps the creation time (`DecLegacy`).
- `parse_req` is commented as keep-alive by default for HTTP/1.1
  (src/server.cpp:150); a request with no header line at all is closed, because the
  version is looked for only before a CRLF inside the head (`HeadOf`).

Properties that turned out false, each with its exact condition or a witness:

- Replayed hits plus the dirty counter equal the own hits exactly when the code's
  shortfall is zero (`HitsOverRuns`).  The shortfall is set by an update and by creating
  a removed code anew: right after an update it is zero if and only if all own hits are
  still dirty (`UpdateHits`), right after a creation if and only if nothing was left
  waiting (`RecreateHits`).
- A crash inside the flush of a compaction can lose queued rows and tombstones; from the
  last queued byte on all links are kept (`CompactionCrashSafe`).
- A crash between the rename and the truncation of a compaction keeps all links, but
  counts logged hits twice: hits are exact if and only if the old log has the code's row
  and its shortfall is zero, or has none and its deltas sum to zero
  (`CompactionCrashHits`).
- With a positive rate, sweeping idle rate-limit buckets is invisible, and the rate
  bound holds, if and only if a bucket refills within 60.001 seconds (`SweepInvisibleIff`,
  `WindowBoundIff`).
- A tail reader gets all lines of a log truncated behind its back if and only if the new
  log is still shorter than its offset, or begins with just the fragment the reader holds
  (`CompactedLogReadIff`); otherwise links can stay unread for good (`TruncationMissed`).
- A miss serves a link that is on disk if and only if it is routed to the link's log.  The
  comment at src/store.cpp:259-260 promises a poll for aliases, but an alias that begins
  with the letter of a third instance only reads that instance's log (`MissServedIff`).
- A node of the RESP store never again caches a value older than its own update or
  remove if and only if none of its reads of that code, answered before the mutation,
  is in flight and can still be cached (`OwnMutationVisibleIff`, with the schedule that
  breaks it in `InFlightReadResurrects`).

## Model

| member | source | states |
|---|---|---|
| `Text.Itoa` | src/common.hpp:29-39 | the 24-byte buffer suffices for every 64-bit integer and the decimal text is appended |
| `Text.ScanIntText` | src/common.hpp:29-39 | `strtoll` and `stoll` read back every 64-bit integer that `itoa` prints; wider ones saturate or throw |
| `Codec.EscInto` | src/codec.cpp:7-25 | appends the escaped string |
| `Codec.Unescape` | src/codec.cpp:27-53 | the unescaping loop computes the step-wise reference, truncated escapes included |
| `Codec.UnescEsc` | src/codec.cpp:7-53 | unescaping undoes escaping for every byte string |
| `Codec.EscNoNewline` | src/codec.cpp:7-25 | an escaped string has no newline, so a record stays on one line |
| `Codec.RowLineInto` | src/codec.cpp:55-71 | appends exactly the row line |
| `Codec.HitLineInto` | src/codec.cpp:73-81 | appends exactly the hit line |
| `Codec.DelLineInto` | src/codec.cpp:83-87 | appends exactly the tombstone line |
| `Codec.ParseOp` | src/codec.cpp:111-166 | the scanning loops compute the field-by-field reference on every input, malformed ones included |
| `Codec.ParseRowLine` | src/codec.cpp:55-166 | parsing a printed row recovers every field for any url and any 64-bit numbers; expiry 0 is null |
| `Codec.ParseHitLine` | src/codec.cpp:73-166 | parsing a printed hit delta recovers it |
| `Codec.ParseDelLine` | src/codec.cpp:83-166 | parsing a printed tombstone recovers it |
| `Codec.CodeOkIsPlain` | src/app.cpp:143-148 | every code the API accepts can be printed unescaped |
| `Codec.PrintOneLine` | src/codec.cpp:7-87 | no printed line is empty or contains a newline |
| `Codec.ReadPrint` | src/codec.cpp:55-166 | printing a record and reading the line as `apply` does gives the record back |
| `Codec.ReadWideOwner` | src/store.cpp:75 | an owner wider than 32 bits is read as the `int` it is cast to, with all other fields kept |
| `Log.SplitLines` | src/aof.cpp:73-80 | the splitting loop yields the non-empty complete lines and the unterminated tail |
| `Log.LinesAppend` | src/aof.cpp:102-110 | splitting a file in two pieces at any byte, carrying only the tail over, gives the lines of the whole |
| `Log.ReplayFile` | src/aof.cpp:61-81 | replay delivers the complete lines of what could be read |
| `Log.TailReader.ReadNew` | src/aof.cpp:83-111 | one poll is the specified poll, for every sequence of short reads and after truncation |
| `Log.TailRefinesReplay` | src/aof.cpp:61-111 | over every schedule of appends, polls and short reads the lines delivered are exactly those of the bytes read so far |
| `Truncation.TruncationNoticed` | src/aof.cpp:84-86 | a log shorter than the offset is read again from its start |
| `Truncation.TruncationIff` | src/aof.cpp:83-111 | for a new log that begins with given bytes up to the offset, nothing of any continuation is lost exactly when they hold no line and end in the reader's fragment |
| `Truncation.CompactedLogReadIff` | src/aof.cpp:83-111 | over logs of printed records, one read delivers all lines exactly when the log is shorter than the offset or begins with just the reader's fragment |
| `Truncation.NeverRead` | src/aof.cpp:83-111 | over every later schedule only what follows the first offset bytes is delivered |
| `Truncation.RowLength` | src/codec.cpp:55-71 | rows that differ only in codes of one length print to lines of one length |
| `Truncation.TruncationMissed` | src/store.cpp:600-628 | a link created after a sibling's compaction, whose row is as long as what was read, is folded in no later schedule although the log holds it |
| `Log.Aof.Push` | src/aof.hpp:21 | queues the line and a newline, leaves the file alone |
| `Log.Aof.PushRaw` | src/aof.hpp:22 | queues the bytes, leaves the file alone |
| `Log.Aof.Flush` | src/aof.cpp:29-40 | all queued bytes reach the file in order, however the writes are split |
| `Log.Aof.Truncate` | src/aof.cpp:47-51 | file and queue end empty |
| `Log.RecordsPush` | src/aof.hpp:21-22 | appending a printed record to a file that ends in a newline appends exactly that record |
| `Log.CrashPrefix` | src/aof.cpp:61-81 | any byte prefix of a log holds exactly the first k records, k its number of newlines |
| `Log.TornLine` | src/aof.cpp:61-81 | a torn last line contributes no record |
| `Replay.CrashRecovery` | src/store.cpp:187-193 | recovering any snapshot and a log cut at any byte equals folding the snapshot and the log's first k operations |
| `Replay.FoldLink` | src/store.cpp:66-107 | the folded link of a code is that of its last row or tombstone, whatever hits and evictions occur |
| `Replay.FoldCounts` | src/store.cpp:74-107 | below the stray cap, a code with one row and no tombstone has its row's counter plus every delta, before or after the row |
| `Replay.FoldTally` | src/store.cpp:66-107 | below the stray cap, folding a log refines one small automaton per code |
| `Replay.StrayCap` | src/store.cpp:86-87 | the stray map never holds more than ten thousand codes |
| `Replay.TombstoneForgets` | src/store.cpp:67-73 | below the stray cap, replaying a log gives a code the link and hits that replaying only what follows a tombstone of it gives |
| `Merge.MergeLinks` | src/store.cpp:66-122 | when a code's rows and tombstones are in one log, any two order-preserving interleavings of the logs, on any two instances, give the same link, that of this home log |
| `Merge.MergeHits` | src/store.cpp:24-122 | below the stray cap, every interleaving gives a once-created code its row's counter plus all deltas of all logs, and as own hits those of this instance |
| `HitFlow.HitConservation` | src/store.cpp:319-336 | under every interleaving: the reads counted = live hits = logged + dirty + in-flight hits, and, once the row is logged and below the stray cap, replay yields the link and exactly the logged hits |
| `HitFlow.StepConserves` | src/store.cpp:398-440 | each of the fine-grained steps keeps that balance for every code |
| `HitFlow.StepHoldsRow` | src/store.cpp:575-591 | each step keeps a code's single row in its creator's hands or in the log |
| `Store.Inner.ApplyOp` | src/store.cpp:66-107 | `apply` takes the index and stray map to the specified fold step; a tombstone field wins over a hit field, that over a row |
| `Store.Inner.ApplyHit` | src/store.cpp:74-91 | a hit goes to its entry, or waits in the stray map |
| `Store.Inner.AddStray` | src/store.cpp:86-89 | a full stray map drops one entry before it takes a hit |
| `Store.Inner.ApplyLines` | src/store.cpp:109-122 | folding lines one by one is the fold of the records they hold |
| `Store.Inner.Boot` | src/store.cpp:187-193 | booting gives the fold of what could be read of snapshot, then log |
| `Store.Inner.Shorten` | src/store.cpp:310-339 | a taken alias changes nothing; otherwise the entry, its expiry written out, the row at the end of file and queue, and a flush exactly when the queue exceeds 262144 bytes |
| `Store.Inner.ShortenMany` | src/store.cpp:353-387 | each code gets the url at its place with zero counters and every other entry is kept; one write queued; a flush exactly when the queue exceeds 262144 bytes |
| `Store.InsertedNew` | src/store.cpp:362-376 | inserting distinct codes one by one gives each the url at its place and changes no other entry |
| `Store.Inner.Update` | src/store.cpp:464-483 | a missing code and a foreign one are refused apart, unchanged; otherwise exactly url and expiry change, the old expiry stays without a ttl, and the row is queued |
| `Store.Inner.Remove` | src/store.cpp:496-512 | a missing code and a foreign one are refused apart, unchanged; otherwise the entry goes and a tombstone is queued |
| `Store.Inner.ResolveLocal` | src/store.cpp:394-420 | an entry is served exactly when its expiry is 0 or in the future; serving adds 1 to its hits, own hits and dirty counter and touches nothing else; anything else changes nothing |
| `Store.Inner.FlushLocked` | src/store.cpp:575-591 | every dirty counter is logged once, in some order, and the queue is written |
| `Store.HitLines` | src/store.cpp:577-587 | the loop prints one line per dirty counter, each key once in the order it is met |
| `Store.SnapLines` | src/store.cpp:610-620 | the loop prints one row per own entry with its own hits |
| `Store.Inner.Compact` | src/store.cpp:600-628 | the snapshot holds every own row with its own hits; the log ends empty |
| `Agreement.AgreementOverRuns` | src/store.cpp:187-628 | after every run of all operations, sibling records and restarts, replaying snapshot then log rebuilds exactly the own links, and for codes not updated or removed since the last compaction the replayed hits plus the dirty counter are the own hits |
| `Agreement.StepInv` | src/store.cpp:310-628 | every operation, sibling record and restart keeps the invariant that relates index, dirty counters, snapshot and log, code by code |
| `Ledger.LinksOverRuns` | src/store.cpp:310-512 | after every run the index holds, and a restart reads back, exactly the url, creation time and expiry that the accepted creations, updates and removals leave |
| `Ledger.ReadsOverRuns` | src/store.cpp:393-442 | after every run the dirty counter of every code is the number of reads served since it was last written out, and the own hits are the number served since the code was created, less those a restart forgot |
| `Ledger.UpdateEffect` | src/store.cpp:464-483 | from any state: the new url, the given expiry, the old creation time and hits, in the index and after a restart; no other link changes |
| `Ledger.RemoveEffect` | src/store.cpp:496-512 | from any state: no link, in the index and after a restart; no other link changes |
| `Ledger.ShortenManyEffect` | src/store.cpp:353-387 | from any state: each code leads to the url at its place, in the index and after a restart; no other link changes |
| `Ledger.AtomicResolve` | src/store.cpp:398-440 | the two locked steps of a read, uninterrupted, are the atomic read of the other modules |
| `Ledger.AtomicCreate` | src/store.cpp:319-336 | so are the two locked steps of a creation |
| `HitDrift.HitsOverRuns` | src/store.cpp:310-628 | after every run, replayed hits, dirty counter and shortfall make up the own hits of every own code, and the shortfall is zero unless the code was updated or removed since the last compaction |
| `HitDrift.StepBalanced` | src/store.cpp:310-628 | every step keeps this balance, with the shortfall it sets |
| `HitDrift.UpdateHits` | src/store.cpp:478-481 | right after any update, replayed hits are in step exactly when all own hits are still dirty |
| `HitDrift.RecreateHits` | src/store.cpp:499-509 | right after a creation, replayed hits are in step exactly when no hit of the code was left dirty or stray |
| `Compaction.CompactionCrashSafe` | src/store.cpp:600-628 | at every crash point, each byte of the flush included: from the last queued byte on recovery gives the own links held before; earlier it is the fold of what survived, nothing on disk is lost, and links no lost record decides are right |
| `Compaction.CompactionCrashHits` | src/store.cpp:609-627 | the hits recovered from the new snapshot and the whole old log, and that they are right exactly when the log has the code's row and the shortfall is zero, or has none and its deltas sum to zero |
| `Agreement.SnapReplay` | src/store.cpp:610-620 | a snapshot alone replays to the own links with their own hits and no stray hits |
| `ReadMiss.AlphaIdx` | src/store.cpp:38-42 | the loop returns the character's position in closed form, which is its one index in the alphabet, or -1 |
| `ReadMiss.GenCode` | src/store.cpp:288-295 | the loop gives a code of the instance's letter and seven letters, one per number drawn |
| `ReadMiss.OwnerUnique` | src/store.cpp:288-295 | a generated code names exactly one owner |
| `ReadMiss.GeneratedOwner` | src/store.cpp:265 | the owner `alpha_idx` finds in a generated code is the instance that generated it |
| `ReadMiss.GeneratedCodeOk` | src/base62.hpp:7-10 | generated codes satisfy the API's code validation |
| `ReadMiss.Instance.TailMiss` | src/store.cpp:261-276 | a miss reads the log its first character names, or all logs when the last poll is 200 ms ago, or none, and sets the poll time exactly when it reads |
| `ReadMiss.Instance.ReadLogs` | src/store.cpp:115-122 | the poll loop folds the new lines of each log in turn |
| `ReadMiss.Instance.Resolve` | src/store.cpp:390-442 | the answer, and the index, readers, dirty counters and poll time a read leaves |
| `ReadMiss.ReadCounts` | src/store.cpp:398-440 | a served read, after a miss too, adds 1 to the hits, own hits and dirty counter of its code; no other read counts |
| `ReadMiss.MissRateLimited` | src/store.cpp:274-275 | within 200 ms of a poll a miss of a code that names no sibling reads and changes nothing |
| `ReadMiss.MissSetsPoll` | src/store.cpp:265-275 | a miss that reads logs starts the 200 ms anew |
| `ReadMiss.ReadMissComplete` | src/store.cpp:261-276 | in every run of own operations, reads, polls and sibling writes, a missing read of a code generated elsewhere answers what the whole log of its generator says, a hit what the part already read says |
| `ReadMiss.OwnStepInv` | src/store.cpp:310-512 | creating, updating, removing, flushing and compacting keep the links of codes owned elsewhere |
| `ReadMiss.UnchangedLinkServed` | src/store.cpp:421-442 | a generated link on disk in its owner's log, not changed or removed, is served by every other instance in every state of every run until it expires |
| `ReadMiss.MissServedIff` | src/store.cpp:259-276 | for aliases too: a live link on disk but not in the index is served exactly when its first character names its log, or names no sibling and the last poll is 200 ms ago |
| `FifoCache.KvShard.CacheGet` | src/store_kv.cpp:198-211 | served exactly while its expiry is 0 or in the future and the cache TTL has not passed; only an entry past the TTL is dropped |
| `FifoCache.KvShard.CachePut` | src/store_kv.cpp:212-226 | the eviction loop and the insertion |
| `FifoCache.KvShard.CacheDel` | src/store_kv.cpp:227-231 | the key goes, the queue stays |
| `FifoCache.CacheBounded` | src/store_rocks.cpp:225-255 | over every sequence of operations the map stays within its capacity, every key is queued, and a key just put is cached |
| `FifoCache.PutOthers` | src/store_rocks.cpp:239-250 | a put stores its entry and neither adds nor changes any other |
| `FifoCache.PutThenGet` | src/store_rocks.cpp:225-250 | a key just put is served as long as neither its expiry nor the cache TTL has passed, and no longer |
| `FifoCache.FirstInFirstOut` | src/store_rocks.cpp:239-250 | without deletes and TTL drops the cache holds exactly the last insertions in order |
| `ValueCodec.DecEnc` | src/store_rocks.cpp:42-62 | decoding undoes encoding for every url, also with '\|' |
| `ValueCodec.DecLegacy` | src/store_kv.cpp:112-133 | how the two older value forms decode |
| `Rocks.RocksInner.Resolve` | src/store_rocks.cpp:280-302 | the cached read is the specified one |
| `Rocks.RocksInner.Shorten` | src/store_rocks.cpp:304-328 | database and cache after a creation; a taken alias changes nothing |
| `Rocks.FillBatch` | src/store_rocks.cpp:334-343 | the batch holds one value per code not in the database, the last url winning, and marks the others for retry |
| `Rocks.RocksInner.ShortenMany` | src/store_rocks.cpp:330-355 | the batch, the retries and the cache after a bulk creation |
| `Rocks.RocksInner.Update` | src/store_rocks.cpp:357-370 | database and cache after an update, or unchanged when missing |
| `Rocks.RocksInner.Remove` | src/store_rocks.cpp:372-381 | database and cache after a removal, or unchanged when missing |
| `Rocks.ReadBack` | src/store_rocks.cpp:304-381 | a created code reads back exactly while its expiry is 0 or in the future, a removed one does not, others are untouched |
| `Rocks.UpdateReadBack` | src/store_rocks.cpp:357-370 | an update changes the url, keeps the creation time and keeps the expiry unless a ttl is given, and reads back exactly while that expiry is 0 or in the future |
| `Rocks.ResolveTransparent` | src/store_rocks.cpp:280-302 | with a coherent cache a read returns what the database would, and keeps the cache coherent |
| `Rocks.PassCoherent` | src/store_rocks.cpp:344-353 | a bulk creation leaves the cache coherent even when one code is generated twice |
| `Rocks.FilterIff` | src/store_rocks.cpp:83-94 | the filter condemns exactly the values whose expiry is not 0 and not in the future |
| `Rocks.FilterCoherent` | src/store_rocks.cpp:83-94 | dropping any condemned keys changes no read, now or later, and keeps the cache coherent |
| `Rocks.CacheTransparent` | src/store_rocks.cpp:225-381 | after every run, a read through the cache returns what a direct database read would |
| `RocksLedger.RocksOverRuns` | src/store_rocks.cpp:280-381 | after every run a read through the cache answers the url the accepted operations left, exactly while its expiry is 0 or in the future |
| `RocksLedger.CreatedManyDb` | src/store_rocks.cpp:330-355 | after a bulk creation each final code, retried ones included, holds the url at its last place, and every other code is as before |
| `KvNodes.BoundedStaleness` | src/store_kv.cpp:198-264 | every url served from a cache was the store's value at an instant no older than the TTL plus the duration of the read that cached it, with an expiry of 0 or in the future |
| `KvNodes.AnswerIff` | src/store_kv.cpp:252-261 | a read that missed the cache answers the stored url exactly while its expiry is 0 or in the future |
| `KvNodes.OwnMutationVisible` | src/store_kv.cpp:324-352 | after its own update or remove a node without a read in flight never again caches or serves an older value |
| `KvNodes.OwnMutationVisibleIff` | src/store_kv.cpp:243-352 | the exact condition for this: no read answered before the mutation is in flight that could still be cached |
| `KvNodes.InFlightReadResurrects` | src/store_kv.cpp:252-261 | a read in flight across an update puts the old value back |
| `Http.ParseRequest` | src/server.cpp:134-180 | the scanning code computes the reference parse on every input |
| `Http.ScanHeaders` | src/server.cpp:153-174 | the header loop folds the header lines in order |
| `Http.ParseStable` | src/server.cpp:134-180 | a decided parse is unchanged by bytes that arrive later |
| `Http.Drain` | src/server.cpp:213-232 | the inner loop terminates and handles exactly the complete requests of the buffer |
| `Http.ServeAppend` | src/server.cpp:200-245 | serving can stop at any byte and resume with the bytes left over |
| `Http.ConnLoop` | src/server.cpp:191-246 | the calls made and the way the connection ends depend only on the concatenated bytes |
| `HttpRoundTrip.LastHeaderWins` | src/server.cpp:151-173 | each extracted field comes from the last header of its name |
| `HttpRoundTrip.ReadRequest` | src/server.cpp:134-180 | parsing a rendered request gives back its fields and exact length, whatever follows |
| `HttpRoundTrip.ServeLimit` | src/server.cpp:183-224 | a POST or PATCH ends in 413 exactly when its body exceeds 1048576 bytes at /api/shorten/bulk, or 4096 bytes elsewhere; otherwise its call is made |
| `HttpRoundTrip.WrappedLength` | src/server.cpp:165-180 | a declared length that wraps the request size ends in 413, whatever follows |
| `HttpRoundTrip.BadRequestLine` | src/server.cpp:140-148 | a request line on its own drops the connection exactly when it has fewer than two spaces |
| `HttpRoundTrip.ServeRequest` | src/server.cpp:134-232 | a well-formed request is handled as sent, and the connection is kept exactly for HTTP/1.1 with headers and no close, or a Connection header other than close |
| `HttpRoundTrip.ServePipeline` | src/server.cpp:134-232 | any number of well-formed pipelined requests reach the handler in order and unchanged |
| `Resp.WriteArg` | src/kv.cpp:58-64 | appends the bulk string |
| `Resp.WriteCommand` | src/kv.cpp:154-159 | appends the array header and every argument |
| `Resp.PipeBytes` | src/kv.cpp:153-159 | the request buffer is the encoding of the argument lists |
| `Resp.PipeDecodes` | src/kv.cpp:150-171 | what `pipe` writes decodes to exactly those arrays of bulk strings |
| `Resp.Conn.Fill` | src/kv.cpp:69-76 | refilling loses and reorders nothing |
| `Resp.Conn.Byte` | src/kv.cpp:77-82 | the next byte of the stream, or its end |
| `Resp.Conn.Line` | src/kv.cpp:83-93 | a line is found across any chunk boundary |
| `Resp.Conn.Exact` | src/kv.cpp:94-105 | exactly n bytes are consumed, or there were fewer |
| `Resp.Conn.ReadReply` | src/kv.cpp:108-143 | the incremental reader computes the whole-stream decoder, nested arrays included |
| `Resp.Conn.ReadMany` | src/kv.cpp:131-139 | reads n replies in order or fails |
| `Resp.DecodeEncode` | src/kv.cpp:108-143 | decoding an encoded reply returns it and leaves exactly the bytes after it |
| `Resp.DecodeEncodeAll` | src/kv.cpp:166-170 | decoding a sequence of encoded replies returns it and leaves exactly the bytes after it |
| `Resp.ReadReplies` | src/kv.cpp:166-170 | N replies in any chunking are returned and the stream stays in sync |
| `RateLimit.RateLimiter.Allow` | src/ratelimit.cpp:35-51 | decision and new buckets of one call, sweep included |
| `RateLimit.EraseIdle` | src/ratelimit.cpp:41-44 | the sweep loop removes exactly the idle buckets |
| `RateLimit.TokensInRange` | src/ratelimit.cpp:41-50 | in every run of the sweeping limiter, for every setting, each bucket holds between 0 and burst tokens |
| `RateLimit.SweepInvisible` | src/ratelimit.cpp:41-50 | the sweeping limiter decides every call of every run as one that never evicts |
| `RateLimit.SweepInvisibleIff` | src/ratelimit.cpp:41-50 | it does so for all runs exactly when a bucket refills in 60.001 seconds or the limiter is off |
| `RateLimit.WindowBound` | src/ratelimit.cpp:35-51 | in every window of every run the admitted cost is at most burst plus rate times elapsed time, if a bucket refills in 60.001 seconds |
| `RateLimit.WindowBoundIff` | src/ratelimit.hpp:15-18 | and this holds for all runs exactly under the same condition |
| `RateLimit.QuietClientAdmitted` | src/ratelimit.cpp:35-51 | in every run, a cost up to the burst is admitted to a client whose earlier requests are all at least burst / rate seconds ago |
| `RateLimit.OffAdmits` | src/ratelimit.cpp:36 | with the limiter off every request is admitted |
| `RateLimit.WholeCostsIff` | src/app.cpp:416-421 | with a whole burst both conditions are exact already over the whole costs that callers pass |
| `Metrics.Counters.Tick` | src/metrics.cpp:45-59 | one tick on the ring, clearing loop included |
| `Metrics.Counters.Window` | src/metrics.cpp:61-69 | the window loop reads the specified slots whenever it looks up no second before the epoch |
| `Metrics.InBoundsIff` | src/metrics.cpp:66-68 | on a clock that did not go back, that is so exactly from the thirtieth second of the epoch on |
| `Metrics.RingRefinesHistory` | src/metrics.cpp:39-59 | every second of the last minute has its exact number of ticks in its slot, for any gaps |
| `Metrics.WindowExact` | src/metrics.cpp:61-69 | each of the 31 window entries is the true count of its second |

## Left out

- Sockets, kqueue, threads, fsync, directory listing and signals: foreign calls.
- `serve_kq`, the other frontend: it can parse again after a connection was to be closed, so the framing theorems are for the default frontend.
- `claim_instance`: instance ids are taken as given and distinct.
- Failing `write`, `fopen` and database calls: the source drops the data; the model assumes they succeed.
- Appending after a torn last line: the log is reopened without trimming it, so append theorems are for files that end in a newline.
- Concurrent update and remove inside one instance: each is one atomic step; only creations, reads and flushes are split at their locks.
- The 256 shards of the log store's index: one map stands for their union; the sharded caches and the sharded rate limiter keep their shards.
- `TRACK_HITS=0` and the memory-only store: the same operations without counting, and without files.
- `list`, `stats`, `seed`, `empty`: they list or sum the index, or call `shorten` in a loop.
- Wrap-around of hit counters and of time arithmetic at 64 bits: hits are unbounded, runs are shorter than 2^63 steps, times are required to fit.
- RocksDB and RESP server internals, hit counters in both, the janitor and the hash layout: the databases are maps.
- `KvInnerImpl` operations as methods: their cache is `FifoCache`, and the nodes are a transition system because reads and writes of different nodes interleave.
- Replies: what the handler returns and how it is written to the socket; only the calls made to it are modelled.
- `client_ip`, routing, query decoding, JSON bodies, metrics text: the request handler between framing and stores, and its output formats.
- Races between ticks of the metrics ring: ticks are sequential, on a clock that does not go back.
- Sibling snapshots at boot, and sibling compactions during the runs of `ReadMiss`: those runs start from any index and sibling logs only grow; what a truncation does to a reader is in `Truncation`.
- Compaction.CompactionCrashHits: for codes updated or removed since the last compaction it assumes fewer stray codes than the cap, because past it the two replays may evict different codes.
- `RateLimit`: rounding of doubles; tokens are reals.
