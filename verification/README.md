# Verified models of the benchmark algorithms

Most of this repository loads data and drives servers. The parts below carry algorithms of their own, and this
project models each of them in Dafny and proves what it promises.

- **UidPack codec** (`bitmap/codec.go`). `Machine.dfy` has Go's unsigned integers with their wrap-around written out;
  `GroupVarint.dfy` and `Uvarint.dfy` the two byte encodings; `UidPack.dfy` what one block stores and gives back;
  `Encoder.dfy` and `Decoder.dfy` the two stateful classes; `Codec.dfy` the whole-list operations; `Sizes.dfy` how many
  blocks and ids there are and what is reserved for them; `RoundTrips.dfy` what the operations promise together.
- **Three-stage loader** (`neo/loader.go`). `Loader.dfy` is a step system over all interleavings of one reader, the
  parsers, the handlers and the main goroutine. A send on a closed channel, a second close, a negative wait group and
  a random draw from an empty buffer are modelled as steps that panic, and shown unreachable. `PendingReport.dfy`
  adds the ticker, whose reports load three counters one after another while the others go on.
- **Frequency-optimal cache simulation** (`cachebench/ristretto/cache.go`). `OptimalHeap.dfy` is the binary heap,
  `BenchOptimal.dfy` the policy (any least counted resident may be the victim), the simulation that refines it, and
  what holds of every run of the policy.
- **k-shortest-path oracle** (`k-shortest-path/`). `Oracle.dfy` builds the graph by a minimum-merge and relates the
  graph built before writing the edge file to the one rebuilt from it; `KShortest.dfy` shows that cost vectors do not
  depend on ties and that their head is the shortest-walk distance; `Compare.dfy` is the comparator.
- **Two relational loops**. `VerifyDiff.dfy` is the sorted-merge difference of `scripts/verify/main.go`,
  `Convert.dfy` the streaming hash join of `convert/main.go`.

`dafny verify dfyconfig.toml` checks everything.

## Where the code does less than a caller may expect

Each point is proved as an equivalence or shown by a concrete input.

- `Decode` after `Encode` returns the list exactly when no block's ids decrease, no block holds more than 2^32 - 3
  ids, and the number of blocks times the stored block size is a capacity a slice can have
  (`RoundTrips.RoundTripIff`); that the encoder's allocator accepts every block is taken for granted. Beyond that
  count the unpacking loop compares a length truncated to 32 bits and never ends (`UidPacks.UnpackTerminatesIff`);
  beyond that capacity the reservation panics, which a large or a negative block size and ids that are far apart bring
  about (`RoundTrips.ReservationFails`).
- A block size of zero or less is accepted. The encoder then makes blocks of one id, but stores the low 32 bits of the
  size: for -1 `Decode` reserves 2^32 - 1 ids a block, and for 0 the length estimate is below the exact length
  (`Sizes.ExactWithinApproxIff`).
- `Seek` with `SeekStart` is a filter on duplicates too, except when the id sought ends a block that starts below it
  and also starts the next block: the earlier copies are skipped (`RoundTrips.SeekStartIsFilterIff`). A zero id ignores
  `whence`, so `SeekCurrent` keeps zeros (`RoundTrips.SeekCurrentIsFilterIff`).
- `LinearSeek` for the largest 64-bit id never ends (`Decoders.LinearSeekTerminatesIff`).
- Re-encoding a pack through a varint buffer keeps the ids in the buffer always, but the new pack decodes to them only
  if its own blocks are faithful and their reservation fits: a drop at an old block border can fall inside a new block
  (`RoundTrips.RecodeIff`, `RoundTrips.RecodeLosesDrop`).
- The loader's "pending" figure can be negative, which in its unsigned arithmetic is a huge number, because a parser
  counts a record after sending it. For a given input some run reports a negative figure exactly when some run reports
  at all, and that is exactly when the shuffled lines can bring one with a sampled subject to the parsers before as many
  as there are parsers that do not parse (`PendingReports.CanReportNegativeIff`); if every line parses or is blank, it
  is whenever some subject is sampled (`PendingReports.NegativeOnCleanInputIff`). Where nothing is ignored, a report is
  at most one record a parser below zero (`PendingReports.ReportsBounded`). Otherwise there is no bound: all records
  ignored between the loads of `parsed` and `ignored` are subtracted too (`PendingReports.ReportLag`,
  `PendingReports.ReportsUnbounded`).
- With a negative tolerance the comparator reports equal vectors as different (`Compare.Vectors`).
- The verify tool never writes the source records left over when the destination ends first. Its file is the whole
  difference exactly when the last source record does not outnumber its matches or some destination record is greater
  (`VerifyDiff.Compare`).
- The streaming join drops a detail when a second detail of the same node arrives before the node's link, and loses
  nothing otherwise (`Convert.StreamIsJoinIff`).

Two comments in the source say something else than its code. `LinearSeek` (bitmap/codec.go:311-313) is said to stop at
the last block whose base is less than the id; the code also passes a base equal to it, and the model follows the code.
`Encode` (bitmap/codec.go:351-352) is said to leave only the last block short; a change of the upper 32 bits ends a block
early as well.

## Model

| member | source | states |
|---|---|---|
| `GroupVarint.Encode4` | bitmap/codec.go:96-110 | four values go out as one header byte and their minimal little-endian bytes, though each lane stores four bytes and is overwritten by the next |
| `GroupVarint.LeBytesAre` | bitmap/codec.go:109 | a lane holds the value least significant byte first, in one byte below 2^8, two below 2^16, three below 2^24 and four from there on |
| `GroupVarint.GroupLayout` | bitmap/codec.go:109 | the group is a byte of the four lengths less one, two bits each with the first value lowest, and then the four lanes in order |
| `GroupVarint.Decode4` | bitmap/codec.go:193-212 | reads the four values announced by the header out of a window of at least 17 bytes |
| `GroupVarint.GroupRoundTrip` | bitmap/codec.go:198-213 | decoding a group returns the encoded values and consumes exactly the group's bytes, whatever bytes follow it |
| `Uvarint.PutUvarint` | bitmap/codec.go:431 | writes the base-128 form of any 64-bit value within ten bytes |
| `Uvarint.UvarintForm` | bitmap/codec.go:431 | seven bits a byte, least significant first, the top bit set on every byte but the last |
| `Uvarint.UvarintShortest` | bitmap/codec.go:431 | k bytes are enough exactly for the values below 128^k |
| `Uvarint.ReadUvarint` | bitmap/codec.go:371 | reads value and length as the shift-and-accumulate loop does, with truncation and overflow reported by a count that is not positive |
| `Uvarint.ParseIs` | bitmap/codec.go:371 | the value ends at the first byte with its top bit clear, and overflows exactly if that is past the tenth byte, or the tenth with more than one bit |
| `Uvarint.ParseRunsOut` | bitmap/codec.go:371 | without such a byte the buffer is too short up to ten bytes and overflows beyond |
| `Uvarint.UvarintRoundTrip` | bitmap/codec.go:370-432 | reading after writing gives the value and exactly its own bytes, for all 64-bit values and any following bytes |
| `UidPacks.UnpackTerminatesIff` | bitmap/codec.go:197 | the unpacking loop's guard ever fails exactly for counts up to 2^32 - 3 |
| `UidPacks.MatchIffSameQuotient` | bitmap/codec.go:439-440 | two ids may share a block exactly if their quotients by 2^32 are equal |
| `UidPacks.UngroupInvertsGroups` | bitmap/codec.go:92-213 | zero-padded final groups, re-padded windows and any trailing bytes change no delta |
| `UidPacks.BlockRoundTripIff` | bitmap/codec.go:79-223 | for ids sharing their upper 32 bits, unpacking inverts packing if and only if the ids never decrease and are at most 2^32 - 3 |
| `Encoders.Encoder.constructor` | bitmap/codec.go:359 | a new encoder has no pack and nothing pending |
| `Encoders.Encoder.PackDeltas` | bitmap/codec.go:95-118 | the group loop produces the padded groups of all deltas after the base and consumes the ids |
| `Encoders.Encoder.FillDeltas` | bitmap/codec.go:99-107 | the next four deltas, zero where ids have run out, and the last id used |
| `Encoders.Encoder.PackBlock` | bitmap/codec.go:79-124 | pending ids become exactly one more block of the same pack; nothing pending changes nothing |
| `Encoders.Encoder.Add` | bitmap/codec.go:129-150 | keeps the class invariant (the pack is the packed form of the chunks so far) and makes one step of the chunking |
| `Encoders.Encoder.Done` | bitmap/codec.go:153-159 | packs what is pending and hands out the encoder's own pack, to which later calls append |
| `Encoders.OperationsKeepIds` | bitmap/codec.go:129-159 | over any sequence of Add and Done, packed chunks then pending ids are everything added, in order, and every chunk is in shape |
| `Encoders.SplitCharacterised` | bitmap/codec.go:129-150 | the block borders are unique: joining to the input, equal upper bits, bounded length, and each block full or followed by other upper bits |
| `Encoders.SplitIsCut` | bitmap/codec.go:129-150 | the same spelled out: the chunks are those of the input exactly if they join to it, hold one quotient by 2^32 and at most the block size of ids (one if that is below one), and end only when full or before another quotient |
| `Decoders.Search` | bitmap/codec.go:265 | the binary search stops where the predicate is false just before and true at the result, for any predicate, and always at the place its halving leads to |
| `Decoders.Decoder.UnpackBlock` | bitmap/codec.go:177-223 | yields the ids of the current block, or nothing past the end, without touching the pack |
| `Decoders.Decoder.UnpackGroups` | bitmap/codec.go:197-221 | whole groups are appended until the count is reached; the surplus ids are cut off |
| `Decoders.Decoder.PadShort` | bitmap/codec.go:198-210 | data shorter than 17 bytes is copied and zero-extended, longer data is used as it is |
| `Decoders.Decoder.AppendSums` | bitmap/codec.go:214-218 | appends four running sums modulo 2^64 |
| `Decoders.Decoder.Next` | bitmap/codec.go:341-344 | moves one block on; what remained is what was just read followed by what remains now |
| `Decoders.Decoder.Seek` | bitmap/codec.go:244-302 | on every pack, ordered or not, what remains to be read is `SeekRest`: the list from the block or the id at which the two searches stop; the ids returned are the end of the ids of the one block the decoder then stands on; a zero id gives everything |
| `Decoders.Decoder.SeekInBlock` | bitmap/codec.go:279-301 | the search in the block before the border returns the rest of that block from the first id found on and stays there, or else moves on and returns the next block |
| `Decoders.SeekRestFinds` | bitmap/codec.go:236-302 | on ordered packs `SeekRest` is the filter of the whole pack exactly when no duplicate is split at the border sought, and otherwise the pack from that border on |
| `Decoders.KeepOccurs` | bitmap/codec.go:238-243 | the filter keeps each id above the one sought, and with `SeekStart` that one too, exactly as often as it occurs |
| `Decoders.SeekRestCrosses` | bitmap/codec.go:236-302 | on packs whose ids drop, `SeekRest` is still an end of the whole list, starting at a wanted id and following an unwanted one unless a block starts at the id sought |
| `Decoders.Decoder.PeekNextBase` | bitmap/codec.go:327-333 | the next block's base, or 2^64 - 1 at the end |
| `Decoders.Decoder.LinearSeek` | bitmap/codec.go:314-324 | ends for every id but the largest, at the first block from the current one that no block starting at or below the id follows, and returns its ids |
| `Decoders.SeekHitsBase` | bitmap/codec.go:270-274 | stopping at a block that starts at the id sought gives the filter exactly when the block before does not end with that id |
| `Decoders.SeekInsideBlock` | bitmap/codec.go:276-301 | searching the block before the border, or falling through to the next block, gives the filter |
| `Decoders.LinearSeekTerminatesIff` | bitmap/codec.go:314-333 | some block stops the linear seek exactly when the id is not the largest one |
| `Decoders.LinearSeriesIsLast` | bitmap/codec.go:311-324 | a non-decreasing series of linear seeks ends on the block that one seek for the last id reaches |
| `Decoders.LinearSeekFinds` | bitmap/codec.go:311-324 | on ordered packs an id occurs at or after the starting block if and only if it is in the block returned |
| `Codec.Encode` | bitmap/codec.go:358-364 | no pack for no ids, otherwise a fresh pack holding the blocks of the unique split, whose borders are spelled out |
| `Codec.Decode` | bitmap/codec.go:383-417 | reserves blocks times stored block size, then returns the whole list that the seek leaves, for every id sought and every pack on which reservation and unpacking succeed |
| `Codec.DeltaVarintsHead` | bitmap/codec.go:430-434 | a buffer starts with the varint of the first id less the one before, modulo 2^64, and goes on from that id |
| `Codec.ReadInvertsDeltas` | bitmap/codec.go:370-434 | a written buffer is well-formed and reads back as the same ids, rising or falling, because the wrap-around cancels |
| `Codec.EncodeFromBuffer` | bitmap/codec.go:367-379 | the read loop ends on well-formed buffers and the pack is that of the ids read |
| `Codec.DecodeToBuffer` | bitmap/codec.go:421-437 | the buffer is the delta varints of exactly the ids that `Decode` gives for the same seek; nothing is reserved by block size |
| `Codec.AppendDeltas` | bitmap/codec.go:430-434 | appends one block's ids as delta varints, continuing from the id before |
| `Codec.ExactLen` | bitmap/codec.go:392-405 | the sum of the stored counts, zero for no pack |
| `RoundTrips.RoundTripIff` | bitmap/codec.go:351-417 | decoding an encoded list returns, and returns the list, if and only if every block is faithful and the reservation fits; borders between blocks are free |
| `RoundTrips.RoundTrip` | bitmap/codec.go:351-417 | for every block size, the blocks of a list whose neighbours with equal upper 32 bits do not decrease give the list back, and decoding can then fail only in its reservation |
| `RoundTrips.EncodeThenDecode` | bitmap/codec.go:358-417 | calling the two methods on such a list returns it |
| `RoundTrips.ReservationFails` | bitmap/codec.go:383-410 | two lists with faithful blocks for which decoding panics: 16385 ids 2^32 apart with block size 2^31, and 8193 with block size -1 |
| `RoundTrips.PackAndPending` | bitmap/codec.go:129-159 | at any point of any Add/Done sequence, draining the pack and then the pending ids is everything added |
| `RoundTrips.DecodeIsFilter` | bitmap/codec.go:244-302 | for strictly increasing ids, any block size and any id sought, what a seek in the encoded list leaves is the sub-list from that id on |
| `RoundTrips.EncodeThenSeek` | bitmap/codec.go:358-417 | calling Encode and then Decode with a seek on such a list returns exactly its ids from the one sought on, in strictly increasing order |
| `RoundTrips.SeekStartIsFilterIff` | bitmap/codec.go:271-274 | with duplicates, the same holds exactly unless the id ends one block that starts below it and starts the next |
| `RoundTrips.SeekCurrentIsFilterIff` | bitmap/codec.go:244-302 | SeekCurrent leaves exactly the greater ids, duplicates across blocks included, unless a zero id is sought in a list with zeros |
| `RoundTrips.RecodeIff` | bitmap/codec.go:367-437 | re-encoding through a buffer decodes to the same ids exactly when the new blocks are faithful and their reservation fits, for any pack and any block size |
| `RoundTrips.Recode` | bitmap/codec.go:367-437 | calling DecodeToBuffer and then EncodeFromBuffer gives the pack of exactly the ids drained from the old one |
| `RoundTrips.RecodeLosesDrop` | bitmap/codec.go:367-437 | a concrete pack that re-encodes faithfully with block size one and not with two |
| `Sizes.SplitCount` | bitmap/codec.go:129-159 | the number of blocks is the sum, over the maximal runs of ids with equal upper 32 bits, of the run length divided by the capacity and rounded up |
| `Sizes.OneRunCount` | bitmap/codec.go:129-159 | n ids with one quotient by 2^32 take n / blockSize blocks, rounded up, or n blocks for a block size below one |
| `Sizes.EncodedLength` | bitmap/codec.go:390-405 | the stored counts add up to the input length, for block sizes below 2^32 or lists shorter than that |
| `Sizes.ExactWithinApproxIff` | bitmap/codec.go:381-405 | the exact length is at most the estimate, blocks times stored size, exactly if the list is empty or the low 32 bits of the block size are not zero; for sizes from 2^32 on, exactly if those low bits still cover the ids |
| `Sizes.ReservesIff` | bitmap/codec.go:383-410 | the reservation succeeds exactly when blocks times stored size, taken modulo 2^64, is at most 2^45, and always when ids times stored size is |
| `Sizes.EncodedBlockSize` | bitmap/codec.go:95-118 | a block takes 5 to 17 bytes a group and at least one group |
| `Loader.NeverPanics` | neo/loader.go:71-213 | in no interleaving and for no random choice does any goroutine send on a closed channel, close twice, overdraw the wait group or draw from an empty buffer |
| `Loader.CompletesExactly` | neo/loader.go:71-213 | at return every line that is not blank was parsed and handled exactly once, as a multiset, in the way its subject calls for; all counters are exact and read is lines minus the first thousand |
| `Loader.SampledByFingerprint` | neo/loader.go:135-160 | at return a line that is not blank was processed, each copy of it, exactly if the fingerprint of its record's subject is a multiple of the modulus, and ignored otherwise |
| `Loader.SamplesAll` | neo/loader.go:137 | with a modulus of one every line that is not blank is processed and nothing is ignored |
| `Loader.TrimSpan` | neo/loader.go:100-104 | trimming takes off the spaces and tabs at both ends, all of them and nothing else; a line is blank exactly if it has no other characters |
| `Loader.ProgramFits` | neo/loader.go:73-200 | in every reachable state with the program's sizes: at most 10000 lines and 10000 records are queued and 1000 lines buffered, and there are 3000 handlers |
| `Loader.ProgramReturns` | neo/loader.go:173-213 | with the program's own channel sizes and pools, the value returned is the number of lines that are not blank and whose subject's fingerprint is a multiple of the modulus, whatever the interleaving, and read counts the lines after the first thousand |
| `Loader.OutcomeIsDeterministic` | neo/loader.go:173-213 | any two completed runs on the same lines end with the same counters and return value |
| `Loader.CountersLag` | neo/loader.go:113-114 | in every reachable state processed plus ignored is at most parsed plus the number of parsers |
| `PendingReports.NegativeIff` | neo/loader.go:113-150 | in every reachable state the counter of parsed records is below processed plus ignored exactly when the parsers that have sent but not counted outnumber the records queued or being handled |
| `PendingReports.CanReportNegativeIff` | neo/loader.go:49-150 | for every input, with the ticker's three separate loads and its skip of an unchanged count: some run reports a negative figure exactly when some run reports at all, exactly when the lines, shuffled in some way the buffer allows, bring one with a sampled subject to the parsers before as many as there are parsers that do not parse |
| `PendingReports.NegativeWhenFewBad` | neo/loader.go:49-150 | a line with a sampled subject is necessary, and sufficient when fewer lines fail to parse than there are parsers |
| `PendingReports.NegativeOnCleanInputIff` | neo/loader.go:49-150 | if every line that is not blank parses, a negative report is possible exactly when some subject is sampled |
| `PendingReports.ReportLag` | neo/loader.go:49-59 | a report is below zero by at most one record a parser and the records ignored between its last two loads |
| `PendingReports.ReportsBounded` | neo/loader.go:49-59 | if every line that parses is sampled, no report of any ticker is lower than one record a parser below zero |
| `PendingReports.ReportsUnbounded` | neo/loader.go:49-59 | for every n, a sampled line followed by n lines that are parsed and ignored can give a report n below zero, whatever the number of parsers |
| `Loader.NeverStuck` | neo/loader.go:71-213 | until the loader has returned or died some goroutine can move without an error: no deadlock |
| `Loader.RunsAreBounded` | neo/loader.go:71-213 | every step uses up work, so every run is finite |
| `Loader.CleanRunsReturn` | neo/loader.go:98-213 | if every line that is not blank parses and no input or database error occurs, every maximal run returns |
| `Loader.UnparsableRunsDie` | neo/loader.go:108-207 | if some line that is not blank does not parse, every maximal run ends in the fatal exit |
| `OptimalHeaps.OptimalHeap.Swap` | cachebench/ristretto/cache.go:105 | exchanges two items |
| `OptimalHeaps.OptimalHeap.Up` | cachebench/ristretto/cache.go:85 | restores the heap order from one item that may be too small, keeping the items |
| `OptimalHeaps.OptimalHeap.Down` | cachebench/ristretto/cache.go:79 | restores the heap order of a prefix from one item that may be too large, keeping the items and the rest |
| `OptimalHeaps.OptimalHeap.Push` | cachebench/ristretto/cache.go:107-109 | adds one item and stays a heap |
| `OptimalHeaps.OptimalHeap.Pop` | cachebench/ristretto/cache.go:111-117 | removes an item whose count is least of all and stays a heap |
| `CacheBench.BenchOptimal.constructor` | cachebench/ristretto/cache.go:47-53 | starts with no accesses; a negative capacity wraps |
| `CacheBench.BenchOptimal.Get` | cachebench/ristretto/cache.go:55-59 | records the access, keeps every count equal to the key's multiplicity, and finds nothing |
| `CacheBench.BenchOptimal.Set` | cachebench/ristretto/cache.go:61-64 | records the access and keeps every count equal to the key's multiplicity |
| `CacheBench.BenchOptimal.Admit` | cachebench/ristretto/cache.go:78-85 | heap and lookup set keep the same distinct keys; a victim has the least total count of all residents and goes only from a full cache |
| `CacheBench.BenchOptimal.Log` | cachebench/ristretto/cache.go:68-92 | the three figures are the hits, misses and evictions of some run of the policy over the recorded accesses |
| `CacheBench.LogBalances` | cachebench/ristretto/cache.go:68-92 | hits plus misses is the number of accesses, misses exceed evictions by at most the capacity, a key with fewer than capacity - 1 rivals contributes all its accesses but one as hits, and if the distinct keys fit there is one miss a key and no eviction |
| `CacheBench.SimulationBalances` | cachebench/ristretto/cache.go:68-92 | in every run of the policy hits and misses make up the accesses, misses minus evictions are resident, and residents never exceed the capacity |
| `CacheBench.FrequentKeysStay` | cachebench/ristretto/cache.go:68-92 | a key with fewer than capacity - 1 other keys accessed at least as often is never evicted and misses exactly once |
| `CacheBench.EnoughRoom` | cachebench/ristretto/cache.go:68-92 | if the distinct keys fit, nothing is evicted and misses equal the number of distinct keys |
| `Oracles.Graph.AddNode` | k-shortest-path/internal/oracle/oracle.go:67-71 | adds a vertex and no edge |
| `Oracles.Graph.AddEdge` | k-shortest-path/internal/oracle/oracle.go:47-62 | refuses negative weights even on loops, drops loops without adding their node, keeps the cheaper of parallel edges |
| `Oracles.Graph.PathWeight` | k-shortest-path/internal/oracle/oracle.go:125-135 | the sum of the weights of the edges the walk follows, or the first pair of different nodes that no edge joins |
| `Oracles.CostIsSum` | k-shortest-path/internal/oracle/oracle.go:125-135 | a walk has a cost exactly if each step stands still or follows an edge, and the cost is the sum of those edges' weights |
| `Oracles.BuildGraph` | k-shortest-path/cmd/prepare/main.go:107-116 | fails exactly at the first negative weight; otherwise the graph is the minimum-merge of the effective edges, without loops or negative weights, and its nodes are the vertices given and the endpoints of the edges |
| `Oracles.MergeIsCanonical` | k-shortest-path/internal/oracle/oracle.go:14-18 | the graph depends only on which edges are listed: not on order, repetition or self-loops |
| `Oracles.EffectiveMembers` | k-shortest-path/cmd/prepare/main.go:374-386 | an edge is effective if it is listed, or if its reverse is listed in an undirected dataset |
| `Oracles.RebuiltGraphAgrees` | k-shortest-path/cmd/prepare/main.go:404-419 | the graph rebuilt from the already mirrored, six-decimal file has the same edges with rounded weights, and equals the first graph exactly when its weights survive the rounding |
| `Oracles.SixDecimalsRounds` | k-shortest-path/cmd/prepare/main.go:415 | a printed weight is a whole number of millionths at most half a millionth off, the even one in a tie |
| `Oracles.BuildTwice` | k-shortest-path/cmd/bench/kshortest.go:111-123 | rebuilding from the written file fails only where the first build, of the minimum-merge, failed, because printing keeps weights non-negative; it joins the same pairs at rounded weights, and lacks exactly the vertices without an edge |
| `KShortest.TopK` | k-shortest-path/internal/oracle/oracle.go:83-103 | missing endpoints are reported, source first; otherwise the answer is sorted and has, for each path found, the sum of the weights of its edges |
| `KShortest.TiesDoNotMatter` | k-shortest-path/internal/oracle/oracle.go:6-12 | any two correct selections of the k cheapest loopless paths have the same sorted cost vector |
| `KShortest.SelectionExists` | k-shortest-path/internal/oracle/oracle.go:75-82 | for every graph, endpoints and k a correct selection exists, and each has as many paths as there are loopless paths, up to k |
| `KShortest.MakeLoopless` | k-shortest-path/internal/oracle/oracle.go:42-62 | with non-negative weights every walk can be cut to a loopless path that costs no more |
| `KShortest.TopOneIsDistance` | k-shortest-path/internal/oracle/oracle.go:105-122 | the k-shortest answer is empty exactly when the target is unreachable, and otherwise starts with the single-source distance |
| `Compare.RelErr` | k-shortest-path/internal/compare/compare.go:89-101 | never negative, and zero exactly for equal costs, infinities included |
| `Compare.RelErrIs` | k-shortest-path/internal/compare/compare.go:89-101 | the error times the size of the expected cost is the difference; with an expected zero the error is the size of the returned cost; an infinity is infinitely far from everything else |
| `Compare.WorstRelErr` | k-shortest-path/internal/compare/compare.go:78-87 | the maximum over the ranks both vectors have, zero if there is none |
| `Compare.Vectors` | k-shortest-path/internal/compare/compare.go:59-76 | passes exactly if the tolerance is not negative, the counts agree and at every rank the costs are equal or differ by at most the tolerance times the expected cost, where zero counts as one; a different count is always reported as such |
| `Compare.CompareSelections` | k-shortest-path/internal/compare/compare.go:3-8 | two correct searches with different tie-breaking compare with error zero, and pass for every tolerance that is not negative |
| `VerifyDiff.KeyOrder` | scripts/verify/main.go:49-70 | of two records exactly one of equal, less and greater holds |
| `VerifyDiff.KeyTransitive` | scripts/verify/main.go:59-70 | the record order is transitive |
| `VerifyDiff.LessByFields` | scripts/verify/main.go:49-70 | records are ordered by subject, predicate, object and value in that order, and are the same exactly if these four agree |
| `VerifyDiff.StringLessIff` | scripts/verify/main.go:63-69 | texts are ordered by their first difference, a beginning before its continuations |
| `VerifyDiff.Compare` | scripts/verify/main.go:113-139 | what is written is a subsequence of the source read, and any source record is written, unread, or equal in all four fields to a destination record; on sorted inputs the match count is the size of the multiset intersection, there are matches exactly if two records agree in the four fields, what is written plus the unread tail is the multiset difference over the four fields, and the file alone is the difference exactly when the last source record can be passed |
| `Convert.ConvertLines` | convert/main.go:78-112 | the triples written are, as a multiset, those emitted in the stream, in the order of their lines and first, and those drained afterwards; every triple is said by an actor.film and a performance.film line as acted_in, or by a starring and a performance.actor line as actors; and every pair due, a detail with the last link before it or a last waiting detail with the last link of all, is written |
| `Convert.DrainHeld` | convert/main.go:103-112 | walking the map of waiting details in any order writes the same triples |
| `Convert.StreamBalances` | convert/main.go:82-101 | at every point of the stream, written, held and lost triples make up the relational join of the lines so far |
| `Convert.StreamIsJoinIff` | convert/main.go:82-112 | if no node is linked to two entities, the output is part of the join, and all of it, each detail line once, exactly when no two details of a node precede its link |
| `Convert.SingleDetailsAreJoined` | convert/main.go:82-112 | with at most one detail line a node the output is exactly the join, in every order of lines |
| `Convert.WrittenIsJustified` | convert/main.go:82-112 | on any input every triple written comes from a link line and a detail line of one node |

## Left out

- Memory in the codec: allocators, `unsafe` block layout, `AllocRef`, `FreePack` and mapped buffers. Slices are sequences, so that block bytes are shared but never written is not a statement of the model; `UidPack`, `Encoder` and `Decoder` are objects, and the decoder's frame excludes the pack. A limit the allocator may set on the size of one block's deltas (`Allocate` at bitmap/codec.go:121), whose code is not part of this model, is not modelled either.
- `CopyUidPack`, the decoder's own `ApproxLen`, `Valid`, `BlockIdx`, `Uids` and `NewDecoder`: accessors and one-line wrappers.
- Codec.Decode: requires a reservation within the 2^48 bytes of linux/amd64 and blocks whose unpacking ends, because the source panics or loops otherwise; running out of memory below that limit, and the size limit of the buffer of `DecodeToBuffer`, are not modelled.
- Sizes.ExactWithinApproxIff: says nothing once blocks times stored size reaches 2^63, where the estimate wraps, or for lists of 2^32 ids and more with block sizes from 2^32 on, where stored counts are truncated.
- Codec.EncodeFromBuffer: requires a well-formed buffer, because on any other the source loops without progress or slices at a negative offset.
- Decoders.Decoder.LinearSeek: requires an id below the largest one, because the source does not end for it.
- CacheBench.BenchOptimal.Log: requires a capacity of at least one, or no accesses, because the source pops an empty heap otherwise; 64-bit overflow of the counters is out of reach and not modelled.
- Loader.Config: a sampling modulus of zero, for which the source divides by zero at the first record, is excluded. Line reading, record parsing and hashing are parameters; database calls are one step that may fail. The period of the ticker is not modelled: a tick may come at any moment.
- Loader.Apply: the shuffle buffer is a sequence in the state, so its update in place is not an aliasing question here.
- Searches on graphs: the k-shortest and single-source searches are gonum's and enter as contracts. Weights are reals; NaN, float rounding and the parsing of printed weights back to floats are not modelled.
- Compare.CompareSelections: takes the selections of both sides as correct, which is the claim about ties; whether a server's answer is correct is what the benchmark measures.
- Sorting: `sort.Float64s` is an insertion sort here, and the sort before the record comparison is a condition on its inputs.
- Text of the outputs: the lines written by the verify tool and the converter are records and triples, and the `name` lines the converter copies through are not modelled.
- The remaining programs (HTTP and gRPC load drivers, format converters, vector scripts, wrappers around third-party caches, statistics helpers): input and output around libraries that are not part of this model.
