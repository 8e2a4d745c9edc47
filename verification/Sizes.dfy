/** How many blocks an encoded list has, how many ids they count, and what the length estimates say about it. */
module Sizes {
  import opened Machine
  import opened UidPacks
  import opened Encoders
  import opened Decoders
  import opened Codec

  //
  // The number of blocks
  //

  /** The length of the first run: the ids, from the first one on, that share its upper 32 bits. */
  function RunLength(ids: seq<Uint64>): (n: nat)
    requires ids != []
    ensures 0 < n <= |ids|
  {
    if |ids| > 1 && Match32Msb(ids[0], ids[1]) then 1 + RunLength(ids[1..]) else 1
  }

  /** The blocks that `n` ids of one run take, `capacity` to a block. */
  function BlocksFor(n: nat, capacity: nat): nat
    requires capacity > 0
  {
    (n + capacity - 1) / capacity
  }

  /** The sum, over the runs of equal upper 32 bits, of the blocks each run takes. */
  function BlockCount(ids: seq<Uint64>, blockSize: int): nat
    decreases |ids|
  {
    if ids == [] then 0 else
      var n := RunLength(ids);
      BlocksFor(n, Capacity(blockSize)) + BlockCount(ids[n..], blockSize)
  }

  lemma {:induction false} RunMatches(ids: seq<Uint64>)
    requires ids != []
    ensures var n := RunLength(ids);
            && (forall i :: 0 <= i < n ==> Match32Msb(ids[0], ids[i]))
            && (n < |ids| ==> !Match32Msb(ids[n - 1], ids[n]))
    decreases |ids|
  {
    hide High32;
    if |ids| > 1 && Match32Msb(ids[0], ids[1]) {
      var n := RunLength(ids[1..]);
      RunMatches(ids[1..]);
      forall i | 0 <= i < n + 1
        ensures Match32Msb(ids[0], ids[i])
      {
        assert i > 0 ==> Match32Msb(ids[1..][0], ids[1..][i - 1]);
      }
    }
  }

  lemma {:induction false} RunTail(ids: seq<Uint64>, k: nat)
    requires ids != [] && k < RunLength(ids)
    ensures RunLength(ids[k..]) == RunLength(ids) - k
    decreases k
  {
    hide Match32Msb;
    if k > 0 {
      RunTail(ids[1..], k - 1);
      assert ids[1..][k - 1..] == ids[k..];
    } else {
      assert ids[0..] == ids;
    }
  }

  lemma BlocksStep(n: nat, capacity: nat)
    requires capacity > 0
    ensures 0 < n <= capacity ==> BlocksFor(n, capacity) == 1
    ensures n > capacity ==> BlocksFor(n, capacity) == 1 + BlocksFor(n - capacity, capacity)
  {
    if 0 < n <= capacity {
      QuotientIs(n + capacity - 1, capacity, 1);
    } else if n > capacity {
      QuotientIs(n + capacity - 1, capacity, 1 + BlocksFor(n - capacity, capacity));
    }
  }

  lemma QuotientIs(n: nat, d: nat, q: nat)
    requires d > 0 && q * d <= n < (q + 1) * d
    ensures n / d == q
  {
    var e := n / d;
    assert e * d <= n < (e + 1) * d;
    if e > q {
      TimesMonotone(q + 1, e, d);
    } else if e < q {
      TimesMonotone(e + 1, q, d);
    }
  }

  lemma TimesMonotone(a: nat, b: nat, d: nat)
    requires a <= b
    ensures a * d <= b * d
  {
  }

  lemma {:induction false} PrefixInRun(ids: seq<Uint64>, k: nat)
    requires 0 < k <= |ids| && SameHigh(ids[..k])
    ensures k <= RunLength(ids)
    decreases k
  {
    hide Match32Msb;
    if k > 1 {
      assert Match32Msb(ids[..k][0], ids[..k][1]);
      assert ids[1..][..k - 1] == ids[..k][1..];
      PrefixInRun(ids[1..], k - 1);
    }
  }

  /** A greedy split stops its first chunk at the capacity or at the end of the first run. */
  lemma FirstChunk(chunks: seq<Chunk>, blockSize: int)
    requires GreedySplit(chunks, blockSize) && chunks != []
    ensures var n, capacity := RunLength(Flat(chunks)), Capacity(blockSize);
            |chunks[0]| == if n <= capacity then n else capacity
  {
    hide Match32Msb, Capacity, SameHigh, Flat, RunLength;
    NoChunks();
    FlatHead(chunks);
    var ids: seq<Uint64>, c: seq<Uint64> := Flat(chunks), chunks[0];
    assert ChunkShape(c, blockSize) && c == ids[..|c|];
    PrefixInRun(ids, |c|);
    if |c| < RunLength(ids) {
      FlatHead(chunks[1..]);
      assert ids[|c| - 1] == c[|c| - 1] && ids[|c|] == chunks[1][0];
      SameRun(ids, |c| - 1, |c|);
      assert EndsBefore(chunks[1 - 1], chunks[1][0], blockSize);
    }
  }

  lemma SameRun(ids: seq<Uint64>, i: nat, j: nat)
    requires ids != [] && i < RunLength(ids) && j < RunLength(ids)
    ensures Match32Msb(ids[i], ids[j])
  {
    RunMatches(ids);
  }

  lemma {:induction false} GreedyCount(chunks: seq<Chunk>, blockSize: int)
    requires GreedySplit(chunks, blockSize)
    ensures |chunks| == BlockCount(Flat(chunks), blockSize)
    decreases |chunks|
  {
    hide Match32Msb, Capacity, GreedySplit, Flat, RunLength, BlocksFor;
    if chunks == [] {
      NoChunks();
    } else {
      var ids, k := Flat(chunks), |chunks[0]|;
      FlatHead(chunks);
      FirstChunk(chunks, blockSize);
      assert Flat(chunks[1..]) == ids[k..];
      GreedyTail(chunks, blockSize);
      GreedyCount(chunks[1..], blockSize);
      var n, capacity := RunLength(ids), Capacity(blockSize);
      CapacityPositive(blockSize);
      BlocksStep(n, capacity);
      if n > capacity {
        RunTail(ids, capacity);
        assert ids[k..][n - k..] == ids[n..];
      }
    }
  }

  lemma NoChunks()
    ensures Flat([]) == []
  {
  }

  lemma CapacityPositive(blockSize: int)
    ensures Capacity(blockSize) > 0
  {
  }

  /** The number of blocks `Encode` makes. */
  lemma SplitCount(ids: seq<Uint64>, blockSize: int)
    ensures |Split(ids, blockSize)| == |EncodedBlocks(ids, blockSize)| == BlockCount(ids, blockSize)
  {
    hide Split, GreedySplit, Packed, BlockCount;
    SplitCharacterised(ids, blockSize, Split(ids, blockSize));
    GreedyCount(Split(ids, blockSize), blockSize);
    PackedCount(Split(ids, blockSize));
  }

  lemma PackedCount(chunks: seq<Chunk>)
    ensures |Packed(chunks)| == |chunks|
  {
  }

  lemma {:induction false} WholeRun(ids: seq<Uint64>)
    requires ids != [] && forall i :: 0 <= i < |ids| ==> ids[i] / 0x1_0000_0000 == ids[0] / 0x1_0000_0000
    ensures RunLength(ids) == |ids|
    decreases |ids|
  {
    if |ids| > 1 {
      MatchIffSameQuotient(ids[0], ids[1]);
      hide Match32Msb;
      WholeRun(ids[1..]);
    }
  }

  /** Ids with one quotient by 2^32 fill their blocks: only the last one can be short. */
  lemma OneRunCount(ids: seq<Uint64>, blockSize: int)
    requires ids != [] && forall i :: 0 <= i < |ids| ==> ids[i] / 0x1_0000_0000 == ids[0] / 0x1_0000_0000
    ensures |EncodedBlocks(ids, blockSize)| == if blockSize < 1 then |ids| else (|ids| + blockSize - 1) / blockSize
  {
    hide RunLength, EncodedBlocks, Split;
    WholeRun(ids);
    SplitCount(ids, blockSize);
    assert ids[|ids|..] == [];
  }

  //
  // The number of ids
  //

  predicate AllCounted(chunks: seq<Chunk>) {
    forall i :: 0 <= i < |chunks| ==> |chunks[i]| < 0x1_0000_0000
  }

  lemma LastChunk(chunks: seq<Chunk>)
    requires chunks != []
    ensures var n := |chunks| - 1;
            && TotalUids(Packed(chunks)) == TotalUids(Packed(chunks[..n])) + PackedBlock(chunks[n]).numUids
            && |Flat(chunks)| == |Flat(chunks[..n])| + |chunks[n]|
            && (AllCounted(chunks) <==> AllCounted(chunks[..n]) && |chunks[n]| < 0x1_0000_0000)
  {
    hide PackedBlock, Packed, Flat, TotalUids, AllCounted;
    var n := |chunks| - 1;
    LastPacked(chunks);
    LastTotal(Packed(chunks));
    LastFlat(chunks);
    LastCounted(chunks);
  }

  lemma LastPacked(chunks: seq<Chunk>)
    requires chunks != []
    ensures var n := |chunks| - 1;
            Packed(chunks) != [] && Packed(chunks)[..n] == Packed(chunks[..n])
            && Packed(chunks)[n] == PackedBlock(chunks[n])
  {
    hide PackedBlock;
  }

  lemma LastTotal(blocks: seq<UidBlock>)
    requires blocks != []
    ensures var n := |blocks| - 1; TotalUids(blocks) == TotalUids(blocks[..n]) + blocks[n].numUids
  {
  }

  lemma LastFlat(chunks: seq<Chunk>)
    requires chunks != []
    ensures var n := |chunks| - 1; |Flat(chunks)| == |Flat(chunks[..n])| + |chunks[n]|
  {
  }

  lemma LastCounted(chunks: seq<Chunk>)
    requires chunks != []
    ensures var n := |chunks| - 1;
            AllCounted(chunks) <==> AllCounted(chunks[..n]) && |chunks[n]| < 0x1_0000_0000
  {
    var n := |chunks| - 1;
    assert forall i :: 0 <= i < n ==> chunks[..n][i] == chunks[i];
  }

  lemma {:induction false} TotalIsLength(chunks: seq<Chunk>)
    ensures TotalUids(Packed(chunks)) <= |Flat(chunks)|
    ensures TotalUids(Packed(chunks)) == |Flat(chunks)| <==> AllCounted(chunks)
    decreases |chunks|
  {
    hide PackedBlock, AllCounted;
    if chunks == [] {
      NoneToCount();
    } else {
      hide Packed, Flat, TotalUids;
      var n := |chunks| - 1;
      TotalIsLength(chunks[..n]);
      LastChunk(chunks);
      StoredCount(chunks[n]);
    }
  }

  lemma NoneToCount()
    ensures AllCounted([])
  {
  }

  lemma StoredCount(c: Chunk)
    ensures PackedBlock(c).numUids <= |c| && (PackedBlock(c).numUids == |c| <==> |c| < 0x1_0000_0000)
  {
    hide Groups, Deltas;
  }

  /** The stored counts add up to the input length, unless a block can hold more ids than 32 bits count. */
  lemma EncodedLength(ids: seq<Uint64>, blockSize: int)
    requires blockSize < 0x1_0000_0000 || |ids| < 0x1_0000_0000
    ensures TotalUids(EncodedBlocks(ids, blockSize)) == |ids|
  {
    hide Split, Packed, Flat, TotalUids, SameHigh, EndsBefore;
    var chunks := Split(ids, blockSize);
    SplitCharacterised(ids, blockSize, chunks);
    TotalIsLength(chunks);
    forall i | 0 <= i < |chunks|
      ensures |chunks[i]| < 0x1_0000_0000
    {
      assert ChunkShape(chunks[i], blockSize);
      ChunkNoLonger(chunks, i);
    }
  }

  lemma {:induction false} ChunkNoLonger(chunks: seq<Chunk>, i: nat)
    requires i < |chunks|
    ensures |chunks[i]| <= |Flat(chunks)|
    decreases |chunks|
  {
    var n := |chunks| - 1;
    if i < n {
      ChunkNoLonger(chunks[..n], i);
    }
  }

  lemma {:induction false} CountBounds(ids: seq<Uint64>, blockSize: int)
    ensures BlockCount(ids, blockSize) <= |ids| <= BlockCount(ids, blockSize) * Capacity(blockSize)
    decreases |ids|
  {
    hide Capacity, RunLength, BlocksFor;
    if ids != [] {
      var n, capacity := RunLength(ids), Capacity(blockSize);
      CapacityPositive(blockSize);
      CountBounds(ids[n..], blockSize);
      BlocksBounds(n, capacity);
      Distribute(BlocksFor(n, capacity), BlockCount(ids[n..], blockSize), capacity);
    }
  }

  lemma Distribute(a: nat, b: nat, d: nat)
    ensures (a + b) * d == a * d + b * d
  {
  }

  lemma {:induction false} BlocksBounds(n: nat, capacity: nat)
    requires n > 0 && capacity > 0
    ensures 0 < BlocksFor(n, capacity) <= n <= BlocksFor(n, capacity) * capacity
    decreases n
  {
    hide BlocksFor;
    BlocksStep(n, capacity);
    if n > capacity {
      BlocksBounds(n - capacity, capacity);
      Distribute(1, BlocksFor(n - capacity, capacity), capacity);
    }
  }

  //
  // What the estimates reserve
  //

  /** `Decode` of the encoded list can reserve the capacity it asks for. */
  predicate Reserves(ids: seq<Uint64>, blockSize: int) {
    CanReserve(ApproxCount(BlockCount(ids, blockSize), Truncate32(blockSize)))
  }

  /** The estimate is not below the exact length exactly when the stored block size is not zero or, for sizes that
      do not fit 32 bits, when the truncated size still covers the ids. */
  lemma ExactWithinApproxIff(ids: seq<Uint64>, blockSize: int)
    requires blockSize < 0x1_0000_0000 || |ids| < 0x1_0000_0000
    requires BlockCount(ids, blockSize) * Truncate32(blockSize) < 0x8000_0000_0000_0000
    ensures var blocks := EncodedBlocks(ids, blockSize);
            TotalUids(blocks) <= ApproxCount(|blocks|, Truncate32(blockSize)) <==>
            ids == []
            || if blockSize < 0x1_0000_0000 then Truncate32(blockSize) != 0
               else |ids| <= BlockCount(ids, blockSize) * Truncate32(blockSize)
  {
    hide EncodedBlocks, BlockCount, Truncate32, ApproxCount, Capacity;
    var count, stored := BlockCount(ids, blockSize), Truncate32(blockSize);
    EncodedLength(ids, blockSize);
    SplitCount(ids, blockSize);
    CountBounds(ids, blockSize);
    ApproxIsProduct(count, stored);
    if blockSize < 0x1_0000_0000 {
      if stored != 0 {
        StoredCovers(blockSize);
      }
      Covers(|ids|, count, Capacity(blockSize), stored);
    }
  }

  lemma ApproxIsProduct(count: nat, stored: Uint32)
    requires count * stored < 0x8000_0000_0000_0000
    ensures ApproxCount(count, stored) == count * stored
  {
  }

  lemma Covers(n: nat, count: nat, capacity: nat, stored: nat)
    requires n <= count * capacity
    ensures stored >= capacity ==> n <= count * stored
    ensures stored == 0 ==> (n <= count * stored <==> n == 0)
  {
    if stored >= capacity {
      TimesMonotone(capacity, stored, count);
    }
  }

  lemma StoredCovers(blockSize: int)
    requires blockSize < 0x1_0000_0000 && Truncate32(blockSize) != 0
    ensures Capacity(blockSize) <= Truncate32(blockSize)
  {
  }

  /** The reservation succeeds exactly when the low 64 bits of blocks times stored size are within the limit, and so
      whenever ids times stored size is. */
  lemma ReservesIff(ids: seq<Uint64>, blockSize: int)
    ensures Reserves(ids, blockSize) <==>
            (BlockCount(ids, blockSize) * Truncate32(blockSize)) % 0x1_0000_0000_0000_0000 <= 0x2000_0000_0000
    ensures |ids| * Truncate32(blockSize) <= 0x2000_0000_0000 ==> Reserves(ids, blockSize)
  {
    hide BlockCount, Truncate32, ToInt64, CanReserve, Capacity;
    var count, stored := BlockCount(ids, blockSize), Truncate32(blockSize);
    CountBounds(ids, blockSize);
    TimesMonotone(count, |ids|, stored);
    WrappedIff(count * stored);
  }

  lemma WrappedIff(product: nat)
    ensures CanReserve(ToInt64(product)) <==> product % 0x1_0000_0000_0000_0000 <= MAX_RESERVED
    ensures product <= MAX_RESERVED ==> CanReserve(ToInt64(product))
  {
  }

  /** Ids whose upper 32 bits change at every step. */
  predicate Scattered(ids: seq<Uint64>) {
    forall i :: 0 <= i < |ids| - 1 ==> !Match32Msb(ids[i], ids[i + 1])
  }

  lemma {:induction false} ScatteredCount(ids: seq<Uint64>, blockSize: int)
    requires Scattered(ids)
    ensures BlockCount(ids, blockSize) == |ids|
    decreases |ids|
  {
    hide Match32Msb, Capacity, BlocksFor;
    if ids != [] {
      CapacityPositive(blockSize);
      BlocksStep(1, Capacity(blockSize));
      assert |ids| > 1 ==> !Match32Msb(ids[0], ids[0 + 1]);
      ScatteredCount(ids[1..], blockSize);
    }
  }

  /** A block takes five to 17 bytes for each group of four deltas, and never less than one group. */
  lemma EncodedBlockSize(c: Chunk)
    ensures var g := if |c| == 1 then 1 else (|c| + 2) / 4; 5 * g <= |PackedBlock(c).deltas| <= 17 * g
  {
    hide Groups, Deltas;
    GroupsSize(Deltas(c[0], c[1..]));
  }
}
