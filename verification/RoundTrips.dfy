/** What the codec promises: exactly when decoding gives the ids back, and that seeking is filtering. */
module RoundTrips {
  import opened Machine
  import opened UidPacks
  import opened Encoders
  import opened Decoders
  import opened Codec
  import opened Sizes

  ghost predicate AllFaithful(chunks: seq<Chunk>) {
    forall i :: 0 <= i < |chunks| ==> Faithful(chunks[i])
  }

  ghost predicate AllSameHigh(chunks: seq<Chunk>) {
    forall i :: 0 <= i < |chunks| ==> SameHigh(chunks[i])
  }

  lemma FlatFrom(chunks: seq<Chunk>, i: nat)
    requires i < |chunks|
    ensures Flat(chunks[i..]) == chunks[i] + Flat(chunks[i + 1..])
  {
    FlatHead(chunks[i..]);
    assert chunks[i..][1..] == chunks[i + 1..];
  }

  lemma {:induction false} DrainRestores(chunks: seq<Chunk>, i: nat)
    requires AllSameHigh(chunks) && AllFaithful(chunks) && i <= |chunks|
    ensures Drain(Packed(chunks), i) == Flat(chunks[i..])
    decreases |chunks| - i
  {
    hide PackedBlock, BlockUids, Flat, SameHigh, Faithful, Unpackable;
    if i < |chunks| {
      DrainRestores(chunks, i + 1);
      FlatFrom(chunks, i);
      BlockRoundTripIff(chunks[i]);
    } else {
      NothingLeft(chunks);
    }
  }

  lemma NothingLeft(chunks: seq<Chunk>)
    ensures Flat(chunks[|chunks|..]) == []
  {
  }

  lemma UnpackedLength(c: Chunk)
    ensures |BlockUids(PackedBlock(c))| <= |c|
  {
    hide Groups, Deltas, Sums, Ungroup;
    assert PackedBlock(c).numUids == Truncate32(|c|);
  }

  lemma {:induction false} DrainNoLonger(chunks: seq<Chunk>, i: nat)
    requires i <= |chunks|
    ensures |Drain(Packed(chunks), i)| <= |Flat(chunks[i..])|
    decreases |chunks| - i
  {
    hide PackedBlock, BlockUids, Flat;
    if i < |chunks| {
      DrainNoLonger(chunks, i + 1);
      FlatFrom(chunks, i);
      UnpackedLength(chunks[i]);
    }
  }

  lemma {:induction false} RestoredChunks(chunks: seq<Chunk>, i: nat)
    requires i <= |chunks| && AllSameHigh(chunks) && AllUnpackable(Packed(chunks))
    requires Drain(Packed(chunks), i) == Flat(chunks[i..])
    ensures forall k :: i <= k < |chunks| ==> Faithful(chunks[k])
    decreases |chunks| - i
  {
    hide PackedBlock, BlockUids, Flat, SameHigh, Faithful, Unpackable;
    if i < |chunks| {
      FlatFrom(chunks, i);
      UnpackedLength(chunks[i]);
      DrainNoLonger(chunks, i + 1);
      var us: seq<Uint64>, c: seq<Uint64> := BlockUids(Packed(chunks)[i]), chunks[i];
      var d: seq<Uint64>, f: seq<Uint64> := Drain(Packed(chunks), i + 1), Flat(chunks[i + 1..]);
      assert us != [] && us + d == c + f;
      assert us == (us + d)[..|us|] && c == (c + f)[..|c|] && d == (us + d)[|us|..] && f == (c + f)[|c|..];
      BlockRoundTripIff(chunks[i]);
      RestoredChunks(chunks, i + 1);
    }
  }

  lemma SplitShape(ids: seq<Uint64>, blockSize: int)
    ensures AllSameHigh(Split(ids, blockSize)) && Flat(Split(ids, blockSize)) == ids
    ensures forall i :: 0 <= i < |Split(ids, blockSize)| ==> |Split(ids, blockSize)[i]| <= Capacity(blockSize)
  {
    hide Split, Flat, SameHigh;
    SplitCharacterised(ids, blockSize, Split(ids, blockSize));
    forall i | 0 <= i < |Split(ids, blockSize)|
      ensures SameHigh(Split(ids, blockSize)[i]) && |Split(ids, blockSize)[i]| <= Capacity(blockSize)
    {
      assert ChunkShape(Split(ids, blockSize)[i], blockSize);
    }
  }

  /** `Decode` after `Encode` returns, and returns the list itself, exactly when no block's ids decrease, no block
      holds more ids than the decoder's 32-bit length test can reach, and the slice reserved for the result, one
      stored block size for every block, is not too long. Borders between blocks are free. */
  lemma RoundTripIff(ids: seq<Uint64>, blockSize: int)
    ensures var blocks := EncodedBlocks(ids, blockSize);
            Decodable(blocks, Truncate32(blockSize)) && Drain(blocks, 0) == ids <==>
            AllFaithful(Split(ids, blockSize)) && Reserves(ids, blockSize)
  {
    hide Split, Packed, Flat, Drain, Faithful, Unpackable, SameHigh, BlockCount, CanReserve;
    BlocksRestoreIff(ids, blockSize);
    SplitCount(ids, blockSize);
  }

  lemma BlocksRestoreIff(ids: seq<Uint64>, blockSize: int)
    ensures var blocks := EncodedBlocks(ids, blockSize);
            AllUnpackable(blocks) && Drain(blocks, 0) == ids <==> AllFaithful(Split(ids, blockSize))
  {
    hide Split, Packed, Flat, Drain, Faithful, Unpackable, SameHigh;
    var chunks := Split(ids, blockSize);
    SplitShape(ids, blockSize);
    assert chunks[0..] == chunks;
    if AllFaithful(chunks) {
      DrainRestores(chunks, 0);
      FaithfulUnpackable(chunks);
    }
    if AllUnpackable(Packed(chunks)) && Drain(Packed(chunks), 0) == ids {
      RestoredChunks(chunks, 0);
    }
  }

  lemma FaithfulUnpackable(chunks: seq<Chunk>)
    requires AllSameHigh(chunks) && AllFaithful(chunks)
    ensures AllUnpackable(Packed(chunks))
    ensures forall i :: 0 <= i < |chunks| ==> BlockUids(Packed(chunks)[i]) == chunks[i]
  {
    hide PackedBlock, BlockUids, SameHigh, Faithful, Unpackable;
    forall i | 0 <= i < |chunks|
      ensures Unpackable(Packed(chunks)[i]) && BlockUids(Packed(chunks)[i]) == chunks[i]
    {
      BlockRoundTripIff(chunks[i]);
    }
  }

  //
  // Inputs on which every block is faithful
  //

  /** Neighbours with equal upper 32 bits do not decrease; others may. */
  predicate NeighboursOrdered(ids: seq<Uint64>) {
    forall i :: 0 <= i < |ids| - 1 && Match32Msb(ids[i], ids[i + 1]) ==> ids[i] <= ids[i + 1]
  }

  /** No block can outgrow the decoder: blocks are small, or there are not that many ids. */
  predicate Fits(ids: seq<Uint64>, blockSize: int) {
    blockSize <= MAX_BLOCK_UIDS || |ids| <= MAX_BLOCK_UIDS
  }

  lemma {:induction false} OrderedNeighbours(c: seq<Uint64>, i: nat, j: nat)
    requires NeighboursOrdered(c) && SameHigh(c) && i < j < |c|
    ensures c[i] <= c[j]
    decreases j - i
  {
    hide Match32Msb;
    assert Match32Msb(c[j - 1], c[j - 1 + 1]);
    if i < j - 1 {
      OrderedNeighbours(c, i, j - 1);
    }
  }

  lemma SliceOrdered(ids: seq<Uint64>, from: nat, to: nat)
    requires NeighboursOrdered(ids) && from <= to <= |ids|
    ensures NeighboursOrdered(ids[from..to])
  {
    hide Match32Msb;
    var s := ids[from..to];
    forall i | 0 <= i < |s| - 1 && Match32Msb(s[i], s[i + 1])
      ensures s[i] <= s[i + 1]
    {
      assert Match32Msb(ids[from + i], ids[from + i + 1]);
    }
  }

  lemma {:induction false} OrderedChunks(chunks: seq<Chunk>)
    requires AllSameHigh(chunks) && NeighboursOrdered(Flat(chunks))
    ensures forall i :: 0 <= i < |chunks| ==> NonDecreasing(chunks[i]) && |chunks[i]| <= |Flat(chunks)|
    decreases |chunks|
  {
    hide Match32Msb, SameHigh, Flat, NeighboursOrdered;
    if chunks != [] {
      FlatHead(chunks);
      var all: seq<Uint64>, c: seq<Uint64>, rest := Flat(chunks), chunks[0], chunks[1..];
      SliceOrdered(all, 0, |c|);
      SliceOrdered(all, |c|, |all|);
      assert c == all[0..|c|] && Flat(rest) == all[|c|..|all|];
      forall i, j | 0 <= i < j < |c|
        ensures c[i] <= c[j]
      {
        OrderedNeighbours(c, i, j);
      }
      OrderedChunks(rest);
      assert forall i :: 0 < i < |chunks| ==> chunks[i] == rest[i - 1];
    }
  }

  lemma OrderedFaithful(ids: seq<Uint64>, blockSize: int)
    requires NeighboursOrdered(ids) && Fits(ids, blockSize)
    ensures AllFaithful(Split(ids, blockSize))
  {
    hide Split, Flat, SameHigh, NonDecreasing, NeighboursOrdered;
    SplitShape(ids, blockSize);
    OrderedChunks(Split(ids, blockSize));
  }

  /** The promised round trip: the blocks give the list back, and only the reservation can still fail. */
  lemma RoundTrip(ids: seq<Uint64>, blockSize: int)
    requires NeighboursOrdered(ids) && Fits(ids, blockSize)
    ensures AllUnpackable(EncodedBlocks(ids, blockSize)) && Drain(EncodedBlocks(ids, blockSize), 0) == ids
    ensures Decodable(EncodedBlocks(ids, blockSize), Truncate32(blockSize)) <==> Reserves(ids, blockSize)
  {
    hide Split, Packed, Drain, Unpackable, NeighboursOrdered, BlockCount, CanReserve;
    OrderedFaithful(ids, blockSize);
    BlocksRestoreIff(ids, blockSize);
    SplitCount(ids, blockSize);
  }

  method EncodeThenDecode(ids: seq<Uint64>, blockSize: int) returns (out: seq<Uint64>)
    requires NeighboursOrdered(ids) && Fits(ids, blockSize) && Reserves(ids, blockSize)
    ensures out == ids
  {
    hide EncodedBlocks, Decodable, Drain, NeighboursOrdered, Fits, Reserves;
    RoundTrip(ids, blockSize);
    var pack := Encode(ids, blockSize);
    out := Decode(pack, 0);
  }

  /** `n` ids that each start a new range of the upper 32 bits. */
  function HighSteps(n: nat): (ids: seq<Uint64>)
    requires n < 0x1_0000_0000
    ensures |ids| == n && Scattered(ids)
  {
    seq(n, i requires 0 <= i < n => (i + 1) * 0x1_0000_0000)
  }

  /** Lists every block of which is faithful, and for which `Decode` still panics, because a block of one id
      reserves a whole block size: a large size, and a negative one, which is stored as a large one. */
  lemma ReservationFails()
    ensures var ids := HighSteps(16385);
            AllFaithful(Split(ids, 0x8000_0000))
            && !Decodable(EncodedBlocks(ids, 0x8000_0000), Truncate32(0x8000_0000))
    ensures var ids := HighSteps(8193);
            AllFaithful(Split(ids, -1)) && !Decodable(EncodedBlocks(ids, -1), Truncate32(-1))
  {
    hide EncodedBlocks, AllFaithful, Split, Decodable, HighSteps, Scattered, CanReserve, ApproxCount, Truncate32;
    TooMuch();
    ScatteredFails(HighSteps(16385), 0x8000_0000);
    ScatteredFails(HighSteps(8193), -1);
  }

  lemma TooMuch()
    ensures !CanReserve(ApproxCount(16385, Truncate32(0x8000_0000))) && !CanReserve(ApproxCount(8193, Truncate32(-1)))
  {
  }

  lemma ScatteredFails(ids: seq<Uint64>, blockSize: int)
    requires Scattered(ids) && |ids| <= MAX_BLOCK_UIDS
    ensures AllFaithful(Split(ids, blockSize))
    ensures Decodable(EncodedBlocks(ids, blockSize), Truncate32(blockSize)) <==>
            CanReserve(ApproxCount(|ids|, Truncate32(blockSize)))
  {
    hide Split, Packed, Drain, Unpackable, BlockCount, CanReserve, ApproxCount, Match32Msb;
    OrderedFaithful(ids, blockSize);
    RoundTrip(ids, blockSize);
    ScatteredCount(ids, blockSize);
  }

  /** At any point between `Add` and `Done` calls, however interleaved, the pack built so far decodes to a list
      that, followed by the ids still pending, is everything added. */
  lemma PackAndPending(ops: seq<Operation>, blockSize: int)
    requires NeighboursOrdered(AddedIds(ops)) && Fits(AddedIds(ops), blockSize)
    ensures var p := RunOps(blockSize, ops);
            AllUnpackable(Packed(p.chunks)) && Drain(Packed(p.chunks), 0) + p.pending == AddedIds(ops)
  {
    hide RunOps, AddedIds, Flat, SameHigh, Packed, Drain, Unpackable, NeighboursOrdered, NonDecreasing;
    var p, ids := RunOps(blockSize, ops), AddedIds(ops);
    OperationsKeepIds(blockSize, ops);
    SliceOrdered(ids, 0, |Flat(p.chunks)|);
    assert ids[0..|Flat(p.chunks)|] == Flat(p.chunks);
    OrderedChunks(p.chunks);
    forall i | 0 <= i < |p.chunks|
      ensures SameHigh(p.chunks[i]) && Faithful(p.chunks[i])
    {
      assert ChunkShape(p.chunks[i], blockSize);
    }
    FaithfulUnpackable(p.chunks);
    DrainRestores(p.chunks, 0);
    assert p.chunks[0..] == p.chunks;
  }

  //
  // Seeking in encoded lists
  //

  lemma SortedNeighbours(ids: seq<Uint64>)
    requires NonDecreasing(ids)
    ensures NeighboursOrdered(ids)
  {
    hide Match32Msb;
  }

  lemma {:induction false} ChunkOffsets(chunks: seq<Chunk>, i: nat, j: nat)
    requires NonDecreasing(Flat(chunks)) && i < j < |chunks|
    ensures chunks[i][|chunks[i]| - 1] <= chunks[j][0]
    decreases j
  {
    hide Flat;
    FlatHead(chunks);
    var all, c, rest := Flat(chunks), chunks[0], chunks[1..];
    assert NonDecreasing(Flat(rest)) by {
      assert Flat(rest) == all[|c|..];
    }
    if i > 0 {
      ChunkOffsets(rest, i - 1, j - 1);
    } else {
      FirstOf(rest, j - 1);
      var k :| 0 <= k < |Flat(rest)| && Flat(rest)[k] == rest[j - 1][0];
      assert all[|c| - 1] == c[|c| - 1] && all[|c| + k] == chunks[j][0];
    }
  }

  /** The first id of any chunk is somewhere in the joined list. */
  lemma {:induction false} FirstOf(chunks: seq<Chunk>, j: nat)
    requires j < |chunks|
    ensures exists k :: 0 <= k < |Flat(chunks)| && Flat(chunks)[k] == chunks[j][0]
    decreases j
  {
    hide Flat;
    FlatHead(chunks);
    if j == 0 {
      assert Flat(chunks)[0] == chunks[0][0];
    } else {
      FirstOf(chunks[1..], j - 1);
      var k :| 0 <= k < |Flat(chunks[1..])| && Flat(chunks[1..])[k] == chunks[j][0];
      assert Flat(chunks)[|chunks[0]| + k] == chunks[j][0];
    }
  }

  lemma EncodedOrdered(ids: seq<Uint64>, blockSize: int)
    requires NonDecreasing(ids) && Fits(ids, blockSize)
    ensures Ordered(EncodedBlocks(ids, blockSize)) && Drain(EncodedBlocks(ids, blockSize), 0) == ids
    ensures var chunks := Split(ids, blockSize);
            forall i :: 0 <= i < |chunks| ==> BlockUids(EncodedBlocks(ids, blockSize)[i]) == chunks[i]
  {
    hide Split, PackedBlock, BlockUids, Drain, SameHigh, Unpackable, NeighboursOrdered, Flat;
    var chunks, blocks := Split(ids, blockSize), EncodedBlocks(ids, blockSize);
    SortedNeighbours(ids);
    RoundTrip(ids, blockSize);
    OrderedFaithful(ids, blockSize);
    SplitShape(ids, blockSize);
    FaithfulUnpackable(chunks);
    forall i | 0 <= i < |chunks|
      ensures OrderedBlock(blocks[i]) && blocks[i].base == chunks[i][0]
      ensures LastUid(blocks[i]) == chunks[i][|chunks[i]| - 1]
    {
      assert BlockUids(blocks[i]) == chunks[i] && Faithful(chunks[i]);
      FirstUid(blocks[i]);
    }
    forall i, j | 0 <= i < j < |chunks|
      ensures LastUid(blocks[i]) <= blocks[j].base
    {
      ChunkOffsets(chunks, i, j);
    }
  }

  predicate StrictlyIncreasing(ids: seq<Uint64>) {
    forall i, j :: 0 <= i < j < |ids| ==> ids[i] < ids[j]
  }

  lemma StrictHasNoSplit(ids: seq<Uint64>, blockSize: int, uid: Uint64)
    requires StrictlyIncreasing(ids) && Fits(ids, blockSize)
    ensures !SplitDuplicate(EncodedBlocks(ids, blockSize), uid)
  {
    hide Split, PackedBlock, BlockUids, Drain, Unpackable, Flat;
    var chunks, blocks := Split(ids, blockSize), EncodedBlocks(ids, blockSize);
    EncodedOrdered(ids, blockSize);
    SplitShape(ids, blockSize);
    forall b: nat | SplitAt(blocks, uid, b)
      ensures false
    {
      FirstUid(blocks[b]);
      StrictOffsets(chunks, b - 1);
    }
  }

  lemma {:induction false} StrictOffsets(chunks: seq<Chunk>, i: nat)
    requires StrictlyIncreasing(Flat(chunks)) && i + 1 < |chunks|
    ensures chunks[i][|chunks[i]| - 1] < chunks[i + 1][0]
    decreases i
  {
    hide Flat;
    FlatHead(chunks);
    var all, c, rest := Flat(chunks), chunks[0], chunks[1..];
    if i > 0 {
      assert Flat(rest) == all[|c|..];
      StrictOffsets(rest, i - 1);
    } else {
      FlatHead(rest);
      assert all[|c| - 1] == c[|c| - 1] && all[|c|] == rest[0][0];
    }
  }

  /** On strictly increasing ids the two binary searches and the step to the next block together are a plain
      filter. */
  lemma DecodeIsFilter(ids: seq<Uint64>, blockSize: int, seek: Uint64)
    requires StrictlyIncreasing(ids) && Fits(ids, blockSize)
    ensures SeekRest(EncodedBlocks(ids, blockSize), seek, SeekStart) == Keep(ids, seek, SeekStart)
    ensures Decodable(EncodedBlocks(ids, blockSize), Truncate32(blockSize)) <==> Reserves(ids, blockSize)
  {
    hide Split, Packed, Drain, Keep, Ordered, SplitDuplicate, RestAt, SeekBlock, Reserves;
    StrictSorted(ids);
    SortedNeighbours(ids);
    RoundTrip(ids, blockSize);
    EncodedOrdered(ids, blockSize);
    StrictHasNoSplit(ids, blockSize, seek);
    if seek == 0 {
      KeepAll(ids, 0, SeekStart);
    } else {
      SeekRestFinds(EncodedBlocks(ids, blockSize), seek, SeekStart);
    }
  }

  lemma StrictSorted(ids: seq<Uint64>)
    requires StrictlyIncreasing(ids)
    ensures NonDecreasing(ids)
  {
  }

  method EncodeThenSeek(ids: seq<Uint64>, blockSize: int, seek: Uint64) returns (out: seq<Uint64>)
    requires StrictlyIncreasing(ids) && Fits(ids, blockSize) && Reserves(ids, blockSize)
    ensures out == Keep(ids, seek, SeekStart)
    ensures forall x :: x in out <==> x in ids && x >= seek
    ensures forall i, j :: 0 <= i < j < |out| ==> out[i] < out[j]
  {
    hide EncodedBlocks, Decodable, SeekRest, Fits, Reserves, Keep;
    KeepStrict(ids, seek, SeekStart);
    DecodeIsFilter(ids, blockSize, seek);
    var pack := Encode(ids, blockSize);
    out := Decode(pack, seek);
    if pack == null {
      KeepEmpty(seek, SeekStart);
    }
  }

  lemma {:induction false} KeepStrict(ids: seq<Uint64>, uid: Uint64, whence: SeekPos)
    requires StrictlyIncreasing(ids)
    ensures StrictlyIncreasing(Keep(ids, uid, whence))
    ensures forall x :: x in Keep(ids, uid, whence) <==> x in ids && (x > uid || (x == uid && whence.SeekStart?))
  {
    hide Keep;
    if ids == [] {
      KeepEmpty(uid, whence);
    } else {
      KeepStrict(ids[1..], uid, whence);
      KeepHead(ids, uid, whence);
      assert ids == [ids[0]] + ids[1..];
      var tail := Keep(ids[1..], uid, whence);
      forall i | 0 <= i < |tail|
        ensures ids[0] < tail[i]
      {
        assert tail[i] in tail && tail[i] in ids[1..];
      }
    }
  }

  /** With duplicates, `SeekStart` is the filter exactly when `seek` does not both end a block that starts below
      it and start the next one. */
  lemma SeekStartIsFilterIff(ids: seq<Uint64>, blockSize: int, seek: Uint64)
    requires NonDecreasing(ids) && Fits(ids, blockSize) && seek != 0
    ensures var chunks := Split(ids, blockSize);
            SeekRest(EncodedBlocks(ids, blockSize), seek, SeekStart) == Keep(ids, seek, SeekStart) <==>
            forall b :: 0 < b < |chunks| ==>
              !(chunks[b - 1][0] < seek == chunks[b][0] == chunks[b - 1][|chunks[b - 1]| - 1])
    ensures Decodable(EncodedBlocks(ids, blockSize), Truncate32(blockSize)) <==> Reserves(ids, blockSize)
  {
    hide Split, PackedBlock, BlockUids, Drain, Keep, Ordered, SeekRest, Decodable, Reserves;
    var chunks, blocks := Split(ids, blockSize), EncodedBlocks(ids, blockSize);
    SortedNeighbours(ids);
    RoundTrip(ids, blockSize);
    EncodedOrdered(ids, blockSize);
    SeekRestFinds(blocks, seek, SeekStart);
    forall b | 0 < b < |chunks|
      ensures SplitAt(blocks, seek, b) <==>
              chunks[b - 1][0] < seek == chunks[b][0] == chunks[b - 1][|chunks[b - 1]| - 1]
    {
      assert BlockUids(blocks[b]) == chunks[b] && BlockUids(blocks[b - 1]) == chunks[b - 1];
      FirstUid(blocks[b]);
      FirstUid(blocks[b - 1]);
    }
  }

  /** `SeekCurrent` gives the ids after `uid`, duplicates across blocks included; for a zero `uid` it gives
      everything, which is right exactly when zero is not among the ids. */
  lemma SeekCurrentIsFilterIff(ids: seq<Uint64>, blockSize: int, uid: Uint64)
    requires NonDecreasing(ids) && Fits(ids, blockSize)
    ensures SeekRest(EncodedBlocks(ids, blockSize), uid, SeekCurrent) == Keep(ids, uid, SeekCurrent) <==>
            uid != 0 || 0 !in ids
  {
    hide Split, Packed, Drain, Keep, Ordered, SplitDuplicate, RestAt, SeekBlock;
    EncodedOrdered(ids, blockSize);
    if uid == 0 {
      if 0 in ids {
        KeepDrops(ids, 0);
      } else {
        KeepAll(ids, 0, SeekCurrent);
      }
    } else {
      SeekRestFinds(EncodedBlocks(ids, blockSize), uid, SeekCurrent);
    }
  }

  lemma {:induction false} KeepDrops(s: seq<Uint64>, x: Uint64)
    ensures x !in Keep(s, x, SeekCurrent)
  {
    if s != [] {
      KeepDrops(s[1..], x);
    }
  }

  //
  // Re-encoding through a varint buffer
  //

  /** Writing a pack to a buffer and encoding the buffer again: the new blocks are those of the ids read, and they
      decode to the same ids exactly when the new list meets the conditions of `RoundTripIff`. The old borders do
      not matter. */
  lemma RecodeIff(blocks: seq<UidBlock>, blockSize: int)
    ensures var ids := Drain(blocks, 0);
            var buf := DeltaVarints(0, ids);
            WellFormed(buf)
            && (var again := EncodedBlocks(ReadIds(0, buf), blockSize);
                Decodable(again, Truncate32(blockSize)) && Drain(again, 0) == ids <==>
                AllFaithful(Split(ids, blockSize)) && Reserves(ids, blockSize))
  {
    hide Drain, Split, Packed, Faithful, Unpackable, WellFormed, ReadIds, DeltaVarints, BlockCount, CanReserve;
    ReadInvertsDeltas(0, Drain(blocks, 0));
    RoundTripIff(Drain(blocks, 0), blockSize);
  }

  method Recode(pack: UidPack?, blockSize: int) returns (again: UidPack?)
    requires pack != null ==> AllUnpackable(pack.blocks)
    ensures again == null <==> pack == null || Drain(pack.blocks, 0) == []
    ensures again != null ==> fresh(again) && again.blockSize == Truncate32(blockSize)
                              && again.blocks == EncodedBlocks(Drain(pack.blocks, 0), blockSize)
  {
    hide Drain, EncodedBlocks, AllUnpackable, WellFormed, DeltaVarints, RestAt, SeekBlock;
    ghost var ids := if pack == null then [] else Drain(pack.blocks, 0);
    NoDeltas();
    ReadInvertsDeltas(0, ids);
    var buf := DecodeToBuffer(pack, 0);
    again := EncodeFromBuffer(buf, blockSize);
  }

  /** A pack whose ids drop at a block border re-encodes faithfully with one id a block but not with two. */
  lemma RecodeLosesDrop()
    ensures Drain(EncodedBlocks([5, 3], 1), 0) == [5, 3]
    ensures AllFaithful(Split([5, 3], 1)) && !AllFaithful(Split([5, 3], 2))
  {
    hide Drain, Packed, Split;
    SplitsOfDrop();
    var both: Chunk := [5, 3];
    assert Split([5, 3], 2)[0] == both && both[0] > both[1];
    BlocksRestoreIff([5, 3], 1);
  }

  lemma SplitsOfDrop()
    ensures Split([5, 3], 1) == [[5], [3]] && Split([5, 3], 2) == [[5, 3]]
  {
    hide AddAll;
    var one: Chunk, two: Chunk, both: Chunk := [5], [3], [5, 3];
    AddAllSnoc(1, [], 5);
    AddAllSnoc(2, [], 5);
    AddAllSnoc(1, [5], 3);
    AddAllSnoc(2, [5], 3);
    assert [] + one == one && one + two == both;
    assert AddAll(1, one) == Progress([one], []) && AddAll(2, one) == Progress([], one);
    assert AddAll(1, one + two) == AddStep(1, Progress([one], []), 3) == Progress([one] + [two], []) by {
      assert [] + two == two;
    }
    assert AddAll(2, one + two) == AddStep(2, Progress([], one), 3) == Progress([both], []) by {
      assert [] + [both] == [both];
    }
  }
}
