/** Whole-list encoding and decoding, to packs and to varint buffers, and what each round trip gives back. */
module Codec {
  import opened Machine
  import opened UidPacks
  import opened Encoders
  import opened Decoders
  import opened Uvarint

  /** The blocks that `Encode` makes of `ids`. */
  function EncodedBlocks(ids: seq<Uint64>, blockSize: int): seq<UidBlock> {
    Packed(Split(ids, blockSize))
  }

  method Encode(uids: seq<Uint64>, blockSize: int) returns (pack: UidPack?)
    ensures pack == null <==> uids == []
    ensures pack != null ==> fresh(pack) && pack.blockSize == Truncate32(blockSize)
    ensures pack != null ==> pack.blocks == EncodedBlocks(uids, blockSize)
    ensures CutAt(Split(uids, blockSize), uids, blockSize)
  {
    hide Packed, AddStep, Encoder.Valid, CutAt;
    SplitIsCut(uids, blockSize, Split(uids, blockSize));
    var enc := new Encoder(blockSize);
    for i := 0 to |uids|
      invariant fresh(enc) && enc.Valid() && enc.blockSize == blockSize
      invariant enc.State() == AddAll(blockSize, uids[..i])
      invariant if i == 0 then enc.pack == null else enc.pack != null && fresh(enc.pack)
    {
      assert uids[..i + 1][..i] == uids[..i];
      enc.Add(uids[i]);
    }
    assert uids[..|uids|] == uids;
    pack := enc.Done();
  }

  /** The most 64-bit numbers a Go slice may reserve: those in the 2^48 bytes that linux/amd64 addresses. */
  const MAX_RESERVED: nat := 0x2000_0000_0000

  /** `make` panics for a capacity outside this range. */
  predicate CanReserve(capacity: int) {
    0 <= capacity <= MAX_RESERVED
  }

  method MakeUids(capacity: int) returns (uids: seq<Uint64>)
    requires CanReserve(capacity)
    ensures uids == []
  {
    uids := [];
  }

  function ApproxCount(count: nat, storedSize: Uint32): int {
    ToInt64(count * storedSize)
  }

  /** The capacity `Decode` asks for, whatever the blocks hold. */
  function ApproxLen(pack: UidPack?): int
    reads pack
  {
    if pack == null then 0 else ApproxCount(|pack.blocks|, pack.blockSize)
  }

  /** `Decode` returns, instead of panicking on its reservation or looping in a block. */
  predicate Decodable(blocks: seq<UidBlock>, storedSize: Uint32) {
    AllUnpackable(blocks) && CanReserve(ApproxCount(|blocks|, storedSize))
  }

  method Decode(pack: UidPack?, seek: Uint64) returns (out: seq<Uint64>)
    requires pack != null ==> Decodable(pack.blocks, pack.blockSize)
    ensures out == if pack == null then [] else SeekRest(pack.blocks, seek, SeekStart)
  {
    hide BlockUidsAt, SeekRest, AllUnpackable, Drain, ApproxCount, Decoder.Remaining;
    out := MakeUids(ApproxLen(pack));
    hide Decodable, ApproxLen;
    var dec := new Decoder(pack);
    var uids := dec.Seek(seek, SeekStart);
    if pack == null {
      return;
    }
    ghost var all := dec.Remaining();
    while |uids| > 0
      invariant fresh(dec) && uids == dec.uids && out + dec.Remaining() == all
      invariant uids == [] ==> dec.Remaining() == []
      invariant uids != [] ==> dec.blockIdx < |pack.blocks|
      decreases |pack.blocks| - dec.blockIdx
    {
      out := out + uids;
      uids := dec.Next();
    }
    assert out == all;
  }

  //
  // Varint buffers: each id as its difference, modulo 2^64, from the one before
  //

  function DeltaVarints(last: Uint64, ids: seq<Uint64>): seq<Byte> {
    if ids == [] then [] else
      var n := |ids| - 1;
      DeltaVarints(last, ids[..n]) + UvarintBytes(Sub64(ids[n], ([last] + ids)[n]))
  }

  /** Every varint in the buffer is complete and fits 64 bits. On any other buffer the read loop of
      `EncodeFromBuffer` stops making progress or cuts the buffer at a negative offset. */
  predicate WellFormed(buf: seq<Byte>)
    decreases |buf|
  {
    buf == [] || (Parse(buf, 0).1 > 0 && WellFormed(buf[Parse(buf, 0).1..]))
  }

  function ReadIds(prev: Uint64, buf: seq<Byte>): (ids: seq<Uint64>)
    requires WellFormed(buf)
    ensures ids == [] <==> buf == []
    decreases |buf|
  {
    if buf == [] then [] else
      var (delta, n) := Parse(buf, 0);
      ParseBound(buf, 0);
      var next := Add64(prev, delta);
      [next] + ReadIds(next, buf[n..])
  }

  lemma ReadStep(prev: Uint64, buf: seq<Byte>)
    requires WellFormed(buf) && buf != []
    ensures var (delta, n) := Parse(buf, 0);
            && 0 < n <= |buf| && WellFormed(buf[n..]) && delta <= MAX_UINT64
            && ReadIds(prev, buf) == [Add64(prev, delta)] + ReadIds(Add64(prev, delta), buf[n..])
  {
    hide Parse;
    ParseBound(buf, 0);
  }

  lemma {:induction false} DeltaVarintsHead(last: Uint64, ids: seq<Uint64>)
    requires ids != []
    ensures DeltaVarints(last, ids) == UvarintBytes(Sub64(ids[0], last)) + DeltaVarints(ids[0], ids[1..])
    decreases |ids|
  {
    hide Sub64, UvarintBytes, DeltaVarints;
    var n := |ids| - 1;
    var init, tail := ids[..n], ids[1..];
    assert ids == init + [ids[n]];
    DeltaVarintsSnoc(last, init, ids[n]);
    if n == 0 {
      NoDeltas();
    } else {
      DeltaVarintsHead(last, init);
      assert init[1..] == tail[..n - 1] && tail == tail[..n - 1] + [ids[n]];
      DeltaVarintsSnoc(ids[0], tail[..n - 1], ids[n]);
      assert ([last] + init)[n] == ([ids[0]] + tail[..n - 1])[n - 1];
    }
  }

  lemma AddRestores(a: Uint64, b: Uint64)
    ensures Add64(a, Sub64(b, a)) == b
  {
  }

  /** Reading back what was written gives the ids in their order, rising or falling: the wrap-around cancels. */
  lemma {:induction false} ReadInvertsDeltas(last: Uint64, ids: seq<Uint64>)
    ensures WellFormed(DeltaVarints(last, ids)) && ReadIds(last, DeltaVarints(last, ids)) == ids
    decreases |ids|
  {
    hide Sub64, Add64, UvarintBytes, Parse;
    if ids != [] {
      var d, rest := Sub64(ids[0], last), DeltaVarints(ids[0], ids[1..]);
      DeltaVarintsHead(last, ids);
      UvarintRoundTrip(d, rest);
      ReadInvertsDeltas(ids[0], ids[1..]);
      assert (UvarintBytes(d) + rest)[|UvarintBytes(d)|..] == rest;
      AddRestores(last, ids[0]);
    }
  }

  method EncodeFromBuffer(buf: seq<Byte>, blockSize: int) returns (pack: UidPack?)
    requires WellFormed(buf)
    ensures pack == null <==> buf == []
    ensures pack != null ==> fresh(pack) && pack.blockSize == Truncate32(blockSize)
    ensures pack != null ==> pack.blocks == EncodedBlocks(ReadIds(0, buf), blockSize)
  {
    hide Packed, AddStep, AddAll, Parse, Add64, Encoder.Valid, WellFormed, ReadIds;
    var enc := new Encoder(blockSize);
    var prev: Uint64 := 0;
    var rest := buf;
    ghost var added: seq<Uint64> := [];
    AddAllSnoc(blockSize, [], 0);
    while |rest| > 0
      invariant WellFormed(rest) && ReadIds(0, buf) == added + ReadIds(prev, rest)
      invariant fresh(enc) && enc.Valid() && enc.blockSize == blockSize && enc.State() == AddAll(blockSize, added)
      invariant if added == [] then enc.pack == null && rest == buf else enc.pack != null && fresh(enc.pack)
      decreases |rest|
    {
      ReadStep(prev, rest);
      var uid, n := ReadUvarint(rest);
      rest := rest[n..];
      var next := Add64(prev, uid);
      enc.Add(next);
      AddAllSnoc(blockSize, added, next);
      assert added + ([next] + ReadIds(next, rest)) == added + [next] + ReadIds(next, rest);
      added := added + [next];
      prev := next;
    }
    assert added == ReadIds(0, buf);
    pack := enc.Done();
  }

  method DecodeToBuffer(pack: UidPack?, seek: Uint64) returns (buf: seq<Byte>)
    requires pack != null ==> AllUnpackable(pack.blocks)
    ensures buf == if pack == null then [] else DeltaVarints(0, SeekRest(pack.blocks, seek, SeekStart))
  {
    hide BlockUidsAt, SeekRest, AllUnpackable, Drain, DeltaVarints, Decoder.Remaining;
    NoDeltas();
    buf := [];
    ghost var ids: seq<Uint64> := [];
    var last: Uint64 := 0;
    var tmp := new Byte[16];
    var dec := new Decoder(pack);
    var uids := dec.Seek(seek, SeekStart);
    if pack == null {
      return;
    }
    ghost var all := dec.Remaining();
    while |uids| > 0
      invariant fresh(dec) && fresh(tmp) && uids == dec.uids && ids + dec.Remaining() == all
      invariant uids == [] ==> dec.Remaining() == []
      invariant uids != [] ==> dec.blockIdx < |pack.blocks|
      invariant buf == DeltaVarints(0, ids) && last == ([0] + ids)[|ids|]
      decreases |pack.blocks| - dec.blockIdx
    {
      buf, last := AppendDeltas(tmp, buf, last, uids, ids);
      ids := ids + uids;
      uids := dec.Next();
    }
    assert ids == all;
  }

  method AppendDeltas(tmp: array<Byte>, buf: seq<Byte>, before: Uint64, uids: seq<Uint64>, ghost ids: seq<Uint64>)
    returns (r: seq<Byte>, last: Uint64)
    requires tmp.Length == 16 && buf == DeltaVarints(0, ids) && before == ([0] + ids)[|ids|]
    modifies tmp
    ensures r == DeltaVarints(0, ids + uids) && last == ([0] + (ids + uids))[|ids + uids|]
  {
    hide Sub64, UvarintBytes, DeltaVarints;
    r, last := buf, before;
    ghost var done := ids;
    for j := 0 to |uids|
      invariant done == ids + uids[..j] && r == DeltaVarints(0, done) && last == ([0] + done)[|done|]
    {
      var n := PutUvarint(tmp, Sub64(uids[j], last));
      DeltaVarintsSnoc(0, done, uids[j]);
      r := r + tmp[..n];
      last := uids[j];
      done := done + [uids[j]];
    }
    assert done == ids + uids;
  }

  lemma DeltaVarintsSnoc(last: Uint64, ids: seq<Uint64>, uid: Uint64)
    ensures DeltaVarints(last, ids + [uid]) == DeltaVarints(last, ids) + UvarintBytes(Sub64(uid, ([last] + ids)[|ids|]))
  {
    hide Sub64, UvarintBytes;
    assert (ids + [uid])[..|ids|] == ids;
  }

  lemma NoDeltas()
    ensures forall last :: DeltaVarints(last, []) == []
  {
  }

  //
  // Lengths
  //

  function TotalUids(blocks: seq<UidBlock>): nat {
    if blocks == [] then 0 else TotalUids(blocks[..|blocks| - 1]) + blocks[|blocks| - 1].numUids
  }

  /** The number of ids in a pack, without unpacking it. */
  method ExactLen(pack: UidPack?) returns (num: nat)
    ensures num == if pack == null then 0 else TotalUids(pack.blocks)
  {
    num := 0;
    if pack == null || |pack.blocks| == 0 {
      return;
    }
    for i := 0 to |pack.blocks|
      invariant num == TotalUids(pack.blocks[..i])
    {
      assert pack.blocks[..i + 1][..i] == pack.blocks[..i];
      num := num + pack.blocks[i].numUids;
    }
    assert pack.blocks[..|pack.blocks|] == pack.blocks;
  }
}
