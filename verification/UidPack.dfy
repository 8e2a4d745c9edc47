/** The packed form of a list of ids: blocks, what one block stores, and what unpacking it gives back. */
module UidPacks {
  import opened Machine
  import opened GroupVarint

  /** A block is written once and only read afterwards, so it is a value; `numUids` counts the base too. */
  datatype UidBlock = UidBlock(base: Uint64, deltas: seq<Byte>, numUids: Uint32)

  class UidPack {
    var blockSize: Uint32
    var blocks: seq<UidBlock>

    constructor (blockSize: Uint32)
      ensures this.blockSize == blockSize && blocks == []
    {
      this.blockSize := blockSize;
      blocks := [];
    }
  }

  /** The pending ids that become one block. */
  type Chunk = s: seq<Uint64> | s != [] witness [0]

  predicate Match32Msb(num1: Uint64, num2: Uint64) {
    High32(num1) == High32(num2)
  }

  /** The bits compared are those above the lower 32. */
  lemma MatchIffSameQuotient(num1: Uint64, num2: Uint64)
    ensures Match32Msb(num1, num2) <==> num1 / 0x1_0000_0000 == num2 / 0x1_0000_0000
  {
  }

  predicate SameHigh(ids: seq<Uint64>) {
    forall i, j :: 0 <= i < j < |ids| ==> Match32Msb(ids[i], ids[j])
  }

  //
  // Packing: ids to 32-bit deltas, deltas to padded groups of four
  //

  function Deltas(last: Uint64, ids: seq<Uint64>): (v: seq<Uint32>)
    ensures |v| == |ids|
    ensures forall i :: 0 <= i < |ids| ==> v[i] == Truncate32(Sub64(ids[i], ([last] + ids)[i]))
  {
    if ids == [] then [] else
      var n := |ids| - 1;
      Deltas(last, ids[..n]) + [Truncate32(Sub64(ids[n], ([last] + ids)[n]))]
  }

  /** The next four values, with zeros where there are none left. */
  function NextFour(v: seq<Uint32>): (g: seq<Uint32>)
    ensures |g| == 4
    ensures forall i :: 0 <= i < 4 ==> g[i] == if i < |v| then v[i] else 0
  {
    seq(4, i => if 0 <= i < |v| then v[i] else 0)
  }

  /** The bytes of all groups; no values still give one group of zeros. */
  function Groups(v: seq<Uint32>): seq<Byte> {
    GroupBytes(NextFour(v)) + if |v| <= 4 then [] else Groups(v[4..])
  }

  function PackedBlock(ids: Chunk): UidBlock {
    UidBlock(ids[0], Groups(Deltas(ids[0], ids[1..])), Truncate32(|ids|))
  }

  function Packed(chunks: seq<Chunk>): (blocks: seq<UidBlock>)
    ensures |blocks| == |chunks|
    ensures forall i :: 0 <= i < |chunks| ==> blocks[i] == PackedBlock(chunks[i])
  {
    if chunks == [] then [] else Packed(chunks[..|chunks| - 1]) + [PackedBlock(chunks[|chunks| - 1])]
  }

  //
  // Unpacking: groups to values, values to running sums modulo 2^64
  //

  function Zeros(n: nat): (z: seq<Byte>)
    ensures |z| == n
  {
    seq(n, _ => 0)
  }

  /** The window handed to the group decoder: the data itself, or a zero-padded copy when it is short. */
  function Padded(data: seq<Byte>): (w: seq<Byte>)
    ensures |w| >= 17
  {
    if |data| < 17 then data + Zeros(17 - |data|) else data
  }

  /** The first `n` values in `data`, however long `data` is. */
  function Ungroup(data: seq<Byte>, n: nat): (v: seq<Uint32>)
    ensures |v| == n
    decreases n
  {
    if n == 0 then [] else
      var w := Padded(data);
      if n <= 4 then GroupValues(w)[..n] else GroupValues(w) + Ungroup(w[BytesUsed(w[0])..], n - 4)
  }

  function Sums(last: Uint64, v: seq<Uint32>): (r: seq<Uint64>)
    ensures |r| == |v|
  {
    if v == [] then [] else
      var n := |v| - 1;
      var init := Sums(last, v[..n]);
      init + [Add64(([last] + init)[n], v[n])]
  }

  function BlockUids(b: UidBlock): (r: seq<Uint64>)
    ensures |r| == b.numUids
  {
    if b.numUids == 0 then [] else [b.base] + Sums(b.base, Ungroup(b.deltas, b.numUids - 1))
  }

  const MAX_BLOCK_UIDS: nat := 0xFFFF_FFFD

  /** The unpacking loop compares a length truncated to 32 bits with `numUids`, so it ends only up to this count. */
  predicate Unpackable(b: UidBlock) {
    b.numUids <= MAX_BLOCK_UIDS
  }

  /** The guard of the unpacking loop after `k` groups: the list then holds `1 + 4 * k` ids. */
  predicate LoopContinues(numUids: Uint32, k: nat) {
    Truncate32(1 + 4 * k) < numUids
  }

  lemma UnpackTerminatesIff(b: UidBlock)
    ensures Unpackable(b) <==> exists k: nat :: !LoopContinues(b.numUids, k)
  {
    if Unpackable(b) {
      assert !LoopContinues(b.numUids, 0x3FFF_FFFF);
    } else {
      forall k: nat
        ensures LoopContinues(b.numUids, k)
      {
        assert (1 + 4 * k) % 4 == 1;
        assert Truncate32(1 + 4 * k) % 4 == 1;
      }
    }
  }

  //
  // Unpacking inverts packing
  //

  /** What a chunk must satisfy for its block to give it back: no decrease, and a count the decoder can reach. */
  predicate Faithful(c: seq<Uint64>) {
    NonDecreasing(c) && |c| <= MAX_BLOCK_UIDS
  }

  /** One round of the unpacking loop on an encoded group: padding only lengthens what follows. */
  lemma UngroupOne(v: seq<Uint32>, rest: seq<Byte>, n: nat) returns (padding: seq<Byte>)
    requires |v| == 4 && n > 0
    ensures Ungroup(GroupBytes(v) + rest, n) == if n <= 4 then v[..n] else v + Ungroup(rest + padding, n - 4)
  {
    var data := GroupBytes(v) + rest;
    padding := if |data| < 17 then Zeros(17 - |data|) else [];
    var w := Padded(data);
    assert w == GroupBytes(v) + (rest + padding);
    GroupRoundTrip(v, rest + padding);
    assert w[BytesUsed(w[0])..] == rest + padding;
  }

  /** Whatever follows the groups - the zero padding included - the values come back. */
  lemma {:induction false} UngroupInvertsGroups(v: seq<Uint32>, tail: seq<Byte>)
    ensures Ungroup(Groups(v) + tail, |v|) == v
    decreases |v|
  {
    hide GroupBytes, Ungroup, NextFour;
    if v != [] {
      var rest := if |v| <= 4 then [] else Groups(v[4..]);
      assert Groups(v) + tail == GroupBytes(NextFour(v)) + (rest + tail);
      hide Groups;
      var padding := UngroupOne(NextFour(v), rest + tail, |v|);
      if |v| <= 4 {
        assert NextFour(v)[..|v|] == v;
      } else {
        assert rest + tail + padding == rest + (tail + padding);
        UngroupInvertsGroups(v[4..], tail + padding);
        assert NextFour(v) + v[4..] == v;
      }
    }
  }

  /** A delta of two ordered ids with equal upper halves fits 32 bits. */
  lemma DeltaRestores(a: Uint64, b: Uint64)
    requires a <= b && Match32Msb(a, b)
    ensures Add64(a, Truncate32(Sub64(b, a))) == b
  {
  }

  lemma {:induction false} SumsInvertDeltas(last: Uint64, ids: seq<Uint64>)
    requires NonDecreasing([last] + ids) && SameHigh([last] + ids)
    ensures Sums(last, Deltas(last, ids)) == ids
    decreases |ids|
  {
    hide Add64, Sub64, Truncate32, Match32Msb, NonDecreasing, SameHigh, Sums, Deltas;
    if ids == [] {
      NoSums(last);
    } else {
      var n := |ids| - 1;
      var all, v := [last] + ids, Deltas(last, ids);
      LastPair(all);
      assert all[..n + 1] == [last] + ids[..n];
      SumsInvertDeltas(last, ids[..n]);
      LastDelta(last, ids);
      LastSum(last, v);
      assert v[n] == Truncate32(Sub64(all[n + 1], all[n]));
      DeltaRestores(all[n], all[n + 1]);
      assert ids == ids[..n] + [ids[n]];
    }
  }

  lemma NoSums(last: Uint64)
    ensures Sums(last, []) == []
  {
  }

  lemma LastSum(last: Uint64, v: seq<Uint32>)
    requires v != []
    ensures var n := |v| - 1;
            Sums(last, v) == Sums(last, v[..n]) + [Add64(([last] + Sums(last, v[..n]))[n], v[n])]
  {
    hide Add64;
  }

  lemma LastDelta(last: Uint64, ids: seq<Uint64>)
    requires ids != []
    ensures var n := |ids| - 1; Deltas(last, ids)[..n] == Deltas(last, ids[..n])
  {
    hide Sub64, Truncate32;
  }

  lemma LastPair(s: seq<Uint64>)
    requires |s| > 1 && NonDecreasing(s) && SameHigh(s)
    ensures var n := |s| - 1;
            && NonDecreasing(s[..n]) && SameHigh(s[..n])
            && s[n - 1] <= s[n] && Match32Msb(s[n - 1], s[n])
  {
    hide Match32Msb;
  }

  lemma {:induction false} SumsPrefix(last: Uint64, v: seq<Uint32>, n: nat)
    requires n <= |v|
    ensures Sums(last, v[..n]) == Sums(last, v)[..n]
    decreases |v|
  {
    if n < |v| {
      assert v[..|v| - 1][..n] == v[..n];
      SumsPrefix(last, v[..|v| - 1], n);
    } else {
      assert v[..n] == v;
    }
  }

  /** Neighbours in an unpacked block differ by a 32-bit step, modulo 2^64. */
  predicate SmallSteps(s: seq<Uint64>) {
    forall i :: 0 <= i < |s| - 1 ==> Sub64(s[i + 1], s[i]) < 0x1_0000_0000
  }

  lemma {:induction false} SumsTakeSmallSteps(last: Uint64, v: seq<Uint32>)
    ensures SmallSteps([last] + Sums(last, v))
    decreases |v|
  {
    if v != [] {
      var n := |v| - 1;
      SumsTakeSmallSteps(last, v[..n]);
      var init, s := [last] + Sums(last, v[..n]), [last] + Sums(last, v);
      assert forall i :: 0 <= i <= n ==> s[i] == init[i];
      assert s[n + 1] == Add64(init[n], v[n]);
    }
  }

  lemma {:induction false} SmallStepsOrder(s: seq<Uint64>, i: nat, j: nat)
    requires SmallSteps(s) && SameHigh(s) && i < j < |s|
    ensures s[i] <= s[j]
    decreases j - i
  {
    assert Sub64(s[j - 1 + 1], s[j - 1]) < 0x1_0000_0000 && Match32Msb(s[j - 1], s[j]);
    if i < j - 1 {
      SmallStepsOrder(s, i, j - 1);
    }
  }

  lemma FaithfulRestored(c: Chunk)
    requires SameHigh(c) && Faithful(c)
    ensures Unpackable(PackedBlock(c)) && BlockUids(PackedBlock(c)) == c
  {
    hide Groups, Ungroup, Sums, Deltas, Match32Msb, NonDecreasing, SameHigh, PackedBlock, BlockUids, Unpackable;
    var v := Deltas(c[0], c[1..]);
    assert [c[0]] + c[1..] == c;
    UnpackedBlock(c);
    UngroupInvertsGroups(v, []);
    assert Groups(v) + [] == Groups(v);
    SumsInvertDeltas(c[0], c[1..]);
  }

  lemma UnpackedBlock(c: Chunk)
    requires |c| <= MAX_BLOCK_UIDS
    ensures Unpackable(PackedBlock(c))
    ensures BlockUids(PackedBlock(c)) ==
            [c[0]] + Sums(c[0], Ungroup(Groups(Deltas(c[0], c[1..])), |c| - 1))
  {
    hide Groups, Ungroup, Sums, Deltas, Truncate32;
    CountFits(|c|);
  }

  lemma CountFits(n: nat)
    requires n <= MAX_BLOCK_UIDS
    ensures Truncate32(n) == n
  {
  }

  lemma RestoredFaithful(c: Chunk)
    requires SameHigh(c) && Unpackable(PackedBlock(c)) && BlockUids(PackedBlock(c)) == c
    ensures Faithful(c)
  {
    hide Groups, Ungroup, Sums, Deltas, SmallSteps, SameHigh;
    var b := PackedBlock(c);
    assert |c| == b.numUids <= MAX_BLOCK_UIDS;
    SumsTakeSmallSteps(b.base, Ungroup(b.deltas, b.numUids - 1));
    forall i, j | 0 <= i < j < |c|
      ensures c[i] <= c[j]
    {
      SmallStepsOrder(c, i, j);
    }
  }

  /** Unpacking gives a chunk back exactly when the chunk never decreases and is short enough. */
  lemma BlockRoundTripIff(c: Chunk)
    requires SameHigh(c)
    ensures Unpackable(PackedBlock(c)) && BlockUids(PackedBlock(c)) == c <==> Faithful(c)
  {
    hide PackedBlock, BlockUids, Faithful, Unpackable, SameHigh;
    if Faithful(c) {
      FaithfulRestored(c);
    }
    if Unpackable(PackedBlock(c)) && BlockUids(PackedBlock(c)) == c {
      RestoredFaithful(c);
    }
  }

  /** Five to 17 bytes a group, and at least one group. */
  lemma {:induction false} GroupsSize(v: seq<Uint32>)
    ensures var g := if v == [] then 1 else (|v| + 3) / 4; 5 * g <= |Groups(v)| <= 17 * g
    decreases |v|
  {
    hide GroupBytes, NextFour;
    if |v| > 4 {
      GroupsSize(v[4..]);
      assert (|v| + 3) / 4 == (|v[4..]| + 3) / 4 + 1;
    }
  }
}
