/** The stateful encoder: ids are collected until a block is full or the upper 32 bits change. */
module Encoders {
  import opened Machine
  import opened GroupVarint
  import opened UidPacks

  function Flat(chunks: seq<Chunk>): seq<Uint64> {
    if chunks == [] then [] else Flat(chunks[..|chunks| - 1]) + chunks[|chunks| - 1]
  }

  //
  // What the encoder keeps: the chunks it has packed so far, and the ids still pending
  //

  datatype Progress = Progress(chunks: seq<Chunk>, pending: seq<Uint64>) {
    function Ids(): seq<Uint64> {
      Flat(chunks) + pending
    }

    function Finish(): seq<Chunk> {
      if pending == [] then chunks else chunks + [pending]
    }
  }

  /** A change of the upper 32 bits ends the pending chunk. */
  function FlushStep(p: Progress, uid: Uint64): Progress {
    if p.pending != [] && !Match32Msb(p.pending[|p.pending| - 1], uid) then Progress(p.Finish(), []) else p
  }

  function AppendStep(blockSize: int, p: Progress, uid: Uint64): Progress {
    var pending := p.pending + [uid];
    if |pending| >= blockSize then Progress(p.chunks + [pending], []) else Progress(p.chunks, pending)
  }

  function AddStep(blockSize: int, p: Progress, uid: Uint64): Progress {
    AppendStep(blockSize, FlushStep(p, uid), uid)
  }

  function AddAll(blockSize: int, ids: seq<Uint64>): Progress {
    if ids == [] then Progress([], []) else AddStep(blockSize, AddAll(blockSize, ids[..|ids| - 1]), ids[|ids| - 1])
  }

  lemma AddAllSnoc(blockSize: int, ids: seq<Uint64>, uid: Uint64)
    ensures AddAll(blockSize, ids + [uid]) == AddStep(blockSize, AddAll(blockSize, ids), uid)
    ensures AddAll(blockSize, []) == Progress([], [])
  {
    hide AddStep;
    assert (ids + [uid])[..|ids|] == ids;
  }

  /** The chunks into which `Encode` cuts `ids`. */
  function Split(ids: seq<Uint64>, blockSize: int): seq<Chunk> {
    AddAll(blockSize, ids).Finish()
  }

  /** A block size below one acts like one: the block is packed after its first id. */
  function Capacity(blockSize: int): nat {
    if blockSize < 1 then 1 else blockSize
  }

  predicate ChunkShape(c: seq<Uint64>, blockSize: int) {
    SameHigh(c) && |c| <= Capacity(blockSize)
  }

  /** A chunk ends only because it is full or because the next id has other upper bits. */
  predicate EndsBefore(c: Chunk, next: Uint64, blockSize: int) {
    |c| == Capacity(blockSize) || !Match32Msb(c[|c| - 1], next)
  }

  predicate GreedySplit(chunks: seq<Chunk>, blockSize: int) {
    && (forall i :: 0 <= i < |chunks| ==> ChunkShape(chunks[i], blockSize))
    && (forall i :: 0 < i < |chunks| ==> EndsBefore(chunks[i - 1], chunks[i][0], blockSize))
  }

  /** What holds of the encoder between calls, however `Add` and `Done` were interleaved. */
  predicate Sound(p: Progress, blockSize: int) {
    && (forall i :: 0 <= i < |p.chunks| ==> ChunkShape(p.chunks[i], blockSize))
    && SameHigh(p.pending) && |p.pending| < Capacity(blockSize)
  }

  lemma SameHighSnoc(c: seq<Uint64>, uid: Uint64)
    requires SameHigh(c) && (c != [] ==> Match32Msb(c[|c| - 1], uid))
    ensures SameHigh(c + [uid])
  {
    hide High32;
    forall i | 0 <= i < |c|
      ensures Match32Msb(c[i], uid)
    {
      if i < |c| - 1 {
        assert Match32Msb(c[i], c[|c| - 1]);
      }
    }
  }

  /** One `Add` loses nothing, reorders nothing and keeps every chunk in shape. */
  lemma AddStepKeeps(blockSize: int, p: Progress, uid: Uint64)
    requires Sound(p, blockSize)
    ensures var q := AddStep(blockSize, p, uid); Sound(q, blockSize) && q.Ids() == p.Ids() + [uid]
  {
    hide Sound, FlushStep, AppendStep, Match32Msb, Flat;
    FlushKeeps(blockSize, p, uid);
    AppendKeeps(blockSize, FlushStep(p, uid), uid);
  }

  lemma FlushKeeps(blockSize: int, p: Progress, uid: Uint64)
    requires Sound(p, blockSize)
    ensures var q := FlushStep(p, uid);
            && Sound(q, blockSize) && q.Ids() == p.Ids()
            && (q.pending != [] ==> Match32Msb(q.pending[|q.pending| - 1], uid))
  {
    hide SameHigh, Match32Msb, Flat;
    EmptySameHigh();
    if p.pending != [] {
      FlatSnoc(p.chunks, p.pending);
    }
  }

  lemma AppendKeeps(blockSize: int, p: Progress, uid: Uint64)
    requires Sound(p, blockSize) && (p.pending != [] ==> Match32Msb(p.pending[|p.pending| - 1], uid))
    ensures var q := AppendStep(blockSize, p, uid); Sound(q, blockSize) && q.Ids() == p.Ids() + [uid]
  {
    hide SameHigh, Match32Msb, Flat;
    EmptySameHigh();
    SameHighSnoc(p.pending, uid);
    FlatSnoc(p.chunks, p.pending + [uid]);
  }

  lemma FlatSnoc(chunks: seq<Chunk>, c: Chunk)
    ensures Flat(chunks + [c]) == Flat(chunks) + c
  {
    assert (chunks + [c])[..|chunks|] == chunks;
  }

  lemma EmptySameHigh()
    ensures SameHigh([])
  {
  }

  datatype Operation = AddOp(uid: Uint64) | DoneOp

  function RunOps(blockSize: int, ops: seq<Operation>): Progress {
    if ops == [] then Progress([], []) else
      var p := RunOps(blockSize, ops[..|ops| - 1]);
      match ops[|ops| - 1]
      case AddOp(uid) => AddStep(blockSize, p, uid)
      case DoneOp => Progress(p.Finish(), [])
  }

  function AddedIds(ops: seq<Operation>): seq<Uint64> {
    if ops == [] then [] else
      AddedIds(ops[..|ops| - 1]) + if ops[|ops| - 1].AddOp? then [ops[|ops| - 1].uid] else []
  }

  /** Over any sequence of `Add` and `Done`, the packed chunks and then the pending ids are all that was added. */
  lemma {:induction false} OperationsKeepIds(blockSize: int, ops: seq<Operation>)
    ensures Sound(RunOps(blockSize, ops), blockSize) && RunOps(blockSize, ops).Ids() == AddedIds(ops)
    decreases |ops|
  {
    hide SameHigh, Match32Msb, AddStep;
    EmptySameHigh();
    if ops != [] {
      var n := |ops| - 1;
      OperationsKeepIds(blockSize, ops[..n]);
      if ops[n].AddOp? {
        AddStepKeeps(blockSize, RunOps(blockSize, ops[..n]), ops[n].uid);
      }
    }
  }

  predicate Greedy(p: Progress, blockSize: int) {
    && Sound(p, blockSize) && GreedySplit(p.chunks, blockSize)
    && (p.chunks != [] && p.pending != [] ==> EndsBefore(p.chunks[|p.chunks| - 1], p.pending[0], blockSize))
    && (p.chunks != [] && p.pending == [] ==> |p.chunks[|p.chunks| - 1]| == Capacity(blockSize))
  }

  lemma GreedyFinish(p: Progress, blockSize: int)
    requires Greedy(p, blockSize)
    ensures GreedySplit(p.Finish(), blockSize)
  {
    hide SameHigh, Match32Msb, EndsBefore;
  }

  /** Between flushing and appending `uid`: the last chunk ends rightly before whatever id starts the next one. */
  predicate Ready(p: Progress, blockSize: int, uid: Uint64) {
    && GreedySplit(p.chunks, blockSize)
    && (p.chunks != [] ==> EndsBefore(p.chunks[|p.chunks| - 1], (p.pending + [uid])[0], blockSize))
  }

  lemma FlushReady(p: Progress, blockSize: int, uid: Uint64)
    requires Greedy(p, blockSize)
    ensures Ready(FlushStep(p, uid), blockSize, uid)
  {
    hide SameHigh, Match32Msb, Capacity, GreedySplit;
    GreedyFinish(p, blockSize);
  }

  lemma AppendGreedy(p: Progress, blockSize: int, uid: Uint64)
    requires Ready(p, blockSize, uid) && Sound(AppendStep(blockSize, p, uid), blockSize)
    requires |p.pending| < Capacity(blockSize)
    ensures Greedy(AppendStep(blockSize, p, uid), blockSize)
  {
    hide SameHigh, EndsBefore, ChunkShape;
    var q, c := AppendStep(blockSize, p, uid), p.pending + [uid];
    if |c| >= blockSize {
      assert q.chunks == p.chunks + [c];
      assert GreedySplit(q.chunks, blockSize);
    }
  }

  lemma GreedyStep(blockSize: int, p: Progress, uid: Uint64)
    requires Greedy(p, blockSize)
    ensures Greedy(AddStep(blockSize, p, uid), blockSize)
  {
    hide AppendStep, Match32Msb, ChunkShape, GreedySplit, Ready;
    AddStepKeeps(blockSize, p, uid);
    FlushReady(p, blockSize, uid);
    AppendGreedy(FlushStep(p, uid), blockSize, uid);
  }

  lemma {:induction false} AddAllGreedy(blockSize: int, ids: seq<Uint64>)
    ensures Greedy(AddAll(blockSize, ids), blockSize) && AddAll(blockSize, ids).Ids() == ids
    decreases |ids|
  {
    hide SameHigh, Match32Msb, AddStep;
    EmptySameHigh();
    if ids != [] {
      var n := |ids| - 1;
      AddAllGreedy(blockSize, ids[..n]);
      GreedyStep(blockSize, AddAll(blockSize, ids[..n]), ids[n]);
      AddStepKeeps(blockSize, AddAll(blockSize, ids[..n]), ids[n]);
    }
  }

  lemma {:induction false} FlatConcat(a: seq<Chunk>, b: seq<Chunk>)
    ensures Flat(a + b) == Flat(a) + Flat(b)
    decreases |b|
  {
    if b == [] {
      assert a + b == a;
    } else {
      var n := |b| - 1;
      FlatConcat(a, b[..n]);
      assert (a + b)[..|a + b| - 1] == a + b[..n];
    }
  }

  lemma FlatHead(chunks: seq<Chunk>)
    requires chunks != []
    ensures Flat(chunks) == chunks[0] + Flat(chunks[1..])
  {
    assert chunks == [chunks[0]] + chunks[1..];
    FlatConcat([chunks[0]], chunks[1..]);
    assert Flat([chunks[0]]) == Flat([]) + chunks[0];
  }

  /** The first chunks of two greedy splits of the same ids have the same length. */
  lemma GreedyHead(a: seq<Chunk>, b: seq<Chunk>, blockSize: int)
    requires a != [] && b != [] && GreedySplit(a, blockSize) && GreedySplit(b, blockSize) && Flat(a) == Flat(b)
    ensures |a[0]| >= |b[0]|
  {
    hide Match32Msb, Capacity;
    FlatHead(a);
    FlatHead(b);
    if |a[0]| < |b[0]| {
      var n := |a[0]|;
      assert Flat(a)[n] == b[0][n] && Flat(a)[n - 1] == a[0][n - 1] == b[0][n - 1];
      if a[1..] != [] {
        FlatHead(a[1..]);
      }
      assert false;
    }
  }

  lemma {:induction false} GreedyUnique(a: seq<Chunk>, b: seq<Chunk>, blockSize: int)
    requires GreedySplit(a, blockSize) && GreedySplit(b, blockSize) && Flat(a) == Flat(b)
    ensures a == b
    decreases |a|
  {
    if a == [] || b == [] {
      if a != [] {
        FlatHead(a);
      }
      if b != [] {
        FlatHead(b);
      }
    } else {
      GreedyHead(a, b, blockSize);
      GreedyHead(b, a, blockSize);
      FlatHead(a);
      FlatHead(b);
      assert a[0] == Flat(a)[..|a[0]|] == b[0];
      assert Flat(a[1..]) == Flat(a)[|a[0]|..] == Flat(b[1..]);
      GreedyTail(a, blockSize);
      GreedyTail(b, blockSize);
      GreedyUnique(a[1..], b[1..], blockSize);
      assert a == [a[0]] + a[1..] && b == [b[0]] + b[1..];
    }
  }

  lemma GreedyTail(a: seq<Chunk>, blockSize: int)
    requires a != [] && GreedySplit(a, blockSize)
    ensures GreedySplit(a[1..], blockSize)
  {
    hide ChunkShape, EndsBefore;
    var t := a[1..];
    forall i | 0 < i < |t|
      ensures EndsBefore(t[i - 1], t[i][0], blockSize)
    {
      assert t[i - 1] == a[i] && t[i] == a[i + 1];
      assert EndsBefore(a[i + 1 - 1], a[i + 1][0], blockSize);
    }
  }

  /** The block boundaries are fully determined: a list of chunks is the one `Encode` makes of `ids` exactly when
      it joins to `ids` and each chunk stops only at a full block or a change of the upper 32 bits. */
  lemma SplitCharacterised(ids: seq<Uint64>, blockSize: int, chunks: seq<Chunk>)
    ensures chunks == Split(ids, blockSize) <==> GreedySplit(chunks, blockSize) && Flat(chunks) == ids
  {
    hide Greedy, GreedySplit;
    var p := AddAll(blockSize, ids);
    AddAllGreedy(blockSize, ids);
    GreedyFinish(p, blockSize);
    assert Flat(p.Finish()) == ids;
    if GreedySplit(chunks, blockSize) && Flat(chunks) == ids {
      GreedyUnique(chunks, Split(ids, blockSize), blockSize);
    }
  }

  /** The block borders spelled out: every chunk holds at most `blockSize` ids, at least one, all with one quotient by
      2^32, and stops only when full or before an id with another quotient. */
  ghost predicate CutAt(chunks: seq<Chunk>, ids: seq<Uint64>, blockSize: int) {
    && Flat(chunks) == ids
    && (forall k, i :: 0 <= k < |chunks| && 0 <= i < |chunks[k]| ==>
          chunks[k][i] / 0x1_0000_0000 == chunks[k][0] / 0x1_0000_0000)
    && (forall k :: 0 <= k < |chunks| ==> |chunks[k]| == 1 || |chunks[k]| <= blockSize)
    && (forall k :: 0 < k < |chunks| ==>
          |chunks[k - 1]| >= blockSize || chunks[k - 1][0] / 0x1_0000_0000 != chunks[k][0] / 0x1_0000_0000)
  }

  lemma CutIsGreedy(chunks: seq<Chunk>, ids: seq<Uint64>, blockSize: int)
    ensures CutAt(chunks, ids, blockSize) <==> GreedySplit(chunks, blockSize) && Flat(chunks) == ids
  {
    hide Flat, Match32Msb;
    forall a: Uint64, b: Uint64
      ensures Match32Msb(a, b) <==> a / 0x1_0000_0000 == b / 0x1_0000_0000
    {
      MatchIffSameQuotient(a, b);
    }
    if CutAt(chunks, ids, blockSize) {
      forall k | 0 < k < |chunks|
        ensures EndsBefore(chunks[k - 1], chunks[k][0], blockSize)
      {
        var c := chunks[k - 1];
        assert c[|c| - 1] / 0x1_0000_0000 == c[0] / 0x1_0000_0000;
      }
    }
    if GreedySplit(chunks, blockSize) {
      forall k, i | 0 <= k < |chunks| && 0 <= i < |chunks[k]|
        ensures chunks[k][i] / 0x1_0000_0000 == chunks[k][0] / 0x1_0000_0000
      {
        assert ChunkShape(chunks[k], blockSize);
        assert i > 0 ==> Match32Msb(chunks[k][0], chunks[k][i]);
      }
      forall k | 0 < k < |chunks|
        ensures |chunks[k - 1]| >= blockSize || chunks[k - 1][0] / 0x1_0000_0000 != chunks[k][0] / 0x1_0000_0000
      {
        var c := chunks[k - 1];
        assert EndsBefore(c, chunks[k][0], blockSize);
        assert ChunkShape(c, blockSize);
      }
    }
  }

  lemma SplitIsCut(ids: seq<Uint64>, blockSize: int, chunks: seq<Chunk>)
    ensures chunks == Split(ids, blockSize) <==> CutAt(chunks, ids, blockSize)
  {
    hide Split, CutAt, GreedySplit, Flat;
    SplitCharacterised(ids, blockSize, chunks);
    CutIsGreedy(chunks, ids, blockSize);
  }

  lemma GroupsStep(last: Uint64, ids: seq<Uint64>)
    ensures Groups(Deltas(last, ids)) ==
            GroupBytes(NextFour(Deltas(last, ids))) + if |ids| <= 4 then [] else Groups(Deltas(ids[3], ids[4..]))
  {
    hide GroupBytes, NextFour, Deltas, Truncate32, Sub64;
    if |ids| > 4 {
      assert Deltas(last, ids)[4..] == Deltas(ids[3], ids[4..]);
    }
  }

  lemma EmptyPacked()
    ensures Packed([]) == []
  {
  }

  lemma PackedSnoc(chunks: seq<Chunk>, c: Chunk, b: UidBlock)
    requires b == UidBlock(c[0], Groups(Deltas(c[0], c[1..])), Truncate32(|c|))
    ensures Packed(chunks + [c]) == Packed(chunks) + [b]
  {
    hide Groups, Deltas;
    assert (chunks + [c])[..|chunks|] == chunks;
  }

  class Encoder {
    const blockSize: int
    var pack: UidPack?
    var uids: seq<Uint64>
    var buf: seq<Byte>
    ghost var chunks: seq<Chunk>

    /** The pack holds exactly the packed form of the chunks completed so far. */
    ghost predicate Valid()
      reads this, pack
    {
      && Sound(Progress(chunks, uids), blockSize)
      && (pack == null ==> chunks == [] && uids == [])
      && (pack != null ==> pack.blocks == Packed(chunks) && pack.blockSize == Truncate32(blockSize))
    }

    ghost function State(): Progress
      reads this
    {
      Progress(chunks, uids)
    }

    constructor (blockSize: int)
      ensures Valid() && State() == Progress([], []) && pack == null && this.blockSize == blockSize
    {
      this.blockSize := blockSize;
      pack, uids, buf, chunks := null, [], [], [];
      new;
      EmptySameHigh();
    }

    /** Packs the pending ids, if any, into one more block. */
    method PackBlock()
      requires uids != [] ==> pack != null
      requires pack != null ==> pack.blocks == Packed(chunks)
      modifies this, pack
      ensures pack == old(pack) && State() == Progress(old(State().Finish()), [])
      ensures pack != null ==> pack.blocks == Packed(chunks) && pack.blockSize == old(pack.blockSize)
    {
      hide Groups, Deltas, PackedBlock;
      if |uids| == 0 {
        return;
      }
      ghost var all: Chunk := uids;
      var base, numUids := uids[0], Truncate32(|uids|);
      uids := uids[1..];
      PackDeltas(base);
      pack.blocks := pack.blocks + [UidBlock(base, buf, numUids)];
      chunks := chunks + [all];
      PackedSnoc(old(chunks), all, pack.blocks[|old(chunks)|]);
    }

    /** Turns the ids after the base into delta groups, four at a time. */
    method PackDeltas(base: Uint64)
      modifies `uids, `buf
      ensures uids == [] && buf == Groups(Deltas(base, old(uids)))
    {
      hide Groups, GroupBytes, Deltas, NextFour;
      var last := base;
      buf := [];
      var scratch := new Byte[17];
      var tmpUids := new Uint32[4];
      while true
        invariant fresh(scratch) && fresh(tmpUids)
        invariant buf + Groups(Deltas(last, uids)) == Groups(Deltas(base, old(uids)))
        decreases |uids|
      {
        GroupsStep(last, uids);
        last := FillDeltas(tmpUids, last);
        var n := Encode4(scratch, tmpUids);
        buf := buf + scratch[..n];
        if |uids| <= 4 {
          uids := [];
          break;
        }
        uids := uids[4..];
      }
    }

    /** The next four deltas, zero where the ids have run out; returns the last id used. */
    method FillDeltas(tmpUids: array<Uint32>, before: Uint64) returns (last: Uint64)
      requires tmpUids.Length == 4
      modifies tmpUids
      ensures tmpUids[..] == NextFour(Deltas(before, uids))
      ensures last == ([before] + uids)[if |uids| < 4 then |uids| else 4]
    {
      last := before;
      for i := 0 to 4
        invariant last == ([before] + uids)[if |uids| < i then |uids| else i]
        invariant forall k :: 0 <= k < i ==> tmpUids[k] == NextFour(Deltas(before, uids))[k]
      {
        if i >= |uids| {
          tmpUids[i] := 0;
        } else {
          tmpUids[i] := Truncate32(Sub64(uids[i], last));
          last := uids[i];
        }
      }
    }

    method Add(uid: Uint64)
      requires Valid()
      modifies this, pack
      ensures Valid() && State() == AddStep(blockSize, old(State()), uid)
      ensures pack != null && (old(pack) != null ==> pack == old(pack)) && (old(pack) == null ==> fresh(pack))
    {
      hide Packed, Match32Msb, Sound, Groups, Deltas, Flat;
      AddStepKeeps(blockSize, State(), uid);
      if pack == null {
        pack := new UidPack(Truncate32(blockSize));
        buf := [];
        EmptyPacked();
      }
      var size := |uids|;
      if size > 0 && !Match32Msb(uids[size - 1], uid) {
        PackBlock();
        uids := [];
      }
      uids := uids + [uid];
      if |uids| >= blockSize {
        PackBlock();
        uids := [];
      }
    }

    /** Packs what is pending. The pack handed out is the encoder's own: later calls go on appending to it. */
    method Done() returns (r: UidPack?)
      requires Valid()
      modifies this, pack
      ensures Valid() && State() == Progress(old(State().Finish()), [])
      ensures r == pack == old(pack)
      ensures r != null ==> r.blocks == Packed(State().chunks) && r.blockSize == Truncate32(blockSize)
    {
      hide Packed, Groups, Deltas, Flat, SameHigh;
      EmptySameHigh();
      PackBlock();
      return pack;
    }
  }
}
