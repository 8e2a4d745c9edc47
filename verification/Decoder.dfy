/** The stateful decoder: unpacking block by block, seeking by two nested binary searches, seeking linearly. */
module Decoders {
  import opened Machine
  import opened GroupVarint
  import opened UidPacks

  datatype SeekPos = SeekStart | SeekCurrent

  function BlockUidsAt(blocks: seq<UidBlock>, i: nat): seq<Uint64> {
    if i < |blocks| then BlockUids(blocks[i]) else []
  }

  /** What a reader collects who starts at block `i` and calls `Next` until it yields nothing. */
  function Drain(blocks: seq<UidBlock>, i: nat): seq<Uint64>
    decreases |blocks| - i
  {
    var uids := BlockUidsAt(blocks, i);
    if uids == [] then [] else uids + Drain(blocks, i + 1)
  }

  predicate AllUnpackable(blocks: seq<UidBlock>) {
    forall i :: 0 <= i < |blocks| ==> Unpackable(blocks[i])
  }

  //
  // Seeking refines filtering
  //

  predicate Wanted(x: Uint64, uid: Uint64, whence: SeekPos) {
    if whence.SeekStart? then x >= uid else x > uid
  }

  function Keep(s: seq<Uint64>, uid: Uint64, whence: SeekPos): seq<Uint64> {
    if s == [] then [] else (if Wanted(s[0], uid, whence) then [s[0]] else []) + Keep(s[1..], uid, whence)
  }

  function LastUid(b: UidBlock): Uint64 {
    if b.numUids == 0 then b.base else BlockUids(b)[b.numUids - 1]
  }

  predicate OrderedBlock(b: UidBlock) {
    b.numUids > 0 && Unpackable(b) && NonDecreasing(BlockUids(b))
  }

  /** The ids never decrease, inside a block and from block to block; duplicates are allowed everywhere. */
  predicate Ordered(blocks: seq<UidBlock>) {
    && (forall i :: 0 <= i < |blocks| ==> OrderedBlock(blocks[i]))
    && (forall i, j :: 0 <= i < j < |blocks| ==> LastUid(blocks[i]) <= blocks[j].base)
  }

  /** Duplicates of `uid` straddle the border before block `b`, which is the first block to start at `uid`. */
  predicate SplitAt(blocks: seq<UidBlock>, uid: Uint64, b: nat) {
    0 < b < |blocks| && blocks[b - 1].base < uid == blocks[b].base == LastUid(blocks[b - 1])
  }

  ghost predicate SplitDuplicate(blocks: seq<UidBlock>, uid: Uint64) {
    exists b: nat :: SplitAt(blocks, uid, b)
  }

  lemma {:induction false} KeepConcat(a: seq<Uint64>, b: seq<Uint64>, uid: Uint64, whence: SeekPos)
    ensures Keep(a + b, uid, whence) == Keep(a, uid, whence) + Keep(b, uid, whence)
  {
    hide Keep, Wanted;
    if a == [] {
      assert a + b == b;
      KeepEmpty(uid, whence);
    } else {
      var tail, rest := Keep(a[1..], uid, whence), Keep(b, uid, whence);
      KeepConcat(a[1..], b, uid, whence);
      assert (a + b)[1..] == a[1..] + b;
      KeepHead(a + b, uid, whence);
      KeepHead(a, uid, whence);
      assert [a[0]] + (tail + rest) == [a[0]] + tail + rest;
    }
  }

  lemma KeepEmpty(uid: Uint64, whence: SeekPos)
    ensures Keep([], uid, whence) == []
  {
  }

  lemma KeepHead(s: seq<Uint64>, uid: Uint64, whence: SeekPos)
    requires s != []
    ensures var tail := Keep(s[1..], uid, whence);
            Keep(s, uid, whence) == if Wanted(s[0], uid, whence) then [s[0]] + tail else tail
  {
    hide Wanted;
  }

  /** `Keep` takes exactly the ids from `uid` on, or past it, each as often as it occurs. */
  lemma {:induction false} KeepOccurs(s: seq<Uint64>, uid: Uint64, whence: SeekPos, x: Uint64)
    ensures multiset(Keep(s, uid, whence))[x] ==
            if uid < x || (x == uid && whence.SeekStart?) then multiset(s)[x] else 0
  {
    hide Keep, Wanted;
    if s == [] {
      KeepEmpty(uid, whence);
    } else {
      var tail := Keep(s[1..], uid, whence);
      KeepOccurs(s[1..], uid, whence, x);
      KeepHead(s, uid, whence);
      ConsOccurs(s[0], s[1..], x);
      ConsOccurs(s[0], tail, x);
      assert s == [s[0]] + s[1..];
      WantedIs(s[0], uid, whence);
    }
  }

  lemma ConsOccurs(h: Uint64, t: seq<Uint64>, x: Uint64)
    ensures multiset([h] + t)[x] == multiset(t)[x] + if h == x then 1 else 0
  {
  }

  lemma WantedIs(x: Uint64, uid: Uint64, whence: SeekPos)
    ensures Wanted(x, uid, whence) <==> uid < x || (x == uid && whence.SeekStart?)
  {
  }

  lemma {:induction false} KeepAll(s: seq<Uint64>, uid: Uint64, whence: SeekPos)
    requires forall i :: 0 <= i < |s| ==> Wanted(s[i], uid, whence)
    ensures Keep(s, uid, whence) == s
  {
    if s != [] {
      KeepAll(s[1..], uid, whence);
    }
  }

  lemma {:induction false} KeepNone(s: seq<Uint64>, uid: Uint64, whence: SeekPos)
    requires forall i :: 0 <= i < |s| ==> !Wanted(s[i], uid, whence)
    ensures Keep(s, uid, whence) == []
  {
    if s != [] {
      KeepNone(s[1..], uid, whence);
    }
  }

  function Prefix(blocks: seq<UidBlock>, i: nat): seq<Uint64>
    requires i <= |blocks|
  {
    if i == 0 then [] else Prefix(blocks, i - 1) + BlockUids(blocks[i - 1])
  }

  lemma {:induction false} PrefixDrain(blocks: seq<UidBlock>, i: nat)
    requires i <= |blocks| && forall k :: 0 <= k < i ==> blocks[k].numUids > 0
    ensures Drain(blocks, 0) == Prefix(blocks, i) + Drain(blocks, i)
  {
    hide BlockUids;
    if i > 0 {
      PrefixDrain(blocks, i - 1);
    }
  }

  lemma BlockBounds(b: UidBlock)
    requires OrderedBlock(b)
    ensures BlockUids(b)[0] == b.base && b.base <= LastUid(b)
    ensures forall k :: 0 <= k < b.numUids ==> b.base <= BlockUids(b)[k] <= LastUid(b)
  {
    assert BlockUids(b)[0] == b.base;
  }

  lemma {:induction false} PrefixUnwanted(blocks: seq<UidBlock>, i: nat, uid: Uint64, whence: SeekPos)
    requires Ordered(blocks) && i <= |blocks|
    requires i > 0 ==> !Wanted(LastUid(blocks[i - 1]), uid, whence)
    ensures Keep(Prefix(blocks, i), uid, whence) == []
  {
    hide BlockUids, LastUid;
    if i > 0 {
      BlockBounds(blocks[i - 1]);
      PrefixUnwanted(blocks, i - 1, uid, whence);
      KeepNone(BlockUids(blocks[i - 1]), uid, whence);
      KeepConcat(Prefix(blocks, i - 1), BlockUids(blocks[i - 1]), uid, whence);
    }
  }

  lemma {:induction false} DrainWanted(blocks: seq<UidBlock>, i: nat, uid: Uint64, whence: SeekPos)
    requires Ordered(blocks) && (i < |blocks| ==> Wanted(blocks[i].base, uid, whence))
    ensures Keep(Drain(blocks, i), uid, whence) == Drain(blocks, i)
    decreases |blocks| - i
  {
    hide BlockUids, LastUid;
    if i < |blocks| {
      BlockBounds(blocks[i]);
      DrainWanted(blocks, i + 1, uid, whence);
      KeepAll(BlockUids(blocks[i]), uid, whence);
      KeepConcat(BlockUids(blocks[i]), Drain(blocks, i + 1), uid, whence);
    }
  }

  /** What a seek to `uid` leaves to be read, `rem`: the ids sought, except that `SeekStart` drops the duplicates
      of `uid` that end the block before the one that starts at `uid`. */
  ghost predicate SeekFinds(blocks: seq<UidBlock>, uid: Uint64, whence: SeekPos, rem: seq<Uint64>) {
    && (rem == Keep(Drain(blocks, 0), uid, whence) <==> whence.SeekCurrent? || !SplitDuplicate(blocks, uid))
    && (whence.SeekStart? ==> forall b: nat :: SplitAt(blocks, uid, b) ==> rem == Drain(blocks, b))
  }

  /** Where Go's `sort.Search` stops when it has narrowed its range to `i..j`. */
  function SearchFrom(f: nat --> bool, i: nat, j: nat): (k: nat)
    requires i <= j && forall h: nat :: h < j ==> f.requires(h)
    ensures i <= k <= j && (k > i ==> !f(k - 1)) && (k < j ==> f(k))
    decreases j - i
  {
    if i == j then i else
      var h := (i + j) / 2;
      if !f(h) then SearchFrom(f, h + 1, j) else SearchFrom(f, i, h)
  }

  function BaseWanted(blocks: seq<UidBlock>, uid: Uint64, whence: SeekPos): nat --> bool {
    (i: nat) requires i < |blocks| => Wanted(blocks[i].base, uid, whence)
  }

  function UidWanted(uids: seq<Uint64>, uid: Uint64, whence: SeekPos): nat --> bool {
    (i: nat) requires i < |uids| => Wanted(uids[i], uid, whence)
  }

  function SeekBlock(blocks: seq<UidBlock>, uid: Uint64, whence: SeekPos): (idx: nat)
    ensures Boundary(blocks, uid, whence, idx)
  {
    SearchFrom(BaseWanted(blocks, uid, whence), 0, |blocks|)
  }

  function SeekUid(uids: seq<Uint64>, uid: Uint64, whence: SeekPos): (uidx: nat)
    ensures uidx <= |uids|
    ensures uidx > 0 ==> !Wanted(uids[uidx - 1], uid, whence)
    ensures uidx < |uids| ==> Wanted(uids[uidx], uid, whence)
  {
    SearchFrom(UidWanted(uids, uid, whence), 0, |uids|)
  }

  /** What is left to be read after a seek, on any pack, its ids ordered or not. */
  function SeekRest(blocks: seq<UidBlock>, uid: Uint64, whence: SeekPos): seq<Uint64> {
    if uid == 0 then Drain(blocks, 0) else RestAt(blocks, uid, whence, SeekBlock(blocks, uid, whence))
  }

  /** The block that the decoder stands on after a seek. */
  function SeekStand(blocks: seq<UidBlock>, uid: Uint64, whence: SeekPos): nat {
    var idx := if uid == 0 then 0 else SeekBlock(blocks, uid, whence);
    if idx == 0 || (idx < |blocks| && blocks[idx].base == uid) then idx else
      var all := BlockUids(blocks[idx - 1]);
      if SeekUid(all, uid, whence) < |all| then idx - 1 else idx
  }

  /** `uids` is the end of the ids of block `i`. */
  predicate EndOfBlock(blocks: seq<UidBlock>, i: nat, uids: seq<Uint64>) {
    var all := BlockUidsAt(blocks, i);
    |uids| <= |all| && uids == all[|all| - |uids|..]
  }

  function RestAt(blocks: seq<UidBlock>, uid: Uint64, whence: SeekPos, idx: nat): seq<Uint64>
    requires idx <= |blocks|
  {
    if idx == 0 || (idx < |blocks| && blocks[idx].base == uid) then Drain(blocks, idx) else
      var uids := BlockUids(blocks[idx - 1]);
      uids[SeekUid(uids, uid, whence)..] + Drain(blocks, idx)
  }

  /** `idx` is where the block search stops: the first block whose base is wanted. */
  ghost predicate Boundary(blocks: seq<UidBlock>, uid: Uint64, whence: SeekPos, idx: nat) {
    && idx <= |blocks|
    && (idx > 0 ==> !Wanted(blocks[idx - 1].base, uid, whence))
    && (idx < |blocks| ==> Wanted(blocks[idx].base, uid, whence))
  }

  lemma SplitOnlyAtBoundary(blocks: seq<UidBlock>, uid: Uint64, idx: nat, b: nat)
    requires Ordered(blocks) && Boundary(blocks, uid, SeekStart, idx) && SplitAt(blocks, uid, b)
    ensures b == idx
  {
    hide BlockUids, LastUid;
    forall i, j | 0 <= i < j < |blocks|
      ensures blocks[i].base <= blocks[j].base
    {
      BlockBounds(blocks[i]);
    }
  }

  lemma KeepFrom(blocks: seq<UidBlock>, i: nat, uid: Uint64, whence: SeekPos)
    requires Ordered(blocks) && i <= |blocks| && (i < |blocks| ==> Wanted(blocks[i].base, uid, whence))
    ensures Keep(Drain(blocks, 0), uid, whence) == Keep(Prefix(blocks, i), uid, whence) + Drain(blocks, i)
  {
    hide BlockUids, Keep, Drain, Prefix, LastUid;
    PrefixDrain(blocks, i);
    DrainWanted(blocks, i, uid, whence);
    KeepConcat(Prefix(blocks, i), Drain(blocks, i), uid, whence);
  }

  lemma PrefixKeepsLast(blocks: seq<UidBlock>, i: nat, uid: Uint64)
    requires 0 < i <= |blocks| && blocks[i - 1].numUids > 0 && LastUid(blocks[i - 1]) >= uid
    ensures Keep(Prefix(blocks, i), uid, SeekStart) != []
  {
    hide BlockUids, Keep;
    var s := BlockUids(blocks[i - 1]);
    var n := |s| - 1;
    assert s == s[..n] + [s[n]];
    KeepConcat(s[..n], [s[n]], uid, SeekStart);
    KeepAll([s[n]], uid, SeekStart);
    KeepConcat(Prefix(blocks, i - 1), s, uid, SeekStart);
  }

  /** Stopping at a block whose base is the id sought. */
  lemma SeekHitsBase(blocks: seq<UidBlock>, uid: Uint64, idx: nat)
    requires Ordered(blocks) && Boundary(blocks, uid, SeekStart, idx) && 0 < idx < |blocks| && blocks[idx].base == uid
    ensures SeekFinds(blocks, uid, SeekStart, Drain(blocks, idx))
  {
    hide BlockUids, Keep, Drain, Prefix, LastUid;
    forall b: nat | SplitAt(blocks, uid, b)
      ensures b == idx
    {
      SplitOnlyAtBoundary(blocks, uid, idx, b);
    }
    KeepFrom(blocks, idx, uid, SeekStart);
    assert OrderedBlock(blocks[idx - 1]);
    if SplitAt(blocks, uid, idx) {
      PrefixKeepsLast(blocks, idx, uid);
    } else {
      PrefixUnwanted(blocks, idx, uid, SeekStart);
    }
  }

  /** Searching inside the block before the boundary, where the first wanted id is at `uidx`. */
  lemma SeekInsideBlock(blocks: seq<UidBlock>, uid: Uint64, whence: SeekPos, idx: nat, uidx: nat)
    requires Ordered(blocks) && Boundary(blocks, uid, whence, idx) && idx > 0
    requires whence.SeekStart? && idx < |blocks| ==> blocks[idx].base != uid
    requires uidx <= |BlockUids(blocks[idx - 1])|
    requires uidx > 0 ==> !Wanted(BlockUids(blocks[idx - 1])[uidx - 1], uid, whence)
    requires uidx < |BlockUids(blocks[idx - 1])| ==> Wanted(BlockUids(blocks[idx - 1])[uidx], uid, whence)
    ensures SeekFinds(blocks, uid, whence, BlockUids(blocks[idx - 1])[uidx..] + Drain(blocks, idx))
  {
    hide BlockUids, Keep, Drain, LastUid;
    if whence.SeekStart? {
      if b: nat :| SplitAt(blocks, uid, b) {
        SplitOnlyAtBoundary(blocks, uid, idx, b);
      }
    }
    var uids := BlockUids(blocks[idx - 1]);
    assert OrderedBlock(blocks[idx - 1]);
    KeepFrom(blocks, idx, uid, whence);
    KeepConcat(Prefix(blocks, idx - 1), uids, uid, whence);
    BlockBounds(blocks[idx - 1]);
    PrefixUnwanted(blocks, idx - 1, uid, whence);
    KeepSorted(uids, uidx, uid, whence);
  }

  lemma KeepSorted(s: seq<Uint64>, k: nat, uid: Uint64, whence: SeekPos)
    requires NonDecreasing(s) && k <= |s|
    requires (k > 0 ==> !Wanted(s[k - 1], uid, whence)) && (k < |s| ==> Wanted(s[k], uid, whence))
    ensures Keep(s, uid, whence) == s[k..]
  {
    hide Keep;
    KeepNone(s[..k], uid, whence);
    KeepAll(s[k..], uid, whence);
    KeepConcat(s[..k], s[k..], uid, whence);
    assert s == s[..k] + s[k..];
  }

  lemma SeekFromStart(blocks: seq<UidBlock>, uid: Uint64, whence: SeekPos)
    requires Ordered(blocks) && Boundary(blocks, uid, whence, 0)
    ensures SeekFinds(blocks, uid, whence, Drain(blocks, 0))
  {
    hide BlockUids, Keep, Drain;
    if whence.SeekStart? {
      if b: nat :| SplitAt(blocks, uid, b) {
        SplitOnlyAtBoundary(blocks, uid, 0, b);
      }
    }
    DrainWanted(blocks, 0, uid, whence);
  }

  lemma BaseIsSought(uid: Uint64, whence: SeekPos)
    ensures Wanted(uid, uid, whence) <==> whence.SeekStart?
  {
  }

  /** On ordered packs, what a seek leaves is what it should find. */
  lemma SeekRestFinds(blocks: seq<UidBlock>, uid: Uint64, whence: SeekPos)
    requires Ordered(blocks) && uid != 0
    ensures SeekFinds(blocks, uid, whence, SeekRest(blocks, uid, whence))
  {
    hide BlockUids, SeekFinds, Wanted, Ordered, Drain, SeekBlock, SeekUid;
    var idx := SeekBlock(blocks, uid, whence);
    if idx == 0 {
      SeekFromStart(blocks, uid, whence);
    } else if idx < |blocks| && blocks[idx].base == uid {
      BaseIsSought(uid, whence);
      SeekHitsBase(blocks, uid, idx);
    } else {
      SeekInsideBlock(blocks, uid, whence, idx, SeekUid(BlockUids(blocks[idx - 1]), uid, whence));
    }
  }

  /** `rest` is the part of `all` from `k` on, where unwanted ids give way to wanted ones, unless `SeekStart`
      stopped at a block that starts at the id sought. */
  predicate Crossing(all: seq<Uint64>, k: nat, uid: Uint64, whence: SeekPos, rest: seq<Uint64>) {
    && k <= |all| && rest == all[k..]
    && (k < |all| ==> Wanted(all[k], uid, whence))
    && (k > 0 ==> !Wanted(all[k - 1], uid, whence) || (whence.SeekStart? && k < |all| && all[k] == uid))
  }

  /** Ordered or not, a seek leaves an end of the whole list that starts at a wanted id and follows an unwanted
      one, or starts at the id sought. */
  lemma SeekRestCrosses(blocks: seq<UidBlock>, uid: Uint64, whence: SeekPos) returns (k: nat)
    requires uid != 0 && forall i :: 0 <= i < |blocks| ==> blocks[i].numUids > 0
    ensures Crossing(Drain(blocks, 0), k, uid, whence, SeekRest(blocks, uid, whence))
  {
    hide BlockUids, Wanted, Drain, SeekBlock, SeekUid, Prefix, Crossing;
    var idx := SeekBlock(blocks, uid, whence);
    if idx == 0 || (idx < |blocks| && blocks[idx].base == uid) {
      CrossAtBlock(blocks, uid, whence, idx);
      k := |Prefix(blocks, idx)|;
    } else {
      var uids := BlockUids(blocks[idx - 1]);
      CrossInBlock(blocks, uid, whence, idx, SeekUid(uids, uid, whence));
      k := |Prefix(blocks, idx - 1)| + SeekUid(uids, uid, whence);
    }
  }

  lemma CrossAtBlock(blocks: seq<UidBlock>, uid: Uint64, whence: SeekPos, idx: nat)
    requires forall i :: 0 <= i < |blocks| ==> blocks[i].numUids > 0
    requires Boundary(blocks, uid, whence, idx) && (idx == 0 || (idx < |blocks| && blocks[idx].base == uid))
    ensures Crossing(Drain(blocks, 0), |Prefix(blocks, idx)|, uid, whence, Drain(blocks, idx))
  {
    hide BlockUids, Wanted, Drain, Prefix;
    DrainStarts(blocks, idx);
    PrefixDrain(blocks, idx);
    BaseIsSought(uid, whence);
    assert idx == 0 ==> Prefix(blocks, idx) == [] by { NoPrefix(blocks); }
  }

  lemma CrossInBlock(blocks: seq<UidBlock>, uid: Uint64, whence: SeekPos, idx: nat, uidx: nat)
    requires forall i :: 0 <= i < |blocks| ==> blocks[i].numUids > 0
    requires Boundary(blocks, uid, whence, idx) && idx > 0 && uidx <= |BlockUids(blocks[idx - 1])|
    requires uidx > 0 ==> !Wanted(BlockUids(blocks[idx - 1])[uidx - 1], uid, whence)
    requires uidx < |BlockUids(blocks[idx - 1])| ==> Wanted(BlockUids(blocks[idx - 1])[uidx], uid, whence)
    ensures Crossing(Drain(blocks, 0), |Prefix(blocks, idx - 1)| + uidx, uid, whence,
                     BlockUids(blocks[idx - 1])[uidx..] + Drain(blocks, idx))
  {
    hide BlockUids, Wanted, Drain, Prefix;
    var uids, before, after := BlockUids(blocks[idx - 1]), Prefix(blocks, idx - 1), Drain(blocks, idx);
    PrefixDrain(blocks, idx);
    PrefixSnoc(blocks, idx);
    DrainStarts(blocks, idx);
    FirstUid(blocks[idx - 1]);
    assert Drain(blocks, 0) == before + (uids + after);
    CrossParts(before, uids, uidx, after, uid, whence);
  }

  lemma CrossParts(
      before: seq<Uint64>, uids: seq<Uint64>, uidx: nat, after: seq<Uint64>, uid: Uint64, whence: SeekPos)
    requires 0 < uidx <= |uids| && !Wanted(uids[uidx - 1], uid, whence)
    requires uidx < |uids| ==> Wanted(uids[uidx], uid, whence)
    requires after != [] ==> Wanted(after[0], uid, whence)
    ensures Crossing(before + (uids + after), |before| + uidx, uid, whence, uids[uidx..] + after)
  {
    hide Wanted;
    var all, k := before + (uids + after), |before| + uidx;
    assert all[k..] == uids[uidx..] + after;
    assert all[k - 1] == uids[uidx - 1];
    if uidx < |uids| {
      assert all[k] == uids[uidx];
    } else if after != [] {
      assert all[k] == after[0];
    }
  }

  lemma NoPrefix(blocks: seq<UidBlock>)
    ensures Prefix(blocks, 0) == []
  {
  }

  lemma FirstUid(b: UidBlock)
    requires b.numUids > 0
    ensures BlockUids(b)[0] == b.base
  {
    hide Ungroup, Sums;
  }

  lemma PrefixSnoc(blocks: seq<UidBlock>, i: nat)
    requires 0 < i <= |blocks|
    ensures Prefix(blocks, i) == Prefix(blocks, i - 1) + BlockUids(blocks[i - 1])
  {
  }

  lemma DrainStarts(blocks: seq<UidBlock>, i: nat)
    requires i < |blocks| ==> blocks[i].numUids > 0
    ensures Drain(blocks, i) == [] <==> i >= |blocks|
    ensures i < |blocks| ==> Drain(blocks, i)[0] == blocks[i].base
  {
    hide BlockUids;
    if i < |blocks| {
      FirstUid(blocks[i]);
    }
  }

  //
  // The linear seek
  //

  function PeekBase(blocks: seq<UidBlock>, i: nat): Uint64 {
    if i + 1 < |blocks| then blocks[i + 1].base else MAX_UINT64
  }

  /** The block at which a linear seek from block `i` stops. */
  function LinearTarget(blocks: seq<UidBlock>, i: nat, seek: Uint64): (t: nat)
    requires seek < MAX_UINT64
    ensures i <= t
    decreases |blocks| - i
  {
    if seek < PeekBase(blocks, i) then i else LinearTarget(blocks, i + 1, seek)
  }

  /** Block `t` is the first one, from block `i` on, that no block starting at or below the id sought follows. */
  predicate FirstStop(blocks: seq<UidBlock>, i: nat, t: nat, seek: Uint64) {
    && i <= t && (t + 1 < |blocks| ==> seek < blocks[t + 1].base)
    && forall j :: i < j <= t ==> j < |blocks| && blocks[j].base <= seek
  }

  lemma {:induction false} LinearTargetIsFirst(blocks: seq<UidBlock>, i: nat, seek: Uint64)
    requires seek < MAX_UINT64
    ensures FirstStop(blocks, i, LinearTarget(blocks, i, seek), seek)
    decreases |blocks| - i
  {
    if seek >= PeekBase(blocks, i) {
      LinearTargetIsFirst(blocks, i + 1, seek);
      assert blocks[i + 1].base <= seek;
    }
  }

  /** The loop of a linear seek has a block to stop at exactly when the id sought is not the largest one. */
  lemma LinearSeekTerminatesIff(blocks: seq<UidBlock>, i: nat, seek: Uint64)
    ensures (exists j: nat :: i <= j && seek < PeekBase(blocks, j)) <==> seek < MAX_UINT64
  {
    if seek < MAX_UINT64 {
      var j := if i < |blocks| then |blocks| else i;
      assert seek < PeekBase(blocks, j);
    }
  }

  lemma {:induction false} LinearSeeksCompose(blocks: seq<UidBlock>, i: nat, first: Uint64, second: Uint64)
    requires first <= second < MAX_UINT64
    ensures LinearTarget(blocks, LinearTarget(blocks, i, first), second) == LinearTarget(blocks, i, second)
    decreases |blocks| - i
  {
    if first >= PeekBase(blocks, i) {
      LinearSeeksCompose(blocks, i + 1, first, second);
    }
  }

  function LinearSeries(blocks: seq<UidBlock>, i: nat, seeks: seq<Uint64>): nat
    requires forall k :: 0 <= k < |seeks| ==> seeks[k] < MAX_UINT64
    decreases |seeks|
  {
    if seeks == [] then i else LinearSeries(blocks, LinearTarget(blocks, i, seeks[0]), seeks[1..])
  }

  /** A non-decreasing series of seeks ends where one seek for its last id would. */
  lemma {:induction false} LinearSeriesIsLast(blocks: seq<UidBlock>, i: nat, seeks: seq<Uint64>)
    requires seeks != [] && NonDecreasing(seeks) && seeks[|seeks| - 1] < MAX_UINT64
    ensures LinearSeries(blocks, i, seeks) == LinearTarget(blocks, i, seeks[|seeks| - 1])
    decreases |seeks|
  {
    if |seeks| > 1 {
      LinearSeriesIsLast(blocks, LinearTarget(blocks, i, seeks[0]), seeks[1..]);
      LinearSeeksCompose(blocks, i, seeks[0], seeks[|seeks| - 1]);
    }
  }

  /** An id occurs at or after the starting block exactly when it is in the block the seek returns. */
  lemma {:induction false} LinearSeekFinds(blocks: seq<UidBlock>, i: nat, seek: Uint64)
    requires Ordered(blocks) && seek < MAX_UINT64
    ensures seek in Drain(blocks, i) <==> seek in BlockUidsAt(blocks, LinearTarget(blocks, i, seek))
    decreases |blocks| - i
  {
    hide BlockUids, LastUid;
    if i < |blocks| {
      BlockBounds(blocks[i]);
    }
    if seek < PeekBase(blocks, i) {
      if i + 1 < |blocks| && seek in Drain(blocks, i + 1) {
        DrainAbove(blocks, i + 1, seek);
      }
    } else {
      LinearSeekFinds(blocks, i + 1, seek);
      BlockBounds(blocks[i + 1]);
      if seek in BlockUidsAt(blocks, i) {
        assert seek == BlockUids(blocks[i + 1])[0];
      }
    }
  }

  lemma {:induction false} DrainAbove(blocks: seq<UidBlock>, i: nat, x: Uint64)
    requires Ordered(blocks) && i < |blocks| && x in Drain(blocks, i)
    ensures x >= blocks[i].base
    decreases |blocks| - i
  {
    hide BlockUids, LastUid;
    BlockBounds(blocks[i]);
    if x !in BlockUids(blocks[i]) {
      assert x in Drain(blocks, i + 1);
      DrainAbove(blocks, i + 1, x);
    }
  }

  //
  // The decoder
  //

  /** Go's `sort.Search`. */
  method Search(n: nat, f: nat --> bool) returns (k: nat)
    requires forall i: nat :: i < n ==> f.requires(i)
    ensures k <= n && (k > 0 ==> !f(k - 1)) && (k < n ==> f(k))
    ensures k == SearchFrom(f, 0, n)
  {
    var i, j := 0, n;
    while i < j
      invariant 0 <= i <= j <= n && SearchFrom(f, i, j) == SearchFrom(f, 0, n)
    {
      var h := (i + j) / 2;
      if !f(h) {
        i := h + 1;
      } else {
        j := h;
      }
    }
    return i;
  }

  lemma DrainStep(blocks: seq<UidBlock>, i: nat)
    ensures var uids := BlockUidsAt(blocks, i);
            Drain(blocks, i) == if uids == [] then [] else uids + Drain(blocks, i + 1)
  {
    hide BlockUids;
  }

  lemma RestoredUids(block: UidBlock, values: seq<Uint32>, n: nat, uids: seq<Uint64>)
    requires n == (if block.numUids == 0 then 0 else block.numUids - 1) <= |values|
    requires uids == [block.base] + Sums(block.base, values) && Ungroup(block.deltas, n) == values[..n]
    ensures uids[..block.numUids] == BlockUids(block)
  {
    hide Ungroup, Sums;
    SumsPrefix(block.base, values, n);
  }

  lemma UngroupStep(data: seq<Byte>, n: nat)
    ensures Ungroup(data, 0) == []
    ensures n > 0 ==> var w := Padded(data);
                      Ungroup(data, n) == if n <= 4 then GroupValues(w)[..n]
                                          else GroupValues(w) + Ungroup(w[BytesUsed(w[0])..], n - 4)
  {
    hide GroupValues, Padded, BytesUsed;
  }

  lemma SeekRestCases(blocks: seq<UidBlock>, uid: Uint64, whence: SeekPos)
    ensures uid == 0 ==> SeekRest(blocks, uid, whence) == Drain(blocks, 0) && SeekStand(blocks, uid, whence) == 0
    ensures uid != 0 ==>
              var idx := SeekBlock(blocks, uid, whence);
              idx <= |blocks|
              && SeekStand(blocks, uid, whence) == (
                   if idx == 0 || (idx < |blocks| && blocks[idx].base == uid) then idx
                   else if SeekUid(BlockUids(blocks[idx - 1]), uid, whence) < |BlockUids(blocks[idx - 1])| then idx - 1
                   else idx)
              && SeekRest(blocks, uid, whence) ==
                 if idx == 0 || (idx < |blocks| && blocks[idx].base == uid) then Drain(blocks, idx)
                 else BlockUids(blocks[idx - 1])[SeekUid(BlockUids(blocks[idx - 1]), uid, whence)..]
                      + Drain(blocks, idx)
  {
    hide BlockUids, Drain, SeekBlock, SeekUid;
  }

  /** Of the `n` values in `data`, `values` are those read so far, the last group perhaps too long, and `rest` holds the
      others. */
  predicate PartlyRead(data: seq<Byte>, n: nat, values: seq<Uint32>, rest: seq<Byte>) {
    if |values| < n then Ungroup(data, n) == values + Ungroup(rest, n - |values|) else Ungroup(data, n) == values[..n]
  }

  lemma NoneRead(data: seq<Byte>, n: nat)
    ensures PartlyRead(data, n, [], data)
  {
    hide Ungroup;
    UngroupStep(data, 0);
    var none: seq<Uint32> := [];
    assert none + Ungroup(data, n) == Ungroup(data, n);
  }

  lemma ReadGroup(data: seq<Byte>, n: nat, values: seq<Uint32>, rest: seq<Byte>)
    requires PartlyRead(data, n, values, rest) && |values| < n
    ensures var w := Padded(rest); PartlyRead(data, n, values + GroupValues(w), w[BytesUsed(w[0])..])
  {
    hide Ungroup, GroupValues, Padded, BytesUsed;
    UngroupStep(rest, n - |values|);
    var w := Padded(rest);
    if n - |values| <= 4 {
      assert values + GroupValues(w)[..n - |values|] == (values + GroupValues(w))[..n];
    } else {
      var later := Ungroup(w[BytesUsed(w[0])..], n - |values| - 4);
      assert values + (GroupValues(w) + later) == values + GroupValues(w) + later;
    }
    if n == |values| + 4 {
      assert (values + GroupValues(w))[..n] == values + GroupValues(w);
    }
  }

  lemma AllRead(data: seq<Byte>, n: nat, values: seq<Uint32>, rest: seq<Byte>)
    requires PartlyRead(data, n, values, rest) && n <= |values|
    ensures Ungroup(data, n) == values[..n]
  {
  }

  /** Lists one longer than a multiple of four stay clear of the wrap-around, up to the largest block. */
  lemma NoWrap(groups: nat, numUids: Uint32)
    requires numUids <= MAX_BLOCK_UIDS && (groups == 0 || 4 * groups < numUids + 3)
    ensures Truncate32(1 + 4 * groups) == 1 + 4 * groups
  {
  }

  class Decoder {
    const pack: UidPack?
    var blockIdx: nat
    var uids: seq<Uint64>

    constructor (pack: UidPack?)
      ensures this.pack == pack && blockIdx == 0 && uids == []
    {
      this.pack := pack;
      blockIdx, uids := 0, [];
    }

    /** What the current list and then `Next` until it yields nothing still give. */
    ghost function Remaining(): seq<Uint64>
      requires pack != null
      reads this, pack
    {
      if uids == [] then [] else uids + Drain(pack.blocks, blockIdx + 1)
    }

    method UnpackBlock() returns (r: seq<Uint64>)
      requires pack != null && (blockIdx < |pack.blocks| ==> Unpackable(pack.blocks[blockIdx]))
      modifies `uids
      ensures r == uids == BlockUidsAt(pack.blocks, blockIdx) && (uids != [] ==> blockIdx < |pack.blocks|)
      ensures Remaining() == Drain(pack.blocks, blockIdx)
    {
      hide BlockUids, Drain;
      DrainStep(pack.blocks, blockIdx);
      uids := [];
      if blockIdx >= |pack.blocks| {
        return uids;
      }
      var block := pack.blocks[blockIdx];
      uids := uids + [block.base];
      UnpackGroups(block);
      uids := uids[..block.numUids];
      return uids;
    }

    /** Appends whole groups until the block's count is reached, so up to three ids too many. */
    method UnpackGroups(block: UidBlock)
      requires Unpackable(block) && uids == [block.base]
      modifies `uids
      ensures |uids| >= block.numUids && uids[..block.numUids] == BlockUids(block)
    {
      hide Ungroup, Sums, GroupValues, Padded, BytesUsed, BlockUids, Truncate32;
      var tmpUids := new Uint32[4];
      var encData := block.deltas;
      ghost var values: seq<Uint32>, groups := [], 0;
      ghost var n := if block.numUids == 0 then 0 else block.numUids - 1;
      NoSums(block.base);
      NoWrap(groups, block.numUids);
      NoneRead(block.deltas, n);
      hide PartlyRead;
      while Truncate32(|uids|) < block.numUids
        invariant fresh(tmpUids) && Truncate32(|uids|) == |uids|
        invariant |values| == 4 * groups && |values| < n + 4
        invariant uids == [block.base] + Sums(block.base, values)
        invariant PartlyRead(block.deltas, n, values, encData)
        decreases n + 4 - |values|
      {
        ReadGroup(block.deltas, n, values, encData);
        encData := PadShort(encData);
        Decode4(tmpUids, encData);
        encData := encData[BytesUsed(encData[0])..];
        AppendSums(tmpUids, block.base, values);
        values, groups := values + tmpUids[..], groups + 1;
        NoWrap(groups, block.numUids);
      }
      AllRead(block.deltas, n, values, encData);
      RestoredUids(block, values, n, uids);
    }

    /** The reads of the group decoder reach 16 bytes past the header: short data is copied into a window of 17. */
    static method PadShort(data: seq<Byte>) returns (w: seq<Byte>)
      ensures w == Padded(data)
    {
      w := data;
      if |data| < 17 {
        var tmp := new Byte[17](i => if 0 <= i < |data| then data[i] else 0);
        w := tmp[..];
      }
    }

    method AppendSums(tmpUids: array<Uint32>, base: Uint64, ghost values: seq<Uint32>)
      requires tmpUids.Length == 4 && uids == [base] + Sums(base, values)
      modifies `uids
      ensures uids == [base] + Sums(base, values + tmpUids[..])
    {
      hide Add64;
      var last := uids[|uids| - 1];
      assert values + tmpUids[..0] == values;
      for i := 0 to 4
        invariant uids == [base] + Sums(base, values + tmpUids[..i]) && last == uids[|uids| - 1]
      {
        var sum := Add64(last, tmpUids[i]);
        assert (values + tmpUids[..i + 1])[..|values| + i] == values + tmpUids[..i];
        uids := uids + [sum];
        last := sum;
      }
      assert tmpUids[..4] == tmpUids[..];
    }

    method Next() returns (r: seq<Uint64>)
      requires pack != null && AllUnpackable(pack.blocks)
      modifies `blockIdx, `uids
      ensures blockIdx == old(blockIdx) + 1
      ensures r == uids == BlockUidsAt(pack.blocks, blockIdx) && (uids != [] ==> blockIdx < |pack.blocks|)
      ensures old(uids) != [] ==> old(Remaining()) == old(uids) + Remaining()
      ensures uids == [] ==> Remaining() == []
      ensures Remaining() == Drain(pack.blocks, blockIdx)
    {
      hide BlockUidsAt, Drain, Unpackable;
      blockIdx := blockIdx + 1;
      r := UnpackBlock();
    }

    /** Moves to the ids sought; a zero `uid` means the start of the pack and ignores `whence`. */
    method Seek(uid: Uint64, whence: SeekPos) returns (r: seq<Uint64>)
      requires pack != null ==> AllUnpackable(pack.blocks)
      modifies `blockIdx, `uids
      ensures pack == null ==> r == [] && blockIdx == old(blockIdx) && uids == old(uids)
      ensures pack != null ==> r == uids && (uids != [] ==> blockIdx < |pack.blocks|)
      ensures pack != null ==> Remaining() == SeekRest(pack.blocks, uid, whence) && (uids == [] ==> Remaining() == [])
      ensures pack != null ==> blockIdx == SeekStand(pack.blocks, uid, whence)
      ensures pack != null ==> EndOfBlock(pack.blocks, blockIdx, uids)
    {
      hide BlockUids, Drain, Unpackable, SeekRest, SeekStand, SeekBlock, SeekUid, Wanted;
      if pack == null {
        return [];
      }
      SeekRestCases(pack.blocks, uid, whence);
      blockIdx := 0;
      if uid == 0 {
        r := UnpackBlock();
        return;
      }
      var blocks := pack.blocks;
      var idx := SearchBases(blocks, uid, whence);
      if idx == 0 {
        r := UnpackBlock();
        return;
      }
      if idx < |blocks| && blocks[idx].base == uid {
        blockIdx := idx;
        r := UnpackBlock();
        return;
      }
      blockIdx := idx - 1;
      r := SeekInBlock(uid, whence);
    }

    /** The search inside the block before the one found; if nothing is wanted there, the next block is. */
    method SeekInBlock(uid: Uint64, whence: SeekPos) returns (r: seq<Uint64>)
      requires pack != null && AllUnpackable(pack.blocks) && blockIdx < |pack.blocks|
      modifies `blockIdx, `uids
      ensures r == uids && (uids != [] ==> blockIdx < |pack.blocks|)
      ensures var all := BlockUids(pack.blocks[old(blockIdx)]);
              && Remaining() == all[SeekUid(all, uid, whence)..] + Drain(pack.blocks, old(blockIdx) + 1)
              && blockIdx == old(blockIdx) + if SeekUid(all, uid, whence) < |all| then 0 else 1
      ensures EndOfBlock(pack.blocks, blockIdx, uids)
    {
      hide BlockUids, Drain, Unpackable, SeekUid;
      r := UnpackBlock();
      ghost var all, after := uids, Drain(pack.blocks, blockIdx + 1);
      assert all == BlockUids(pack.blocks[blockIdx]);
      var uidx := SearchUids(uids, uid, whence);
      if uidx < |uids| {
        uids := uids[uidx..];
        assert Remaining() == all[uidx..] + after;
        return uids;
      }
      r := Next();
      assert all[uidx..] + after == after == Remaining();
    }

    static method SearchBases(blocks: seq<UidBlock>, uid: Uint64, whence: SeekPos) returns (idx: nat)
      ensures idx == SeekBlock(blocks, uid, whence)
    {
      idx := Search(|blocks|, BaseWanted(blocks, uid, whence));
    }

    static method SearchUids(uids: seq<Uint64>, uid: Uint64, whence: SeekPos) returns (uidx: nat)
      ensures uidx == SeekUid(uids, uid, whence)
    {
      uidx := Search(|uids|, UidWanted(uids, uid, whence));
    }

    method PeekNextBase() returns (base: Uint64)
      requires pack != null
      ensures base == PeekBase(pack.blocks, blockIdx)
      ensures base == if blockIdx + 1 < |pack.blocks| then pack.blocks[blockIdx + 1].base else 0xFFFF_FFFF_FFFF_FFFF
    {
      var bidx := blockIdx + 1;
      if bidx < |pack.blocks| {
        return pack.blocks[bidx].base;
      }
      return MAX_UINT64;
    }

    /** Moves forward only. The loop would not end for the largest id, which every base is at most. */
    method LinearSeek(seek: Uint64) returns (r: seq<Uint64>)
      requires pack != null && AllUnpackable(pack.blocks) && seek < MAX_UINT64
      modifies `blockIdx, `uids
      ensures blockIdx == LinearTarget(pack.blocks, old(blockIdx), seek)
      ensures FirstStop(pack.blocks, old(blockIdx), blockIdx, seek)
      ensures r == uids == BlockUidsAt(pack.blocks, blockIdx)
    {
      while true
        invariant LinearTarget(pack.blocks, blockIdx, seek) == LinearTarget(pack.blocks, old(blockIdx), seek)
        decreases |pack.blocks| - blockIdx
      {
        hide FirstStop;
        var v := PeekNextBase();
        if seek < v {
          break;
        }
        blockIdx := blockIdx + 1;
      }
      hide FirstStop;
      LinearTargetIsFirst(pack.blocks, old(blockIdx), seek);
      r := UnpackBlock();
    }
  }
}
