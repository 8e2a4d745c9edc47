/** A binary min-heap of counted keys, kept the way Go's `container/heap` keeps it. */
module OptimalHeaps {

  datatype Item = Item(key: string, hits: nat)

  function Parent(i: nat): (p: nat)
    requires i > 0
    ensures p < i
  {
    (i - 1) / 2
  }

  predicate IsHeap(s: seq<Item>) {
    forall i :: 0 < i < |s| ==> s[Parent(i)].hits <= s[i].hits
  }

  /** Only the item at `j` may be smaller than its parent; its children still respect its parent. */
  predicate HeapButUp(s: seq<Item>, j: nat) {
    && (forall i :: 0 < i < |s| && i != j ==> s[Parent(i)].hits <= s[i].hits)
    && (forall i :: 0 < i < |s| && Parent(i) == j && j > 0 ==> s[Parent(j)].hits <= s[i].hits)
  }

  /** Among the first `n` items only the one at `j` may be larger than its children. */
  predicate HeapButDown(s: seq<Item>, j: nat, n: nat)
    requires n <= |s|
  {
    && (forall i :: 0 < i < n && Parent(i) != j ==> s[Parent(i)].hits <= s[i].hits)
    && (forall i :: 0 < i < n && Parent(i) == j && j > 0 ==> s[Parent(j)].hits <= s[i].hits)
  }

  function Swapped(s: seq<Item>, i: nat, j: nat): (r: seq<Item>)
    requires i < |s| && j < |s|
    ensures |r| == |s| && multiset(r) == multiset(s)
  {
    s[i := s[j]][j := s[i]]
  }

  lemma {:induction false} RootIsLeast(s: seq<Item>, i: nat)
    requires IsHeap(s) && i < |s|
    ensures s[0].hits <= s[i].hits
  {
    if i > 0 {
      RootIsLeast(s, Parent(i));
    }
  }

  class OptimalHeap {
    var items: seq<Item>

    constructor ()
      ensures items == []
    {
      items := [];
    }

    method Swap(i: nat, j: nat)
      requires i < |items| && j < |items|
      modifies this
      ensures items == Swapped(old(items), i, j)
    {
      items := items[i := items[j]][j := items[i]];
    }

    method Up(start: nat)
      requires start < |items| && HeapButUp(items, start)
      modifies this
      ensures IsHeap(items) && multiset(items) == multiset(old(items))
    {
      hide IsHeap, HeapButUp, Swapped;
      var j: nat := start;
      while true
        invariant j < |items| && HeapButUp(items, j) && multiset(items) == multiset(old(items))
        decreases j
      {
        var i := if j == 0 then 0 else (j - 1) / 2;
        if i == j || !(items[j].hits < items[i].hits) {
          UpDone(items, j);
          break;
        }
        UpStep(items, j);
        Swap(i, j);
        j := i;
      }
    }

    method Down(start: nat, n: nat)
      requires n <= |items| && HeapButDown(items, start, n)
      modifies this
      ensures |items| == |old(items)| && items[n..] == old(items)[n..]
      ensures multiset(items) == multiset(old(items))
      ensures IsHeap(items[..n])
    {
      hide IsHeap, HeapButDown, Swapped;
      var i: nat := start;
      while true
        invariant |items| == |old(items)| && items[n..] == old(items)[n..]
        invariant HeapButDown(items, i, n) && multiset(items) == multiset(old(items))
        decreases n - i
      {
        var j1 := 2 * i + 1;
        if j1 >= n {
          DownDone(items, i, n);
          break;
        }
        var j := j1;
        var j2 := j1 + 1;
        if j2 < n && items[j2].hits < items[j1].hits {
          j := j2;
        }
        if !(items[j].hits < items[i].hits) {
          DownDone(items, i, n);
          break;
        }
        DownStep(items, i, j, n);
        Swap(i, j);
        i := j;
      }
    }

    method Push(x: Item)
      requires IsHeap(items)
      modifies this
      ensures IsHeap(items) && multiset(items) == multiset(old(items)) + multiset{x}
    {
      items := items + [x];
      Up(|items| - 1);
    }

    /** Removes an item with the least count. */
    method Pop() returns (x: Item)
      requires IsHeap(items) && items != []
      modifies this
      ensures IsHeap(items) && x in old(items) && multiset(items) == multiset(old(items)) - multiset{x}
      ensures forall y :: y in old(items) ==> x.hits <= y.hits
    {
      hide IsHeap, HeapButDown, Swapped;
      ghost var before := items;
      var n := |items| - 1;
      RootBelowAll(before);
      RootLeaves(before);
      Swap(0, n);
      Down(0, n);
      x := items[n];
      assert x == items[n..][0] == before[0];
      assert items == items[..n] + [x];
      items := items[..n];
    }
  }

  lemma RootBelowAll(s: seq<Item>)
    requires IsHeap(s) && s != []
    ensures forall y :: y in s ==> s[0].hits <= y.hits
  {
    forall y | y in s
      ensures s[0].hits <= y.hits
    {
      var i :| 0 <= i < |s| && s[i] == y;
      RootIsLeast(s, i);
    }
  }

  lemma RootLeaves(s: seq<Item>)
    requires IsHeap(s) && s != []
    ensures var n := |s| - 1; HeapButDown(Swapped(s, 0, n), 0, n) && Swapped(s, 0, n)[n..] == [s[0]]
  {
  }

  lemma UpStep(s: seq<Item>, j: nat)
    requires 0 < j < |s| && HeapButUp(s, j) && s[j].hits < s[Parent(j)].hits
    ensures HeapButUp(Swapped(s, Parent(j), j), Parent(j))
  {
    var t, p := Swapped(s, Parent(j), j), Parent(j);
    forall i | 0 < i < |t| && i != p
      ensures t[Parent(i)].hits <= t[i].hits
    {
      assert i != j ==> s[Parent(i)].hits <= s[i].hits;
    }
  }

  lemma UpDone(s: seq<Item>, j: nat)
    requires j < |s| && HeapButUp(s, j) && (j > 0 ==> s[Parent(j)].hits <= s[j].hits)
    ensures IsHeap(s)
  {
  }

  lemma DownStep(s: seq<Item>, i: nat, j: nat, n: nat)
    requires n <= |s| && HeapButDown(s, i, n) && j < n && (j == 2 * i + 1 || j == 2 * i + 2) && s[j].hits < s[i].hits
    requires s[j].hits <= s[2 * i + 1].hits && (2 * i + 2 < n ==> s[j].hits <= s[2 * i + 2].hits)
    ensures HeapButDown(Swapped(s, i, j), j, n) && Swapped(s, i, j)[n..] == s[n..]
  {
    hide Parent, Swapped;
    var t := Swapped(s, i, j);
    SwappedAt(s, i, j);
    Child(j, i);
    forall k | 0 < k < n && Parent(k) != j
      ensures t[Parent(k)].hits <= t[k].hits
    {
      Child(k, i);
    }
    forall k | 0 < k < n && Parent(k) == j
      ensures t[Parent(j)].hits <= t[k].hits
    {
      Child(k, j);
    }
  }

  lemma Child(k: nat, i: nat)
    requires k > 0
    ensures Parent(k) == i <==> k == 2 * i + 1 || k == 2 * i + 2
  {
  }

  lemma SwappedAt(s: seq<Item>, i: nat, j: nat)
    requires i < j < |s|
    ensures var t := Swapped(s, i, j);
            t[i] == s[j] && t[j] == s[i] && forall k :: 0 <= k < |s| && k != i && k != j ==> t[k] == s[k]
    ensures forall n :: j < n <= |s| ==> Swapped(s, i, j)[n..] == s[n..]
  {
  }

  lemma DownDone(s: seq<Item>, i: nat, n: nat)
    requires n <= |s| && HeapButDown(s, i, n)
    requires 2 * i + 1 < n ==> s[i].hits <= s[2 * i + 1].hits
    requires 2 * i + 2 < n ==> s[i].hits <= s[2 * i + 2].hits
    ensures IsHeap(s[..n])
  {
    assert forall k: nat :: k > 0 && Parent(k) == i ==> k == 2 * i + 1 || k == 2 * i + 2;
  }
}
