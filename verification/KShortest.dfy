/** Why cost vectors can be compared at all: they do not depend on how ties between paths are broken, and their
    first entry is the shortest-walk distance. The path searches themselves enter by their contracts. */
module KShortest {
  import opened Options
  import opened Oracles

  type Edges = map<(int, int), real>

  predicate Loopless(p: seq<int>) {
    forall i, j :: 0 <= i < j < |p| ==> p[i] != p[j]
  }

  predicate IsWalk(edges: Edges, s: int, t: int, p: seq<int>) {
    p != [] && p[0] == s && p[|p| - 1] == t && Cost(edges, p).Some?
  }

  predicate IsPath(edges: Edges, s: int, t: int, p: seq<int>) {
    IsWalk(edges, s, t, p) && Loopless(p)
  }

  function CostOf(edges: Edges, p: seq<int>): real {
    match Cost(edges, p)
    case Some(w) => w
    case None => 0.0
  }

  /** The contract of the k-shortest search: distinct loopless paths, at most `k`, and a path is left out only
      if there are `k` others, none of them costlier. */
  ghost predicate IsKShortest(edges: Edges, s: int, t: int, k: nat, ps: seq<seq<int>>) {
    && |ps| <= k
    && (forall i :: 0 <= i < |ps| ==> IsPath(edges, s, t, ps[i]))
    && (forall i, j :: 0 <= i < j < |ps| ==> ps[i] != ps[j])
    && (forall q :: IsPath(edges, s, t, q) && q !in ps ==>
          |ps| == k && forall p :: p in ps ==> CostOf(edges, p) <= CostOf(edges, q))
  }

  /** The contract of the single-source search, for one target. */
  ghost predicate IsDistance(edges: Edges, s: int, t: int, d: Option<real>) {
    match d
    case None => forall p :: !IsWalk(edges, s, t, p)
    case Some(w) =>
      && (exists p :: IsWalk(edges, s, t, p) && CostOf(edges, p) == w)
      && (forall p :: IsWalk(edges, s, t, p) ==> w <= CostOf(edges, p))
  }

  //
  // Cost vectors
  //

  function Costs(edges: Edges, ps: seq<seq<int>>): (ws: seq<real>)
    ensures |ws| == |ps|
  {
    if ps == [] then [] else Costs(edges, ps[..|ps| - 1]) + [CostOf(edges, ps[|ps| - 1])]
  }

  predicate Sorted(ws: seq<real>) {
    forall i, j :: 0 <= i < j < |ws| ==> ws[i] <= ws[j]
  }

  function Insert(w: real, ws: seq<real>): seq<real> {
    if ws == [] || w <= ws[0] then [w] + ws else [ws[0]] + Insert(w, ws[1..])
  }

  function SortReals(ws: seq<real>): seq<real> {
    if ws == [] then [] else Insert(ws[0], SortReals(ws[1..]))
  }

  lemma SortedCons(w: real, ws: seq<real>)
    requires Sorted(ws) && forall i :: 0 <= i < |ws| ==> w <= ws[i]
    ensures Sorted([w] + ws)
  {
  }

  lemma SortedHead(ws: seq<real>, x: real)
    requires Sorted(ws) && x in multiset(ws)
    ensures ws != [] && ws[0] <= x && Sorted(ws[1..])
    ensures multiset(ws) == multiset(ws[1..]) + multiset{ws[0]} && multiset(ws[1..]) == multiset(ws) - multiset{ws[0]}
  {
    assert ws == [ws[0]] + ws[1..];
  }

  lemma {:induction false} InsertSorts(w: real, ws: seq<real>)
    requires Sorted(ws)
    ensures Sorted(Insert(w, ws)) && multiset(Insert(w, ws)) == multiset(ws) + multiset{w}
  {
    hide Sorted;
    if ws == [] || w <= ws[0] {
      forall i | 0 <= i < |ws|
        ensures w <= ws[i]
      {
        SortedHead(ws, ws[i]);
      }
      SortedCons(w, ws);
    } else {
      var rest := Insert(w, ws[1..]);
      SortedHead(ws, ws[0]);
      InsertSorts(w, ws[1..]);
      forall i | 0 <= i < |rest|
        ensures ws[0] <= rest[i]
      {
        assert rest[i] in multiset(rest);
        if rest[i] != w {
          SortedHead(ws, rest[i]);
        }
      }
      SortedCons(ws[0], rest);
    }
  }

  lemma {:induction false} SortRealsSorts(ws: seq<real>)
    ensures Sorted(SortReals(ws)) && multiset(SortReals(ws)) == multiset(ws)
  {
    if ws != [] {
      SortRealsSorts(ws[1..]);
      InsertSorts(ws[0], SortReals(ws[1..]));
      assert ws == [ws[0]] + ws[1..];
    }
  }

  lemma SameHead(a: seq<real>, b: seq<real>)
    requires Sorted(a) && Sorted(b) && multiset(a) == multiset(b) && a != []
    ensures b != [] && a[0] == b[0] && multiset(a[1..]) == multiset(b[1..]) && Sorted(a[1..]) && Sorted(b[1..])
  {
    hide Sorted;
    assert a[0] in multiset(a);
    SortedHead(b, a[0]);
    assert b[0] in multiset(b);
    SortedHead(a, b[0]);
  }

  lemma {:induction false} SortedUnique(a: seq<real>, b: seq<real>)
    requires Sorted(a) && Sorted(b) && multiset(a) == multiset(b)
    ensures a == b
  {
    hide Sorted;
    if a != [] {
      SameHead(a, b);
      SortedUnique(a[1..], b[1..]);
      assert a == [a[0]] + a[1..] && b == [b[0]] + b[1..];
    } else if b != [] {
      SameHead(b, a);
    }
  }

  /** The oracle's answer for the paths `found` by the search. */
  method TopK(g: Graph, s: int, t: int, ghost k: nat, found: seq<seq<int>>) returns (r: TopKResult)
    requires s in g.nodes && t in g.nodes ==> IsKShortest(g.edges, s, t, k, found)
    ensures s !in g.nodes ==> r == NoAnswer(NotInGraph(s))
    ensures s in g.nodes && t !in g.nodes ==> r == NoAnswer(NotInGraph(t))
    ensures s in g.nodes && t in g.nodes ==>
              r.Answer? && Sorted(r.weights) && multiset(r.weights) == multiset(Costs(g.edges, found))
    ensures s in g.nodes && t in g.nodes ==>
              forall i :: 0 <= i < |found| ==> Costs(g.edges, found)[i] == StepSum(g.edges, found[i])
  {
    if s !in g.nodes {
      return NoAnswer(NotInGraph(s));
    }
    if t !in g.nodes {
      return NoAnswer(NotInGraph(t));
    }
    var weights := [];
    for i := 0 to |found|
      invariant weights == Costs(g.edges, found[..i])
    {
      assert IsPath(g.edges, s, t, found[i]);
      assert found[..i + 1][..i] == found[..i];
      var w := g.PathWeight(found[i]);
      match w
      case Failed(e) => return NoAnswer(e);
      case Weight(v) => weights := weights + [v];
    }
    assert found[..|found|] == found;
    SortRealsSorts(weights);
    forall i | 0 <= i < |found|
      ensures Costs(g.edges, found)[i] == StepSum(g.edges, found[i])
    {
      assert IsPath(g.edges, s, t, found[i]);
      CostsAt(g.edges, found, i);
      CostIsSum(g.edges, found[i]);
    }
    return Answer(SortReals(weights));
  }

  datatype TopKResult = Answer(weights: seq<real>) | NoAnswer(error: Error)

  //
  // Ties do not matter
  //

  predicate Distinct<T(==)>(s: seq<T>) {
    forall i, j :: 0 <= i < j < |s| ==> s[i] != s[j]
  }

  function Without<T>(s: seq<T>, i: nat): (r: seq<T>)
    requires i < |s|
    ensures |r| == |s| - 1
  {
    s[..i] + s[i + 1..]
  }

  lemma WithoutDistinct<T>(s: seq<T>, i: nat)
    requires i < |s| && Distinct(s)
    ensures Distinct(Without(s, i)) && forall x :: x in Without(s, i) <==> x in s && x != s[i]
  {
    var r := Without(s, i);
    assert forall j :: 0 <= j < |r| ==> r[j] == if j < i then s[j] else s[j + 1];
    forall x | x in s && x != s[i]
      ensures x in r
    {
      var j :| 0 <= j < |s| && s[j] == x;
      assert r[if j < i then j else j - 1] == x;
    }
  }

  lemma WithoutSnoc<T>(s: seq<T>, i: nat)
    requires i < |s| - 1
    ensures var n := |s| - 1; Without(s, i) == Without(s[..n], i) + [s[n]]
  {
  }

  lemma WithoutLast<T>(s: seq<T>)
    requires s != []
    ensures Without(s, |s| - 1) == s[..|s| - 1]
  {
  }

  lemma CostsSnoc(edges: Edges, ps: seq<seq<int>>, p: seq<int>)
    ensures Costs(edges, ps + [p]) == Costs(edges, ps) + [CostOf(edges, p)]
  {
    hide CostOf;
    assert (ps + [p])[..|ps|] == ps;
  }

  lemma {:induction false} CostsWithout(edges: Edges, ps: seq<seq<int>>, i: nat)
    requires i < |ps|
    ensures multiset(Costs(edges, ps)) == multiset(Costs(edges, Without(ps, i))) + multiset{CostOf(edges, ps[i])}
    decreases |ps|
  {
    hide CostOf, Without, Costs;
    var n := |ps| - 1;
    assert ps == ps[..n] + [ps[n]];
    CostsSnoc(edges, ps[..n], ps[n]);
    if i < n {
      CostsWithout(edges, ps[..n], i);
      WithoutSnoc(ps, i);
      CostsSnoc(edges, Without(ps[..n], i), ps[n]);
    } else {
      WithoutLast(ps);
    }
  }

  /** A distinct list inside an equally long one has all its members. */
  lemma {:induction false} SameMembers<T>(a: seq<T>, b: seq<T>)
    requires Distinct(a) && Distinct(b) && |a| >= |b| && forall x :: x in a ==> x in b
    ensures forall x :: x in b ==> x in a
    decreases |a|
  {
    if a != [] {
      var n := |a| - 1;
      assert a[n] in b;
      var j :| 0 <= j < |b| && b[j] == a[n];
      WithoutDistinct(a, n);
      WithoutDistinct(b, j);
      assert Without(a, n) == a[..n];
      SameMembers(Without(a, n), Without(b, j));
    }
  }

  /** If the members the two lists do not share all cost the same, the lists have the same costs. */
  lemma {:induction false} ExchangeKeepsCosts(edges: Edges, a: seq<seq<int>>, b: seq<seq<int>>)
    requires Distinct(a) && Distinct(b) && |a| == |b|
    requires forall p, q :: p in a && p !in b && q in b && q !in a ==> CostOf(edges, p) == CostOf(edges, q)
    ensures multiset(Costs(edges, a)) == multiset(Costs(edges, b))
    decreases |a|
  {
    hide CostOf, Without, Costs;
    if a == [] {
      assert Costs(edges, a) == Costs(edges, b);
    } else {
      var j := Partner(a, b);
      assert CostOf(edges, a[0]) == CostOf(edges, b[j]);
      WithoutDistinct(a, 0);
      WithoutDistinct(b, j);
      CostsWithout(edges, a, 0);
      CostsWithout(edges, b, j);
      ExchangeKeepsCosts(edges, Without(a, 0), Without(b, j));
    }
  }

  /** The first member of `a` itself if `b` has it, and otherwise some member of `b` that `a` lacks. */
  lemma Partner(a: seq<seq<int>>, b: seq<seq<int>>) returns (j: nat)
    requires Distinct(a) && Distinct(b) && |a| == |b| && a != []
    ensures j < |b| && (b[j] == a[0] || (a[0] !in b && b[j] !in a))
  {
    if a[0] in b {
      j :| 0 <= j < |b| && b[j] == a[0];
    } else {
      if forall i :: 0 <= i < |b| ==> b[i] in a {
        SameMembers(b, a);
        assert false;
      }
      j :| 0 <= j < |b| && b[j] !in a;
    }
  }

  /** Any two correct selections of the `k` cheapest paths have the same sorted cost vector. */
  lemma TiesDoNotMatter(edges: Edges, s: int, t: int, k: nat, a: seq<seq<int>>, b: seq<seq<int>>)
    requires IsKShortest(edges, s, t, k, a) && IsKShortest(edges, s, t, k, b)
    ensures SortReals(Costs(edges, a)) == SortReals(Costs(edges, b))
  {
    hide CostOf, IsPath, Costs, SortReals;
    SameCount(edges, s, t, k, a, b);
    SameCount(edges, s, t, k, b, a);
    ExchangeKeepsCosts(edges, a, b);
    SortRealsSorts(Costs(edges, a));
    SortRealsSorts(Costs(edges, b));
    SortedUnique(SortReals(Costs(edges, a)), SortReals(Costs(edges, b)));
  }

  lemma SameCount(edges: Edges, s: int, t: int, k: nat, a: seq<seq<int>>, b: seq<seq<int>>)
    requires IsKShortest(edges, s, t, k, a) && IsKShortest(edges, s, t, k, b)
    ensures |a| >= |b|
  {
    hide CostOf, IsPath;
    if |a| < |b| {
      assert forall q :: q in b ==> q in a;
      TooMany(b, a);
    }
  }

  lemma {:induction false} TooMany<T>(a: seq<T>, b: seq<T>)
    requires Distinct(a) && Distinct(b) && forall x :: x in a ==> x in b
    ensures |a| <= |b|
    decreases |a|
  {
    if a != [] {
      var n := |a| - 1;
      assert a[n] in b;
      var j :| 0 <= j < |b| && b[j] == a[n];
      WithoutDistinct(a, n);
      WithoutDistinct(b, j);
      TooMany(Without(a, n), Without(b, j));
    }
  }

  //
  // A selection always exists
  //

  function Nodes(edges: Edges, s: int): set<int> {
    {s} + (set p | p in edges :: p.0) + (set p | p in edges :: p.1)
  }

  function Extend(p: seq<int>, x: int): seq<int> {
    p + [x]
  }

  function AllSeqs(nodes: set<int>, n: nat): set<seq<int>> {
    if n == 0 then {[]} else
      var shorter := AllSeqs(nodes, n - 1);
      shorter + set p, x | p in shorter && x in nodes :: Extend(p, x)
  }

  lemma {:induction false} AllSeqsHas(nodes: set<int>, n: nat, p: seq<int>)
    requires |p| <= n && forall x :: x in p ==> x in nodes
    ensures p in AllSeqs(nodes, n)
    decreases n
  {
    if n > 0 {
      if p == [] {
        AllSeqsHas(nodes, n - 1, p);
      } else {
        var m := |p| - 1;
        AllSeqsHas(nodes, n - 1, p[..m]);
        assert p[m] in p && p == Extend(p[..m], p[m]);
      }
    }
  }

  /** The loopless paths from `s` to `t`; there are finitely many. */
  function Paths(edges: Edges, s: int, t: int): set<seq<int>> {
    set p | p in AllSeqs(Nodes(edges, s), |Nodes(edges, s)|) && IsPath(edges, s, t, p)
  }

  lemma {:induction false} WalkNodes(edges: Edges, p: seq<int>, i: nat)
    requires i < |p| && Cost(edges, p).Some?
    ensures p[i] in Nodes(edges, p[0])
    decreases |p|
  {
    var n := |p| - 1;
    if 0 < i {
      if i < n {
        WalkNodes(edges, p[..n], i);
      } else {
        WalkNodes(edges, p[..n], n - 1);
        assert WeightOf(edges, p[n - 1], p[n]).Some?;
        assert p[n - 1] == p[n] || (p[n - 1], p[n]) in edges;
      }
    }
  }

  lemma {:induction false} LooplessIsShort(p: seq<int>, nodes: set<int>)
    requires Loopless(p) && forall x :: x in p ==> x in nodes
    ensures |p| <= |nodes|
    decreases |p|
  {
    if p != [] {
      var n := |p| - 1;
      assert p[n] in p && nodes == nodes - {p[n]} + {p[n]};
      LooplessIsShort(p[..n], nodes - {p[n]});
    }
  }

  lemma PathsAreAll(edges: Edges, s: int, t: int, p: seq<int>)
    ensures p in Paths(edges, s, t) <==> IsPath(edges, s, t, p)
  {
    hide Cost, Nodes, AllSeqs, Loopless;
    if IsPath(edges, s, t, p) {
      forall x | x in p
        ensures x in Nodes(edges, s)
      {
        var i :| 0 <= i < |p| && p[i] == x;
        WalkNodes(edges, p, i);
      }
      LooplessIsShort(p, Nodes(edges, s));
      AllSeqsHas(Nodes(edges, s), |Nodes(edges, s)|, p);
    }
  }

  lemma {:induction false} Least(edges: Edges, paths: set<seq<int>>) returns (m: seq<int>)
    requires paths != {}
    ensures m in paths && forall p :: p in paths ==> CostOf(edges, m) <= CostOf(edges, p)
    decreases |paths|
  {
    hide CostOf;
    m :| m in paths;
    var rest := paths - {m};
    if rest != {} {
      var r := Least(edges, rest);
      if CostOf(edges, r) < CostOf(edges, m) {
        m := r;
      }
    }
  }

  /** The `k` cheapest of a finite set, or all of it. */
  lemma {:induction false} Cheapest(edges: Edges, paths: set<seq<int>>, k: nat) returns (ps: seq<seq<int>>)
    ensures |ps| == (if |paths| < k then |paths| else k) && Distinct(ps) && forall p :: p in ps ==> p in paths
    ensures forall q :: q in paths && q !in ps ==>
              |ps| == k && forall p :: p in ps ==> CostOf(edges, p) <= CostOf(edges, q)
    decreases k
  {
    hide CostOf;
    if k == 0 || paths == {} {
      ps := [];
    } else {
      var m := Least(edges, paths);
      var rest := Cheapest(edges, paths - {m}, k - 1);
      ps := [m] + rest;
    }
  }

  /** For every graph, pair of nodes and `k` the search has an answer to find, and every answer has as many paths
      as there are, up to `k`. */
  lemma SelectionExists(edges: Edges, s: int, t: int, k: nat)
    ensures exists ps :: IsKShortest(edges, s, t, k, ps)
    ensures forall ps :: IsKShortest(edges, s, t, k, ps) ==>
              |ps| == if |Paths(edges, s, t)| < k then |Paths(edges, s, t)| else k
  {
    hide CostOf, IsPath, Paths, IsKShortest;
    var ps := Cheapest(edges, Paths(edges, s, t), k);
    CheapestIsSelection(edges, s, t, k, ps);
    forall qs | IsKShortest(edges, s, t, k, qs)
      ensures |qs| == |ps|
    {
      SameCount(edges, s, t, k, ps, qs);
      SameCount(edges, s, t, k, qs, ps);
    }
  }

  lemma CheapestIsSelection(edges: Edges, s: int, t: int, k: nat, ps: seq<seq<int>>)
    requires |ps| <= k && Distinct(ps) && forall p :: p in ps ==> p in Paths(edges, s, t)
    requires forall q :: q in Paths(edges, s, t) && q !in ps ==>
               |ps| == k && forall p :: p in ps ==> CostOf(edges, p) <= CostOf(edges, q)
    ensures IsKShortest(edges, s, t, k, ps)
  {
    hide CostOf, IsPath, Paths;
    forall p
      ensures p in Paths(edges, s, t) <==> IsPath(edges, s, t, p)
    {
      PathsAreAll(edges, s, t, p);
    }
  }

  //
  // Deleting loops
  //

  lemma {:induction false} CostSplit(edges: Edges, p: seq<int>, i: nat)
    requires i < |p|
    ensures var l, r := Cost(edges, p[..i + 1]), Cost(edges, p[i..]);
            Cost(edges, p) == if l.Some? && r.Some? then Some(l.value + r.value) else None
    decreases |p|
  {
    hide WeightOf;
    var n := |p| - 1;
    if i == n {
      assert p[..i + 1] == p;
    } else {
      CostSplit(edges, p[..n], i);
      var r := p[i..];
      assert p[..n][..i + 1] == p[..i + 1] && p[..n][i..] == r[..n - i] && r[n - i - 1] == p[n - 1] && r[n - i] == p[n];
    }
  }

  lemma {:induction false} CostNonNegative(edges: Edges, p: seq<int>)
    requires ValidEdges(edges) && Cost(edges, p).Some?
    ensures Cost(edges, p).value >= 0.0
    decreases |p|
  {
    if |p| > 1 {
      CostNonNegative(edges, p[..|p| - 1]);
    }
  }

  /** Cutting out a stretch that returns to where it began leaves a walk that costs no more. */
  lemma CutLoop(edges: Edges, p: seq<int>, i: nat, j: nat) returns (q: seq<int>)
    requires ValidEdges(edges) && Cost(edges, p).Some? && i < j < |p| && p[i] == p[j]
    ensures Cost(edges, q).Some? && Cost(edges, q).value <= Cost(edges, p).value && |q| < |p|
    ensures q != [] && q[0] == p[0] && q[|q| - 1] == p[|p| - 1]
  {
    hide Cost, ValidEdges;
    q := p[..i] + p[j..];
    CostSplit(edges, p, i);
    CostSplit(edges, p[i..], j - i);
    CostSplit(edges, q, i);
    assert p[i..][j - i..] == p[j..] && q[..i + 1] == p[..i + 1] && q[i..] == p[j..];
    CostNonNegative(edges, p[i..][..j - i + 1]);
  }

  lemma {:induction false} MakeLoopless(edges: Edges, s: int, t: int, p: seq<int>) returns (q: seq<int>)
    requires ValidEdges(edges) && IsWalk(edges, s, t, p)
    ensures IsPath(edges, s, t, q) && CostOf(edges, q) <= CostOf(edges, p)
    decreases |p|
  {
    hide Cost, ValidEdges;
    if i, j :| 0 <= i < j < |p| && p[i] == p[j] {
      q := CutLoop(edges, p, i, j);
      q := MakeLoopless(edges, s, t, q);
    } else {
      q := p;
    }
  }

  /** Top-1 of the k-shortest answer is the single-source distance: no answer exactly when the target cannot be
      reached, and otherwise the first cost is the least over all walks, loops included. */
  lemma TopOneIsDistance(
      edges: Edges, s: int, t: int, k: nat, found: seq<seq<int>>, weights: seq<real>, d: Option<real>)
    requires ValidEdges(edges) && k > 0 && IsKShortest(edges, s, t, k, found) && IsDistance(edges, s, t, d)
    requires Sorted(weights) && multiset(weights) == multiset(Costs(edges, found))
    ensures found == [] <==> d == None
    ensures d.Some? ==> weights != [] && weights[0] == d.value
  {
    hide Cost, ValidEdges, IsWalk, Loopless, CostOf, Costs;
    if d.None? {
      FoundIsWalk(edges, s, t, k, found);
    } else {
      var p :| IsWalk(edges, s, t, p) && CostOf(edges, p) == d.value;
      var q := MakeLoopless(edges, s, t, p);
      CheaperFound(edges, s, t, k, found, q);
      var b :| 0 <= b < |found| && CostOf(edges, found[b]) <= CostOf(edges, q);
      assert IsPath(edges, s, t, found[b]);
      FirstWeight(edges, found, weights, b);
    }
  }

  lemma FoundIsWalk(edges: Edges, s: int, t: int, k: nat, found: seq<seq<int>>)
    requires IsKShortest(edges, s, t, k, found)
    ensures found != [] ==> IsWalk(edges, s, t, found[0])
  {
    assert found != [] ==> IsPath(edges, s, t, found[0]);
  }

  lemma CheaperFound(edges: Edges, s: int, t: int, k: nat, found: seq<seq<int>>, q: seq<int>)
    requires k > 0 && IsKShortest(edges, s, t, k, found) && IsPath(edges, s, t, q)
    ensures exists b :: 0 <= b < |found| && CostOf(edges, found[b]) <= CostOf(edges, q)
  {
    hide CostOf, IsPath;
    if q in found {
      var b :| 0 <= b < |found| && found[b] == q;
    } else {
      assert found[0] in found;
    }
  }

  lemma {:induction false} CostsAt(edges: Edges, ps: seq<seq<int>>, i: nat)
    requires i < |ps|
    ensures Costs(edges, ps)[i] == CostOf(edges, ps[i])
    decreases |ps|
  {
    hide CostOf;
    if i < |ps| - 1 {
      CostsAt(edges, ps[..|ps| - 1], i);
    }
  }

  lemma FirstWeight(edges: Edges, found: seq<seq<int>>, weights: seq<real>, b: nat)
    requires b < |found| && Sorted(weights) && multiset(weights) == multiset(Costs(edges, found))
    requires forall i :: 0 <= i < |found| ==> CostOf(edges, found[b]) <= CostOf(edges, found[i])
    ensures weights != [] && weights[0] == CostOf(edges, found[b])
  {
    hide CostOf, Costs;
    CostsAt(edges, found, b);
    var ws := Costs(edges, found);
    assert ws[b] in multiset(weights);
    var j :| 0 <= j < |weights| && weights[j] == ws[b];
    assert weights[0] in multiset(ws);
    var i :| 0 <= i < |ws| && ws[i] == weights[0];
    CostsAt(edges, found, i);
  }
}
