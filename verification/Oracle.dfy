/** The ground-truth graph: parallel edges collapse to the cheapest, self-loops are dropped, path costs are sums. */
module Oracles {

  import opened Options

  datatype Edge = Edge(src: int, dst: int, weight: real)

  datatype Error = NegativeWeight(edge: Edge) | NotInGraph(node: int) | MissingEdge(src: int, dst: int)

  /** The weight of an ordered pair; a node reaches itself for free, and an absent edge has no weight. */
  function WeightOf(edges: map<(int, int), real>, u: int, v: int): Option<real> {
    if u == v then Some(0.0) else if (u, v) in edges then Some(edges[(u, v)]) else None
  }

  ghost predicate ValidEdges(edges: map<(int, int), real>) {
    forall p :: p in edges ==> p.0 != p.1 && edges[p] >= 0.0
  }

  //
  // What a list of edges means: for each ordered pair the least weight, loops aside
  //

  ghost predicate Offers(list: seq<Edge>, p: (int, int), w: real) {
    Edge(p.0, p.1, w) in list && p.0 != p.1
  }

  /** `edges` holds exactly the pairs the list joins, each at the least weight listed for it. */
  ghost predicate MinMerge(edges: map<(int, int), real>, list: seq<Edge>) {
    && (forall p :: p in edges ==> Offers(list, p, edges[p]))
    && (forall p, w :: Offers(list, p, w) ==> p in edges && edges[p] <= w)
  }

  /** The nodes are those given and those the edges join. */
  ghost predicate Endpoints(nodes: set<int>, given: seq<int>, edges: map<(int, int), real>) {
    forall n :: n in nodes <==> n in given || exists p :: p in edges && (n == p.0 || n == p.1)
  }

  predicate NonNegative(list: seq<Edge>) {
    forall i :: 0 <= i < |list| ==> list[i].weight >= 0.0
  }

  class Graph {
    var nodes: set<int>
    var edges: map<(int, int), real>

    constructor ()
      ensures nodes == {} && edges == map[]
    {
      nodes, edges := {}, map[];
    }

    method AddNode(id: int)
      modifies this
      ensures nodes == old(nodes) + {id} && edges == old(edges)
    {
      if id !in nodes {
        nodes := nodes + {id};
      }
    }

    /** A negative weight is an error even on a self-loop; a dropped edge adds no node. */
    method AddEdge(src: int, dst: int, weight: real) returns (err: Option<Error>)
      modifies this
      ensures err == if weight < 0.0 then Some(NegativeWeight(Edge(src, dst, weight))) else None
      ensures err.Some? || src == dst ==> edges == old(edges) && nodes == old(nodes)
      ensures err.None? && src != dst ==>
                var p := (src, dst);
                if p in old(edges) && old(edges)[p] <= weight then edges == old(edges) && nodes == old(nodes)
                else edges == old(edges)[p := weight] && nodes == old(nodes) + {src, dst}
    {
      if weight < 0.0 {
        return Some(NegativeWeight(Edge(src, dst, weight)));
      }
      if src == dst {
        return None;
      }
      var p := (src, dst);
      if p in edges {
        if weight >= edges[p] {
          return None;
        }
        edges := edges - {p};
      }
      edges := edges[p := weight];
      nodes := nodes + {src, dst};
      return None;
    }

    /** The total weight along a node sequence, or the pair at which it leaves the graph. */
    method PathWeight(path: seq<int>) returns (r: Result)
      ensures Cost(edges, path).Some? ==> r == Weight(Cost(edges, path).value)
      ensures Cost(edges, path).None? ==>
                exists i :: 0 <= i < |path| - 1 && FirstGap(edges, path, i)
                            && path[i] != path[i + 1] && (path[i], path[i + 1]) !in edges
                            && r == Failed(MissingEdge(path[i], path[i + 1]))
      ensures r.Weight? <==> Connected(edges, path)
      ensures r.Weight? ==> r.weight == StepSum(edges, path)
    {
      CostIsSum(edges, path);
      var total := 0.0;
      var i := 0;
      while i + 1 < |path|
        invariant 0 <= i && (path != [] ==> i < |path|)
        invariant if path == [] then total == 0.0 else Cost(edges, path[..i + 1]) == Some(total)
      {
        assert path[..i + 2][..i + 1] == path[..i + 1];
        match WeightOf(edges, path[i], path[i + 1])
        case None =>
          CostIsSum(edges, path[..i + 1]);
          assert FirstGap(edges, path, i);
          return Failed(MissingEdge(path[i], path[i + 1]));
        case Some(w) =>
          total := total + w;
        i := i + 1;
      }
      assert path != [] ==> i + 1 == |path| && path[..i + 1] == path;
      return Weight(total);
    }
  }

  /** The walk leaves the graph at step `i` and not before. */
  predicate FirstGap(edges: map<(int, int), real>, path: seq<int>, i: nat)
    requires i + 1 < |path|
  {
    Connected(edges, path[..i + 1]) && WeightOf(edges, path[i], path[i + 1]).None?
  }

  /** Every step of the walk stays where it is or follows an edge. */
  predicate Connected(edges: map<(int, int), real>, path: seq<int>) {
    forall i :: 0 <= i < |path| - 1 ==> path[i] == path[i + 1] || (path[i], path[i + 1]) in edges
  }

  /** The weights of the edges a walk follows, added up; standing still costs nothing. */
  function StepSum(edges: map<(int, int), real>, path: seq<int>): real {
    if |path| <= 1 then 0.0 else
      (if path[0] != path[1] && (path[0], path[1]) in edges then edges[(path[0], path[1])] else 0.0)
      + StepSum(edges, path[1..])
  }

  lemma {:induction false} StepSumSnoc(edges: map<(int, int), real>, path: seq<int>)
    requires |path| > 1
    ensures var n := |path| - 1;
            StepSum(edges, path) == StepSum(edges, path[..n])
              + if path[n - 1] != path[n] && (path[n - 1], path[n]) in edges then edges[(path[n - 1], path[n])] else 0.0
    decreases |path|
  {
    var n := |path| - 1;
    if n > 1 {
      StepSumSnoc(edges, path[1..]);
      assert path[1..][..n - 1] == path[..n][1..];
    }
  }

  /** A walk has a cost exactly when it stays in the graph, and the cost is the sum of the weights of its edges. */
  lemma {:induction false} CostIsSum(edges: map<(int, int), real>, path: seq<int>)
    ensures Cost(edges, path).Some? <==> Connected(edges, path)
    ensures Cost(edges, path).Some? ==> Cost(edges, path).value == StepSum(edges, path)
    decreases |path|
  {
    if |path| > 1 {
      var n := |path| - 1;
      CostIsSum(edges, path[..n]);
      StepSumSnoc(edges, path);
      hide StepSum;
      assert Connected(edges, path) <==>
             Connected(edges, path[..n]) && (path[n - 1] == path[n] || (path[n - 1], path[n]) in edges) by {
        assert forall i :: 0 <= i < n ==> path[..n][i] == path[i];
      }
    }
  }

  datatype Result = Weight(weight: real) | Failed(error: Error)

  /** The cost of a walk: the sum of its steps, if every step is in the graph. */
  function Cost(edges: map<(int, int), real>, path: seq<int>): Option<real> {
    if |path| <= 1 then Some(0.0) else
      var n := |path| - 1;
      match (Cost(edges, path[..n]), WeightOf(edges, path[n - 1], path[n]))
      case (Some(c), Some(w)) => Some(c + w)
      case _ => None
  }

  //
  // Building: the result depends only on which edges are listed
  //

  /** The directed edges actually present: both directions of each edge of an undirected dataset. */
  function Effective(list: seq<Edge>, directed: bool): seq<Edge> {
    if list == [] then [] else
      var e := list[|list| - 1];
      Effective(list[..|list| - 1], directed) + if directed then [e] else [e, Edge(e.dst, e.src, e.weight)]
  }

  lemma EmptyMerge()
    ensures MinMerge(map[], [])
  {
  }

  lemma MergeOne(edges: map<(int, int), real>, list: seq<Edge>, e: Edge, edges': map<(int, int), real>)
    requires MinMerge(edges, list)
    requires e.src == e.dst ==> edges' == edges
    requires e.src != e.dst ==>
               var p := (e.src, e.dst);
               edges' == if p in edges && edges[p] <= e.weight then edges else edges[p := e.weight]
    ensures MinMerge(edges', list + [e])
  {
    var q := (e.src, e.dst);
    forall p, w
      ensures Offers(list + [e], p, w) <==> Offers(list, p, w) || (p == q && w == e.weight && e.src != e.dst)
    {
    }
  }

  lemma MergeOfNonNegative(list: seq<Edge>, directed: bool, edges: map<(int, int), real>)
    requires MinMerge(edges, Effective(list, directed)) && NonNegative(list)
    ensures ValidEdges(edges)
  {
    hide Effective;
    forall p | p in edges
      ensures p.0 != p.1 && edges[p] >= 0.0
    {
      assert Offers(Effective(list, directed), p, edges[p]);
      EffectiveMembers(list, directed, Edge(p.0, p.1, edges[p]));
    }
  }

  lemma EndpointsStep(nodes: set<int>, given: seq<int>, edges: map<(int, int), real>, p: (int, int), w: real)
    requires Endpoints(nodes, given, edges)
    ensures Endpoints(nodes + {p.0, p.1}, given, edges[p := w])
  {
    var edges' := edges[p := w];
    assert p in edges';
    forall n
      ensures n in nodes + {p.0, p.1} <==> n in given || exists q :: q in edges' && (n == q.0 || n == q.1)
    {
      if q :| q in edges && (n == q.0 || n == q.1) {
        assert q in edges';
      }
    }
  }

  /** Streams a dataset into a graph, its vertices first; the first negative weight stops it. */
  method BuildGraph(vertices: seq<int>, list: seq<Edge>, directed: bool) returns (g: Graph, err: Option<Error>)
    ensures fresh(g)
    ensures err.None? <==> NonNegative(list)
    ensures err.None? ==> MinMerge(g.edges, Effective(list, directed)) && ValidEdges(g.edges)
    ensures Endpoints(g.nodes, vertices, g.edges)
    ensures err.Some? ==> exists i :: 0 <= i < |list| && NonNegative(list[..i]) && list[i].weight < 0.0
                                      && err == Some(NegativeWeight(list[i]))
  {
    hide MinMerge, Endpoints, ValidEdges, Offers;
    g := AddVertices(vertices);
    err := None;
    EmptyMerge();
    for i := 0 to |list|
      invariant fresh(g) && err == None && NonNegative(list[..i])
      invariant MinMerge(g.edges, Effective(list[..i], directed)) && Endpoints(g.nodes, vertices, g.edges)
    {
      var e := list[i];
      ghost var listed := Effective(list[..i], directed);
      assert list[..i + 1][..i] == list[..i];
      err := MergeEdge(g, e, listed, vertices);
      if err.Some? {
        return;
      }
      if !directed {
        err := MergeEdge(g, Edge(e.dst, e.src, e.weight), listed + [e], vertices);
        assert listed + [e] + [Edge(e.dst, e.src, e.weight)] == listed + [e, Edge(e.dst, e.src, e.weight)];
      }
    }
    assert list[..|list|] == list;
    MergeOfNonNegative(list, directed, g.edges);
  }

  method AddVertices(vertices: seq<int>) returns (g: Graph)
    ensures fresh(g) && g.edges == map[] && Endpoints(g.nodes, vertices, g.edges)
  {
    g := new Graph();
    for i := 0 to |vertices|
      invariant fresh(g) && g.edges == map[] && Endpoints(g.nodes, vertices[..i], g.edges)
    {
      g.AddNode(vertices[i]);
      assert vertices[..i + 1] == vertices[..i] + [vertices[i]];
    }
    assert vertices[..|vertices|] == vertices;
  }

  method MergeEdge(g: Graph, e: Edge, ghost listed: seq<Edge>, ghost given: seq<int>) returns (err: Option<Error>)
    requires MinMerge(g.edges, listed) && Endpoints(g.nodes, given, g.edges)
    modifies g
    ensures err == if e.weight < 0.0 then Some(NegativeWeight(e)) else None
    ensures err.None? ==> MinMerge(g.edges, listed + [e])
    ensures Endpoints(g.nodes, given, g.edges)
  {
    hide MinMerge, Endpoints;
    EndpointsStep(g.nodes, given, g.edges, (e.src, e.dst), e.weight);
    ghost var before := g.edges;
    err := g.AddEdge(e.src, e.dst, e.weight);
    if err.None? {
      MergeOne(before, listed, e, g.edges);
    }
  }

  ghost predicate SameOffers(a: seq<Edge>, b: seq<Edge>) {
    forall p, w :: Offers(a, p, w) <==> Offers(b, p, w)
  }

  /** Order, repetition and self-loops do not matter: lists with the same edges give the same graph. */
  lemma MergeIsCanonical(a: seq<Edge>, b: seq<Edge>, ea: map<(int, int), real>, eb: map<(int, int), real>)
    requires MinMerge(ea, a) && MinMerge(eb, b) && SameOffers(a, b)
    ensures ea == eb
  {
    forall p
      ensures p in ea <==> p in eb
      ensures p in ea && p in eb ==> ea[p] == eb[p]
    {
      if p in ea {
        assert Offers(a, p, ea[p]) && Offers(b, p, ea[p]);
      }
      if p in eb {
        assert Offers(b, p, eb[p]) && Offers(a, p, eb[p]);
      }
    }
  }

  //
  // Writing the edges with six decimals and reading them back
  //

  /** The value of a weight printed with six decimals: rounded to the nearest, ties to the even digit. */
  function SixDecimals(w: real): real {
    var x := w * 1000000.0;
    var f := x.Floor;
    var part := x - f as real;
    (if part < 0.5 || (part == 0.5 && f % 2 == 0) then f else f + 1) as real / 1000000.0
  }

  /** Six decimals: a whole number of millionths, at most half a millionth off, the even one in a tie. */
  lemma SixDecimalsRounds(w: real) returns (millionths: int)
    ensures SixDecimals(w) * 1000000.0 == millionths as real
    ensures -0.0000005 <= SixDecimals(w) - w <= 0.0000005
    ensures SixDecimals(w) - w == 0.0000005 || w - SixDecimals(w) == 0.0000005 ==> millionths % 2 == 0
  {
    var x := w * 1000000.0;
    var f := x.Floor;
    var part := x - f as real;
    millionths := if part < 0.5 || (part == 0.5 && f % 2 == 0) then f else f + 1;
  }

  lemma SixDecimalsMonotone(v: real, w: real)
    requires v <= w
    ensures SixDecimals(v) <= SixDecimals(w)
  {
    var x, y := v * 1000000.0, w * 1000000.0;
    assert x <= y;
    assert x.Floor <= y.Floor;
  }

  function Written(list: seq<Edge>): (r: seq<Edge>)
    ensures |r| == |list|
    ensures forall i :: 0 <= i < |list| ==> r[i] == Edge(list[i].src, list[i].dst, SixDecimals(list[i].weight))
  {
    seq(|list|, i requires 0 <= i < |list| => Edge(list[i].src, list[i].dst, SixDecimals(list[i].weight)))
  }

  lemma {:induction false} EffectiveMembers(list: seq<Edge>, directed: bool, e: Edge)
    ensures e in Effective(list, directed) <==> e in list || (!directed && Edge(e.dst, e.src, e.weight) in list)
    decreases |list|
  {
    if list != [] {
      var n := |list| - 1;
      EffectiveMembers(list[..n], directed, e);
      assert list == list[..n] + [list[n]];
    }
  }

  lemma WrittenMembers(list: seq<Edge>, p: (int, int), w: real)
    ensures Offers(Written(list), p, w) <==> exists v :: Offers(list, p, v) && w == SixDecimals(v)
  {
    hide SixDecimals;
    if Offers(Written(list), p, w) {
      var i :| 0 <= i < |list| && Written(list)[i] == Edge(p.0, p.1, w);
      assert list[i] in list && Offers(list, p, list[i].weight);
    }
    if v :| Offers(list, p, v) && w == SixDecimals(v) {
      var i :| 0 <= i < |list| && list[i] == Edge(p.0, p.1, v);
      assert Written(list)[i] in Written(list);
    }
  }

  /** The edge file is already mirrored, so mirroring it once more on reading adds nothing. */
  lemma MirroredTwice(list: seq<Edge>, directed: bool)
    ensures SameOffers(Effective(Written(Effective(list, directed)), directed), Written(Effective(list, directed)))
  {
    hide SixDecimals, Written, Effective;
    var once := Effective(list, directed);
    forall p, w
      ensures Offers(Effective(Written(once), directed), p, w) <==> Offers(Written(once), p, w)
    {
      var q := (p.1, p.0);
      EffectiveMembers(Written(once), directed, Edge(p.0, p.1, w));
      if !directed && Offers(Written(once), q, w) {
        WrittenMembers(once, q, w);
        var v :| Offers(once, q, v) && w == SixDecimals(v);
        EffectiveMembers(list, directed, Edge(p.1, p.0, v));
        EffectiveMembers(list, directed, Edge(p.0, p.1, v));
        assert Offers(once, p, v);
        WrittenMembers(once, p, w);
      }
    }
  }

  /** The written file has no negative weight if the dataset has none, so rebuilding cannot fail. */
  lemma WrittenNonNegative(list: seq<Edge>, directed: bool)
    requires NonNegative(list)
    ensures NonNegative(Written(Effective(list, directed)))
  {
    hide SixDecimals, Effective;
    var once := Effective(list, directed);
    assert SixDecimals(0.0) == 0.0 by { ZeroPrints(); }
    forall i | 0 <= i < |once|
      ensures SixDecimals(once[i].weight) >= 0.0
    {
      EffectiveMembers(list, directed, once[i]);
      SixDecimalsMonotone(0.0, once[i].weight);
    }
  }

  lemma ZeroPrints()
    ensures SixDecimals(0.0) == 0.0
  {
  }

  /** The graph rebuilt from the written file has the same edges as the one built before writing, each weight
      rounded to six decimals: rounding commutes with taking the minimum. */
  lemma RebuiltGraphAgrees(
      list: seq<Edge>, directed: bool, built: map<(int, int), real>, rebuilt: map<(int, int), real>)
    requires MinMerge(built, Effective(list, directed))
    requires MinMerge(rebuilt, Effective(Written(Effective(list, directed)), directed))
    ensures rebuilt.Keys == built.Keys
    ensures forall p :: p in built ==> rebuilt[p] == SixDecimals(built[p])
    ensures rebuilt == built <==> forall p :: p in built ==> SixDecimals(built[p]) == built[p]
  {
    hide SixDecimals, Written, Effective;
    var once := Effective(list, directed);
    MirroredTwice(list, directed);
    forall p
      ensures p in rebuilt <==> p in built
      ensures p in built && p in rebuilt ==> rebuilt[p] == SixDecimals(built[p])
    {
      if p in built {
        assert Offers(once, p, built[p]);
        WrittenMembers(once, p, SixDecimals(built[p]));
        assert Offers(Written(once), p, SixDecimals(built[p]));
      }
      if p in rebuilt {
        assert Offers(Written(once), p, rebuilt[p]);
        WrittenMembers(once, p, rebuilt[p]);
        var v :| Offers(once, p, v) && rebuilt[p] == SixDecimals(v);
        SixDecimalsMonotone(built[p], v);
      }
    }
  }

  /** Building a dataset, and building once more from the file written: the second cannot fail where the first did
      not, joins the same pairs, and lacks only the vertices without an edge. */
  method BuildTwice(vertices: seq<int>, list: seq<Edge>, directed: bool)
    returns (built: Graph, rebuilt: Graph, err: Option<Error>)
    ensures err.None? <==> NonNegative(list)
    ensures err.None? ==>
              && MinMerge(built.edges, Effective(list, directed)) && Endpoints(built.nodes, vertices, built.edges)
              && rebuilt.edges.Keys == built.edges.Keys && ValidEdges(built.edges) && ValidEdges(rebuilt.edges)
              && (forall p :: p in built.edges ==> rebuilt.edges[p] == SixDecimals(built.edges[p]))
              && (forall n :: n in built.nodes <==> n in vertices || n in rebuilt.nodes)
  {
    hide MinMerge, Endpoints, ValidEdges, Written, Effective, SixDecimals, NonNegative;
    built, err := BuildGraph(vertices, list, directed);
    rebuilt := built;
    if err.Some? {
      return;
    }
    WrittenNonNegative(list, directed);
    rebuilt, err := BuildGraph([], Written(Effective(list, directed)), directed);
    RebuiltGraphAgrees(list, directed, built.edges, rebuilt.edges);
    SameEndpoints(built.nodes, rebuilt.nodes, vertices, built.edges, rebuilt.edges);
  }

  lemma SameEndpoints(a: set<int>, b: set<int>, given: seq<int>, ea: map<(int, int), real>, eb: map<(int, int), real>)
    requires Endpoints(a, given, ea) && Endpoints(b, [], eb) && ea.Keys == eb.Keys
    ensures forall n :: n in a <==> n in given || n in b
  {
    assert forall p :: p in ea <==> p in eb;
  }
}
