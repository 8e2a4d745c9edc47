/** The streaming hash join over performance nodes: two joins share one pass, each with a map of the links seen so
    far and a map of the details still waiting for their link. */
module Convert {

  import opened Options

  datatype NQuad = NQuad(subject: string, pred: string, objectId: string)

  datatype Triple = Triple(s: string, p: string, o: string)

  /** `link` lines lead from an entity to a performance node, `detail` lines on from that node; a joined pair is
      written under `output`. */
  datatype Join = Join(link: string, detail: string, output: string)

  const ACTED_IN := Join("actor.film", "performance.film", "acted_in")
  const ACTORS := Join("starring", "performance.actor", "actors")

  predicate IsRequired(nq: NQuad) {
    nq.pred in ["actor.film", "performance.film", "starring", "performance.actor"]
  }

  predicate IsLink(j: Join, nq: NQuad) {
    nq.pred == j.link
  }

  predicate IsDetail(j: Join, nq: NQuad) {
    nq.pred == j.detail
  }

  //
  // The relational join
  //

  /** The entity last linked to performance node `node`, if any. */
  function LinkOf(j: Join, lines: seq<NQuad>, node: string): Option<string> {
    if lines == [] then None else
      var nq := lines[|lines| - 1];
      if IsLink(j, nq) && nq.objectId == node then Some(nq.subject) else LinkOf(j, lines[..|lines| - 1], node)
  }

  /** What a detail line contributes, given the link of its node. */
  function Joined(j: Join, link: Option<string>, film: string): multiset<Triple> {
    match link
    case None => multiset{}
    case Some(entity) => multiset{Triple(entity, j.output, film)}
  }

  /** Every detail line in `lines` with the link its node has in `all`. */
  function JoinOf(j: Join, all: seq<NQuad>, lines: seq<NQuad>): multiset<Triple> {
    if lines == [] then multiset{} else
      var nq := lines[|lines| - 1];
      JoinOf(j, all, lines[..|lines| - 1])
      + if IsDetail(j, nq) then Joined(j, LinkOf(j, all, nq.subject), nq.objectId) else multiset{}
  }

  /** No performance node is linked to two different entities. */
  predicate LinksAgree(j: Join, lines: seq<NQuad>) {
    forall a, b | 0 <= a < |lines| && 0 <= b < |lines| && IsLink(j, lines[a]) && IsLink(j, lines[b]) ::
      lines[a].objectId == lines[b].objectId ==> lines[a].subject == lines[b].subject
  }

  //
  // The stream
  //

  /** What is written while streaming: the details whose link came before them. */
  function Emitted(j: Join, lines: seq<NQuad>): multiset<Triple> {
    if lines == [] then multiset{} else
      var init, nq := lines[..|lines| - 1], lines[|lines| - 1];
      Emitted(j, init) + if IsDetail(j, nq) then Joined(j, LinkOf(j, init, nq.subject), nq.objectId) else multiset{}
  }

  /** What one line writes while streaming, as a list. */
  function StreamedOne(j: Join, init: seq<NQuad>, nq: NQuad): seq<Triple> {
    if IsDetail(j, nq) && LinkOf(j, init, nq.subject).Some?
    then [Triple(LinkOf(j, init, nq.subject).value, j.output, nq.objectId)] else []
  }

  /** The order of what is written while streaming is that of the detail lines. */
  function Streamed(lines: seq<NQuad>): seq<Triple> {
    if lines == [] then [] else
      var init, nq := lines[..|lines| - 1], lines[|lines| - 1];
      Streamed(init) + StreamedOne(ACTED_IN, init, nq) + StreamedOne(ACTORS, init, nq)
  }

  lemma StreamedSnoc(init: seq<NQuad>, nq: NQuad)
    ensures Streamed(init + [nq]) == Streamed(init) + StreamedOne(ACTED_IN, init, nq) + StreamedOne(ACTORS, init, nq)
    ensures Streamed([]) == []
  {
    assert (init + [nq])[..|init|] == init;
  }

  /** The details waiting for their link: only the latest of a node is kept. */
  function Held(j: Join, lines: seq<NQuad>): map<string, string> {
    if lines == [] then map[] else
      var init, nq := lines[..|lines| - 1], lines[|lines| - 1];
      if IsDetail(j, nq) && LinkOf(j, init, nq.subject).None? then Held(j, init)[nq.subject := nq.objectId]
      else Held(j, init)
  }

  /** What the held details contribute in the end; the map may be walked in any order. */
  ghost function Drained(j: Join, all: seq<NQuad>, held: map<string, string>): multiset<Triple>
    decreases |held|
  {
    if held == map[] then multiset{} else
      var k :| k in held;
      Drained(j, all, held - {k}) + Joined(j, LinkOf(j, all, k), held[k])
  }

  ghost function Written(j: Join, lines: seq<NQuad>): multiset<Triple> {
    Emitted(j, lines) + Drained(j, lines, Held(j, lines))
  }

  /** The details that a later one of the same node pushed out while both waited, with the link they then miss. */
  function Lost(j: Join, all: seq<NQuad>, lines: seq<NQuad>): multiset<Triple> {
    if lines == [] then multiset{} else
      var init, nq := lines[..|lines| - 1], lines[|lines| - 1];
      Lost(j, all, init) + LostAt(j, all, init, nq)
  }

  function LostAt(j: Join, all: seq<NQuad>, init: seq<NQuad>, nq: NQuad): multiset<Triple> {
    if IsDetail(j, nq) && LinkOf(j, init, nq.subject).None? && nq.subject in Held(j, init)
    then Joined(j, LinkOf(j, all, nq.subject), Held(j, init)[nq.subject]) else multiset{}
  }

  lemma SmallerMap(m: map<string, string>, k: string)
    requires k in m
    ensures |m - {k}| == |m| - 1
  {
    assert (m - {k}).Keys == m.Keys - {k};
    assert |m.Keys| == |(m - {k}).Keys| + 1;
  }

  /** The order in which held details are drained does not matter. */
  lemma {:induction false} DrainAny(j: Join, all: seq<NQuad>, held: map<string, string>, k: string)
    requires k in held
    ensures Drained(j, all, held) == Drained(j, all, held - {k}) + Joined(j, LinkOf(j, all, k), held[k])
    decreases |held|
  {
    hide Joined, LinkOf;
    var c :| c in held && Drained(j, all, held) == Drained(j, all, held - {c}) + Joined(j, LinkOf(j, all, c), held[c]);
    if c != k {
      SmallerMap(held, c);
      SmallerMap(held, k);
      DrainAny(j, all, held - {c}, k);
      DrainAny(j, all, held - {k}, c);
      assert held - {c} - {k} == held - {k} - {c};
    }
  }

  lemma DrainUpdate(j: Join, all: seq<NQuad>, held: map<string, string>, k: string, v: string)
    ensures Drained(j, all, held[k := v]) + (if k in held then Joined(j, LinkOf(j, all, k), held[k]) else multiset{})
            == Drained(j, all, held) + Joined(j, LinkOf(j, all, k), v)
  {
    hide Joined, LinkOf, Drained;
    DrainAny(j, all, held[k := v], k);
    if k in held {
      DrainAny(j, all, held, k);
      assert held[k := v] - {k} == held - {k};
    } else {
      assert held[k := v] - {k} == held;
    }
  }

  lemma {:induction false} LinkFound(j: Join, lines: seq<NQuad>, node: string)
    ensures LinkOf(j, lines, node).Some? ==>
              exists i :: 0 <= i < |lines| && IsLink(j, lines[i]) && lines[i].objectId == node
                          && lines[i].subject == LinkOf(j, lines, node).value
    ensures LinkOf(j, lines, node).None? ==>
              forall i :: 0 <= i < |lines| ==> !(IsLink(j, lines[i]) && lines[i].objectId == node)
    decreases |lines|
  {
    if lines != [] {
      LinkFound(j, lines[..|lines| - 1], node);
    }
  }

  /** With agreeing links, a link seen early is the link. */
  lemma EarlyLinkIsFinal(j: Join, all: seq<NQuad>, lines: seq<NQuad>, node: string)
    requires lines <= all && LinksAgree(j, all) && LinkOf(j, lines, node).Some?
    ensures LinkOf(j, all, node) == LinkOf(j, lines, node)
  {
    hide LinkOf;
    LinkFound(j, lines, node);
    LinkFound(j, all, node);
    var i :| 0 <= i < |lines| && IsLink(j, lines[i]) && lines[i].objectId == node
             && lines[i].subject == LinkOf(j, lines, node).value;
    assert all[i] == lines[i];
  }

  lemma NoLink(j: Join, film: string)
    ensures Joined(j, None, film) == multiset{}
  {
  }

  lemma Regroup(e: multiset<Triple>, d: multiset<Triple>, l: multiset<Triple>, d': multiset<Triple>,
                o: multiset<Triple>, n: multiset<Triple>)
    requires d' + o == d + n
    ensures e + d' + (l + o) == (e + d + l) + n
  {
    assert e + d' + (l + o) == (e + l) + (d' + o);
  }

  /** At every point of the stream, what was written, what is held and what was lost make up the join so far. */
  lemma {:induction false} StreamBalances(j: Join, all: seq<NQuad>, lines: seq<NQuad>)
    requires lines <= all && LinksAgree(j, all)
    ensures Emitted(j, lines) + Drained(j, all, Held(j, lines)) + Lost(j, all, lines) == JoinOf(j, all, lines)
    decreases |lines|
  {
    hide LinkOf, Joined, LinksAgree, IsDetail;
    if lines != [] {
      var init, nq := lines[..|lines| - 1], lines[|lines| - 1];
      StreamBalances(j, all, init);
      if IsDetail(j, nq) {
        if LinkOf(j, init, nq.subject).Some? {
          EarlyLinkIsFinal(j, all, init, nq.subject);
        } else {
          DrainUpdate(j, all, Held(j, init), nq.subject, nq.objectId);
          NoLink(j, nq.objectId);
          var link, held := LinkOf(j, all, nq.subject), Held(j, init);
          var pushedOut := if nq.subject in held then Joined(j, link, held[nq.subject]) else multiset{};
          Regroup(Emitted(j, init), Drained(j, all, held), Lost(j, all, init), Drained(j, all, Held(j, lines)),
                  pushedOut, Joined(j, link, nq.objectId));
        }
      }
    }
  }

  ghost predicate OverwrittenAt(j: Join, lines: seq<NQuad>, b: nat) {
    exists a: nat :: Overwrites(j, lines, a, b)
  }

  ghost predicate OverwrittenBelow(j: Join, lines: seq<NQuad>, n: nat) {
    exists b: nat :: b < n && OverwrittenAt(j, lines, b)
  }

  /** Two details of one linked node both arrive before its first link. */
  ghost predicate DetailOverwritten(j: Join, lines: seq<NQuad>) {
    OverwrittenBelow(j, lines, |lines|)
  }

  predicate Overwrites(j: Join, lines: seq<NQuad>, a: nat, b: nat) {
    && a < b < |lines| && IsDetail(j, lines[a]) && IsDetail(j, lines[b]) && lines[a].subject == lines[b].subject
    && LinkOf(j, lines[..b], lines[b].subject).None? && LinkOf(j, lines, lines[b].subject).Some?
  }

  /** The held detail of a node is its latest unlinked one. */
  lemma {:induction false} HeldFound(j: Join, lines: seq<NQuad>, node: string)
    ensures node in Held(j, lines) <==>
              exists a :: 0 <= a < |lines| && Waits(j, lines, node, a)
    decreases |lines|
  {
    hide LinkOf, IsDetail;
    if lines != [] {
      var n := |lines| - 1;
      HeldFound(j, lines[..n], node);
      forall a | 0 <= a < n
        ensures Waits(j, lines, node, a) <==> Waits(j, lines[..n], node, a)
      {
        assert lines[..n][..a] == lines[..a];
      }
      assert Waits(j, lines, node, n) <==>
             IsDetail(j, lines[n]) && lines[n].subject == node && LinkOf(j, lines[..n], node).None?;
    }
  }

  predicate Waits(j: Join, lines: seq<NQuad>, node: string, a: nat)
    requires a < |lines|
  {
    IsDetail(j, lines[a]) && lines[a].subject == node && LinkOf(j, lines[..a], node).None?
  }

  lemma {:induction false} UnlinkedBefore(j: Join, lines: seq<NQuad>, node: string, a: nat)
    requires a <= |lines| && LinkOf(j, lines, node).None?
    ensures LinkOf(j, lines[..a], node).None?
    decreases |lines|
  {
    if a < |lines| {
      UnlinkedBefore(j, lines[..|lines| - 1], node, a);
      assert lines[..|lines| - 1][..a] == lines[..a];
    } else {
      assert lines[..a] == lines;
    }
  }

  lemma LostAtIff(j: Join, all: seq<NQuad>, n: nat)
    requires n < |all|
    ensures LostAt(j, all, all[..n], all[n]) == multiset{} <==> !OverwrittenAt(j, all, n)
  {
    hide LinkOf, IsDetail, Held, Joined;
    var init, nq := all[..n], all[n];
    HeldFound(j, init, nq.subject);
    JoinedSize(j, LinkOf(j, all, nq.subject));
    forall a: nat | a < n
      ensures Overwrites(j, all, a, n) <==>
              IsDetail(j, nq) && LinkOf(j, init, nq.subject).None? && Waits(j, init, nq.subject, a)
              && LinkOf(j, all, nq.subject).Some?
    {
      if LinkOf(j, init, nq.subject).None? {
        UnlinkedBefore(j, init, nq.subject, a);
      }
    }
  }

  lemma {:induction false} LostIff(j: Join, all: seq<NQuad>, n: nat)
    requires n <= |all|
    ensures Lost(j, all, all[..n]) == multiset{} <==> !OverwrittenBelow(j, all, n)
  {
    hide LostAt, OverwrittenAt;
    if n > 0 {
      LostIff(j, all, n - 1);
      LostAtIff(j, all, n - 1);
      assert all[..n][..n - 1] == all[..n - 1];
    }
  }

  lemma JoinedSize(j: Join, link: Option<string>)
    ensures forall film :: Joined(j, link, film) == multiset{} <==> link.None?
  {
  }

  /** When no performance node is linked to two entities, the pass writes part of the relational join; it writes all
      of it, each detail line once, exactly when no two details of one node both come before the node's link. */
  lemma StreamIsJoinIff(j: Join, lines: seq<NQuad>)
    requires LinksAgree(j, lines)
    ensures Written(j, lines) <= JoinOf(j, lines, lines)
    ensures Written(j, lines) == JoinOf(j, lines, lines) <==> !DetailOverwritten(j, lines)
  {
    hide LinkOf, Joined, LinksAgree, IsDetail, Emitted, Drained, Held, Lost, JoinOf;
    StreamBalances(j, lines, lines);
    LostIff(j, lines, |lines|);
    assert lines[..|lines|] == lines;
    var w, l := Written(j, lines), Lost(j, lines, lines);
    assert w + l == w ==> |l| == 0;
  }

  /** In particular a node with a single detail line loses nothing. */
  lemma SingleDetailsAreJoined(j: Join, lines: seq<NQuad>)
    requires LinksAgree(j, lines)
    requires forall a, b | 0 <= a < b < |lines| && IsDetail(j, lines[a]) && IsDetail(j, lines[b]) ::
               lines[a].subject != lines[b].subject
    ensures Written(j, lines) == JoinOf(j, lines, lines)
  {
    hide LinkOf, Joined, LinksAgree, IsDetail, Written, JoinOf;
    StreamIsJoinIff(j, lines);
  }

  /** A link line and a detail line of one node that together say `x`. */
  ghost predicate Justified(j: Join, lines: seq<NQuad>, x: Triple) {
    exists a, b :: 0 <= a < |lines| && 0 <= b < |lines| && IsLink(j, lines[a]) && IsDetail(j, lines[b])
                   && lines[a].objectId == lines[b].subject
                   && x == Triple(lines[a].subject, j.output, lines[b].objectId)
  }

  lemma JoinedJustified(j: Join, lines: seq<NQuad>, init: seq<NQuad>, b: nat, x: Triple)
    requires b < |lines| && init <= lines && IsDetail(j, lines[b])
    requires x in Joined(j, LinkOf(j, init, lines[b].subject), lines[b].objectId)
    ensures Justified(j, lines, x)
  {
    hide LinkOf;
    LinkFound(j, init, lines[b].subject);
    var a :| 0 <= a < |init| && IsLink(j, init[a]) && init[a].objectId == lines[b].subject
             && init[a].subject == LinkOf(j, init, lines[b].subject).value;
    assert lines[a] == init[a];
  }

  lemma {:induction false} EmittedJustified(j: Join, lines: seq<NQuad>, n: nat, x: Triple)
    requires n <= |lines| && x in Emitted(j, lines[..n])
    ensures Justified(j, lines, x)
  {
    hide LinkOf, Joined, Justified, IsDetail;
    if n > 0 {
      var init := lines[..n - 1];
      assert lines[..n][..n - 1] == init;
      if x in Emitted(j, init) {
        EmittedJustified(j, lines, n - 1, x);
      } else {
        JoinedJustified(j, lines, init, n - 1, x);
      }
    }
  }

  lemma {:induction false} HeldIsDetail(j: Join, lines: seq<NQuad>, node: string)
    requires node in Held(j, lines)
    ensures exists b :: 0 <= b < |lines| && IsDetail(j, lines[b]) && lines[b].subject == node
                        && lines[b].objectId == Held(j, lines)[node]
    decreases |lines|
  {
    hide LinkOf, IsDetail;
    var n := |lines| - 1;
    var nq := lines[n];
    if !(IsDetail(j, nq) && LinkOf(j, lines[..n], nq.subject).None? && nq.subject == node) {
      HeldIsDetail(j, lines[..n], node);
      var b :| 0 <= b < n && IsDetail(j, lines[..n][b]) && lines[..n][b].subject == node
               && lines[..n][b].objectId == Held(j, lines[..n])[node];
      assert lines[b] == lines[..n][b];
    }
  }

  lemma {:induction false} DrainedJustified(j: Join, lines: seq<NQuad>, held: map<string, string>, x: Triple)
    requires x in Drained(j, lines, held)
    requires forall k :: k in held ==> k in Held(j, lines) && held[k] == Held(j, lines)[k]
    ensures Justified(j, lines, x)
    decreases |held|
  {
    hide LinkOf, Joined, Justified, IsDetail, Held;
    var k :| k in held
             && Drained(j, lines, held) == Drained(j, lines, held - {k}) + Joined(j, LinkOf(j, lines, k), held[k]);
    SmallerMap(held, k);
    if x in Drained(j, lines, held - {k}) {
      DrainedJustified(j, lines, held - {k}, x);
    } else {
      HeldIsDetail(j, lines, k);
      var b :| 0 <= b < |lines| && IsDetail(j, lines[b]) && lines[b].subject == k
               && lines[b].objectId == Held(j, lines)[k];
      JoinedJustified(j, lines, lines, b, x);
    }
  }

  /** On any input at all, even one with disagreeing links, every triple written is one of the relational join. */
  lemma WrittenIsJustified(j: Join, lines: seq<NQuad>, x: Triple)
    requires x in Written(j, lines)
    ensures Justified(j, lines, x)
  {
    hide LinkOf, Joined, Justified, IsDetail, Held, Emitted, Drained;
    assert lines[..|lines|] == lines;
    if x in Emitted(j, lines) {
      EmittedJustified(j, lines, |lines|, x);
    } else {
      DrainedJustified(j, lines, Held(j, lines), x);
    }
  }

  lemma NothingPending(j: Join)
    ensures Emitted(j, []) == multiset{} && Held(j, []) == map[]
  {
  }

  /** What one line does to one join. */
  lemma StreamStep(j: Join, init: seq<NQuad>, nq: NQuad)
    ensures Emitted(j, init + [nq]) ==
            Emitted(j, init) +
            if IsDetail(j, nq) then Joined(j, LinkOf(j, init, nq.subject), nq.objectId) else multiset{}
    ensures Held(j, init + [nq]) ==
            if IsDetail(j, nq) && LinkOf(j, init, nq.subject).None? then Held(j, init)[nq.subject := nq.objectId]
            else Held(j, init)
    ensures forall node :: LinkOf(j, init + [nq], node) ==
                           if IsLink(j, nq) && nq.objectId == node then Some(nq.subject) else LinkOf(j, init, node)
  {
    assert (init + [nq])[..|init|] == init;
  }

  //
  // The output in terms of the lines
  //

  /** Line `a` links the node that line `b` details, and together they say `x`. */
  predicate Says(lines: seq<NQuad>, a: nat, b: nat, link: string, detail: string, output: string, x: Triple) {
    && a < |lines| && b < |lines| && lines[a].pred == link && lines[b].pred == detail
    && lines[a].objectId == lines[b].subject && x == Triple(lines[a].subject, output, lines[b].objectId)
  }

  ghost predicate Told(lines: seq<NQuad>, x: Triple) {
    exists a: nat, b: nat :: || Says(lines, a, b, "actor.film", "performance.film", "acted_in", x)
                   || Says(lines, a, b, "starring", "performance.actor", "actors", x)
  }

  predicate Links(lines: seq<NQuad>, c: nat, link: string, node: string)
    requires c < |lines|
  {
    lines[c].pred == link && lines[c].objectId == node
  }

  /** The pass over the lines, or the walk over the waiting details, must write the pair of lines `a` and `b`: `a` is
      the last link of its node before detail `b`; or no link comes before `b`, `b` is the last such detail of the
      node, and `a` is the last link of all. */
  ghost predicate Due(lines: seq<NQuad>, a: nat, b: nat, link: string, detail: string) {
    && a < |lines| && b < |lines| && lines[b].pred == detail && Links(lines, a, link, lines[b].subject)
    && if a < b then forall c :: a < c < b ==> !Links(lines, c, link, lines[b].subject)
       else && (forall c :: 0 <= c < b || a < c < |lines| ==> !Links(lines, c, link, lines[b].subject))
            && (forall d :: b < d < |lines| && lines[d].pred == detail && lines[d].subject == lines[b].subject ==>
                  exists c :: 0 <= c < d && Links(lines, c, link, lines[b].subject))
  }

  lemma {:induction false} LastLink(j: Join, lines: seq<NQuad>, n: nat, node: string, a: nat)
    requires a < n <= |lines| && Links(lines, a, j.link, node)
    requires forall c :: a < c < n ==> !Links(lines, c, j.link, node)
    ensures LinkOf(j, lines[..n], node) == Some(lines[a].subject)
    decreases n
  {
    assert lines[..n][..n - 1] == lines[..n - 1];
    if a < n - 1 {
      assert !Links(lines, n - 1, j.link, node);
      LastLink(j, lines, n - 1, node, a);
    }
  }

  lemma {:induction false} NotLinked(j: Join, lines: seq<NQuad>, n: nat, node: string)
    requires n <= |lines| && forall c :: 0 <= c < n ==> !Links(lines, c, j.link, node)
    ensures LinkOf(j, lines[..n], node) == None
    decreases n
  {
    if n > 0 {
      assert lines[..n][..n - 1] == lines[..n - 1];
      assert !Links(lines, n - 1, j.link, node);
      NotLinked(j, lines, n - 1, node);
    }
  }

  lemma {:induction false} EmittedHas(j: Join, lines: seq<NQuad>, n: nat, b: nat, entity: string)
    requires b < n <= |lines| && IsDetail(j, lines[b]) && LinkOf(j, lines[..b], lines[b].subject) == Some(entity)
    ensures Triple(entity, j.output, lines[b].objectId) in Emitted(j, lines[..n])
    decreases n
  {
    hide LinkOf, IsDetail;
    assert lines[..n][..n - 1] == lines[..n - 1];
    if b < n - 1 {
      EmittedHas(j, lines, n - 1, b, entity);
    }
  }

  /** The last detail of a node before any link of it is held until the node is linked, and beyond. */
  lemma {:induction false} HeldHas(j: Join, lines: seq<NQuad>, n: nat, b: nat)
    requires b < n <= |lines| && IsDetail(j, lines[b]) && LinkOf(j, lines[..b], lines[b].subject).None?
    requires forall d :: b < d < n && IsDetail(j, lines[d]) && lines[d].subject == lines[b].subject ==>
                           LinkOf(j, lines[..d], lines[b].subject).Some?
    ensures lines[b].subject in Held(j, lines[..n]) && Held(j, lines[..n])[lines[b].subject] == lines[b].objectId
    decreases n
  {
    hide LinkOf, IsDetail;
    assert lines[..n][..n - 1] == lines[..n - 1];
    if b < n - 1 {
      HeldHas(j, lines, n - 1, b);
    }
  }

  lemma DueIsWritten(j: Join, lines: seq<NQuad>, a: nat, b: nat)
    requires Due(lines, a, b, j.link, j.detail)
    ensures Triple(lines[a].subject, j.output, lines[b].objectId) in Written(j, lines)
  {
    hide LinkOf, Emitted, Held, Drained;
    var node := lines[b].subject;
    assert lines[..|lines|] == lines;
    if a < b {
      LastLink(j, lines, b, node, a);
      EmittedHas(j, lines, |lines|, b, lines[a].subject);
    } else {
      NotLinked(j, lines, b, node);
      forall d | b < d < |lines| && IsDetail(j, lines[d]) && lines[d].subject == node
        ensures LinkOf(j, lines[..d], node).Some?
      {
        var c :| 0 <= c < d && Links(lines, c, j.link, node);
        LinkFound(j, lines[..d], node);
        assert lines[..d][c] == lines[c];
      }
      HeldHas(j, lines, |lines|, b);
      LastLink(j, lines, |lines|, node, a);
      DrainAny(j, lines, Held(j, lines), node);
    }
  }

  lemma JustifiedSays(j: Join, lines: seq<NQuad>, x: Triple)
    requires Justified(j, lines, x)
    ensures exists a: nat, b: nat :: Says(lines, a, b, j.link, j.detail, j.output, x)
  {
    var a, b :| 0 <= a < |lines| && 0 <= b < |lines| && IsLink(j, lines[a]) && IsDetail(j, lines[b])
                && lines[a].objectId == lines[b].subject
                && x == Triple(lines[a].subject, j.output, lines[b].objectId);
    assert Says(lines, a, b, j.link, j.detail, j.output, x);
  }

  lemma OutputIs(lines: seq<NQuad>, out: seq<Triple>)
    requires multiset(out) == Written(ACTED_IN, lines) + Written(ACTORS, lines)
    ensures forall x :: x in out ==> Told(lines, x)
    ensures forall a: nat, b: nat :: Due(lines, a, b, "actor.film", "performance.film") ==>
                             Triple(lines[a].subject, "acted_in", lines[b].objectId) in out
    ensures forall a: nat, b: nat :: Due(lines, a, b, "starring", "performance.actor") ==>
                             Triple(lines[a].subject, "actors", lines[b].objectId) in out
  {
    hide Written, Justified, Due, Says;
    forall x | x in out
      ensures Told(lines, x)
    {
      assert x in multiset(out);
      if x in Written(ACTED_IN, lines) {
        WrittenIsJustified(ACTED_IN, lines, x);
        JustifiedSays(ACTED_IN, lines, x);
      } else {
        WrittenIsJustified(ACTORS, lines, x);
        JustifiedSays(ACTORS, lines, x);
      }
    }
    forall a: nat, b: nat | Due(lines, a, b, "actor.film", "performance.film")
      ensures a < |lines| && b < |lines| && Triple(lines[a].subject, "acted_in", lines[b].objectId) in out
    {
      DueInRange(lines, a, b, "actor.film", "performance.film");
      DueIsWritten(ACTED_IN, lines, a, b);
      assert Triple(lines[a].subject, "acted_in", lines[b].objectId) in multiset(out);
    }
    forall a: nat, b: nat | Due(lines, a, b, "starring", "performance.actor")
      ensures a < |lines| && b < |lines| && Triple(lines[a].subject, "actors", lines[b].objectId) in out
    {
      DueInRange(lines, a, b, "starring", "performance.actor");
      DueIsWritten(ACTORS, lines, a, b);
      assert Triple(lines[a].subject, "actors", lines[b].objectId) in multiset(out);
    }
  }

  lemma DueInRange(lines: seq<NQuad>, a: nat, b: nat, link: string, detail: string)
    requires Due(lines, a, b, link, detail)
    ensures a < |lines| && b < |lines|
  {
  }

  lemma {:induction false} StreamedIsEmitted(lines: seq<NQuad>)
    ensures multiset(Streamed(lines)) == Emitted(ACTED_IN, lines) + Emitted(ACTORS, lines)
    decreases |lines|
  {
    hide LinkOf, IsDetail;
    if lines != [] {
      var init, nq := lines[..|lines| - 1], lines[|lines| - 1];
      StreamedIsEmitted(init);
      OneIsJoined(ACTED_IN, init, nq);
      OneIsJoined(ACTORS, init, nq);
      hide StreamedOne, Joined;
    }
  }

  lemma OneIsJoined(j: Join, init: seq<NQuad>, nq: NQuad)
    ensures multiset(StreamedOne(j, init, nq)) ==
            if IsDetail(j, nq) then Joined(j, LinkOf(j, init, nq.subject), nq.objectId) else multiset{}
  {
    hide LinkOf, IsDetail;
  }

  /** The links of a join as the map that the loop keeps. */
  ghost predicate Tracks(j: Join, lines: seq<NQuad>, links: map<string, string>) {
    forall node :: LinkOf(j, lines, node) == if node in links then Some(links[node]) else None
  }

  /** The pass over the required lines, then the two drains. */
  method ConvertLines(lines: seq<NQuad>) returns (out: seq<Triple>)
    ensures multiset(out) == Written(ACTED_IN, lines) + Written(ACTORS, lines)
    ensures Streamed(lines) <= out
    ensures forall x :: x in out ==> Told(lines, x)
    ensures forall a: nat, b: nat :: Due(lines, a, b, "actor.film", "performance.film") ==>
                             Triple(lines[a].subject, "acted_in", lines[b].objectId) in out
    ensures forall a: nat, b: nat :: Due(lines, a, b, "starring", "performance.actor") ==>
                             Triple(lines[a].subject, "actors", lines[b].objectId) in out
  {
    hide LinkOf, Emitted, Held, Drained, IsLink, IsDetail, Told, Due, Streamed;
    var actormp: map<string, string>, starringmp: map<string, string> := map[], map[];
    var r1: map<string, string>, r2: map<string, string> := map[], map[];
    out := [];
    NothingPending(ACTED_IN);
    NothingPending(ACTORS);
    NoLinks(ACTED_IN);
    NoLinks(ACTORS);
    StreamedSnoc([], NQuad("", "", ""));
    for i := 0 to |lines|
      invariant Tracks(ACTED_IN, lines[..i], actormp) && Tracks(ACTORS, lines[..i], starringmp)
      invariant r1 == Held(ACTED_IN, lines[..i]) && r2 == Held(ACTORS, lines[..i])
      invariant out == Streamed(lines[..i])
    {
      var nq := lines[i];
      assert lines[..i + 1] == lines[..i] + [nq];
      StreamedSnoc(lines[..i], nq);
      StreamStep(ACTED_IN, lines[..i], nq);
      StreamStep(ACTORS, lines[..i], nq);
      Kinds(nq);
      if !IsRequired(nq) {
        continue;
      }
      if nq.pred == "actor.film" {
        actormp := actormp[nq.objectId := nq.subject];
      } else if nq.pred == "starring" {
        starringmp := starringmp[nq.objectId := nq.subject];
      } else if nq.pred == "performance.film" {
        if nq.subject in actormp {
          out := out + [Triple(actormp[nq.subject], "acted_in", nq.objectId)];
          continue;
        }
        r1 := r1[nq.subject := nq.objectId];
      } else if nq.pred == "performance.actor" {
        if nq.subject in starringmp {
          out := out + [Triple(starringmp[nq.subject], "actors", nq.objectId)];
          continue;
        }
        r2 := r2[nq.subject := nq.objectId];
      }
    }
    assert lines[..|lines|] == lines;
    StreamedIsEmitted(lines);
    var first := DrainHeld(ACTED_IN, lines, actormp, r1);
    var second := DrainHeld(ACTORS, lines, starringmp, r2);
    out := out + first + second;
    OutputIs(lines, out);
  }

  lemma Kinds(nq: NQuad)
    ensures IsLink(ACTED_IN, nq) <==> nq.pred == "actor.film"
    ensures IsDetail(ACTED_IN, nq) <==> nq.pred == "performance.film"
    ensures IsLink(ACTORS, nq) <==> nq.pred == "starring"
    ensures IsDetail(ACTORS, nq) <==> nq.pred == "performance.actor"
    ensures var four := ["actor.film", "performance.film", "starring", "performance.actor"];
            forall a, b :: 0 <= a < b < 4 ==> four[a] != four[b]
  {
    assert "actor.film"[0] == 'a' && "starring"[0] == 's';
    assert "performance.film"[12] == 'f' && "performance.actor"[12] == 'a';
  }

  lemma NoLinks(j: Join)
    ensures Tracks(j, [], map[])
  {
  }

  lemma NothingHeld(j: Join, all: seq<NQuad>)
    ensures Drained(j, all, map[]) == multiset{}
  {
  }

  /** Writes the held details whose link has arrived, walking the map in no particular order. */
  method DrainHeld(j: Join, ghost lines: seq<NQuad>, links: map<string, string>, held: map<string, string>)
    returns (out: seq<Triple>)
    requires Tracks(j, lines, links)
    ensures multiset(out) == Drained(j, lines, held)
  {
    hide LinkOf, Drained;
    out := [];
    var rest := held;
    NothingHeld(j, lines);
    while rest != map[]
      invariant multiset(out) + Drained(j, lines, rest) == Drained(j, lines, held)
      decreases |rest|
    {
      var k :| k in rest;
      DrainAny(j, lines, rest, k);
      SmallerMap(rest, k);
      if k in links {
        out := out + [Triple(links[k], j.output, rest[k])];
      }
      rest := rest - {k};
    }
  }
}
