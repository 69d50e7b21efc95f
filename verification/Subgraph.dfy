/** The bounded walk over entities that occur together in facts. */
module Subgraph {

  type Name = string

  /** The entity table, and for every fact the entities linked to it. */
  datatype Graph = Graph(entities: set<Name>, facts: seq<set<Name>>)

  datatype Node = Node(name: Name, hops: nat)

  predicate CoOccur(g: Graph, a: Name, b: Name) {
    && a != b && a in g.entities && b in g.entities
    && exists i :: 0 <= i < |g.facts| && a in g.facts[i] && b in g.facts[i]
  }

  function Peers(g: Graph, a: Name): set<Name> {
    set b | b in g.entities && CoOccur(g, a, b)
  }

  /** `m` is at the end of a co-occurrence chain of exactly `k` links from the root. */
  ghost predicate Chain(g: Graph, root: Name, m: Name, k: nat)
    decreases k
  {
    if k == 0 then m == root && root in g.entities
    else exists p :: Chain(g, root, p, k - 1) && CoOccur(g, p, m)
  }

  /** The peer query: `ask(a, n)` lists `n` distinct peers of `a`, or all when there are
      fewer. Which ones it prefers, and in what order, is the database's affair. */
  ghost predicate AnswersQueries(g: Graph, ask: (Name, int) -> seq<Name>) {
    forall a, n :: n > 0 ==>
      && (forall b :: b in ask(a, n) ==> b in Peers(g, a))
      && (forall i, j :: 0 <= i < j < |ask(a, n)| ==> ask(a, n)[i] != ask(a, n)[j])
      && |ask(a, n)| == if |Peers(g, a)| <= n then |Peers(g, a)| else n
  }

  function Names(nodes: seq<Node>): set<Name> {
    set n | n in nodes :: n.name
  }

  ghost predicate Distinct(nodes: seq<Node>) {
    forall i, j :: 0 <= i < j < |nodes| ==> nodes[i].name != nodes[j].name
  }

  ghost predicate Sincere(g: Graph, root: Name, depth: nat, nodes: seq<Node>) {
    forall n :: n in nodes ==> n.hops <= depth && Chain(g, root, n.name, n.hops)
  }

  /** Some reported node is `m`, at most `k` hops out. */
  ghost predicate Within(nodes: seq<Node>, m: Name, k: nat) {
    exists j: nat :: j <= k && Node(m, j) in nodes
  }

  ghost predicate CoversTo(g: Graph, root: Name, nodes: seq<Node>, h: nat) {
    forall m, k: nat {:trigger Within(nodes, m, k)} :: k <= h && Chain(g, root, m, k) ==> Within(nodes, m, k)
  }

  /** Edges join entities that occur together, and none is drawn twice. */
  ghost predicate RealEdges(g: Graph, edges: seq<(Name, Name)>) {
    && (forall e :: e in edges ==> CoOccur(g, e.0, e.1))
    && forall i, j :: 0 <= i < j < |edges| ==> edges[i] != edges[j]
  }

  /** An entity has its edges to all its peers. */
  ghost predicate Drawn(g: Graph, c: Name, edges: seq<(Name, Name)>) {
    forall b :: b in Peers(g, c) ==> (c, b) in edges
  }

  /** So has every node fewer than `h` hops out. */
  ghost predicate DrawnTo(g: Graph, nodes: seq<Node>, edges: seq<(Name, Name)>, h: nat) {
    forall n :: n in nodes && n.hops < h ==> Drawn(g, n.name, edges)
  }

  lemma DrawnLasts(g: Graph, c: Name, drawn: seq<(Name, Name)>, edges: seq<(Name, Name)>)
    requires drawn <= edges && Drawn(g, c, drawn)
    ensures Drawn(g, c, edges)
  {
    assert forall e :: e in drawn ==> e in edges;
  }

  /** After a layer the nodes it expanded have their edges too. */
  lemma LayerIsDrawn(g: Graph, root: Name, frontier: seq<Name>, before: seq<Node>, nodes: seq<Node>,
                     drawn: seq<(Name, Name)>, edges: seq<(Name, Name)>, h: nat)
    requires Frontier(g, root, frontier, before, h) && Grows(root, before, nodes, h) && drawn <= edges
    requires forall n :: n in before ==> n.hops <= h
    requires DrawnTo(g, before, drawn, h) && forall c :: c in frontier ==> Drawn(g, c, edges)
    ensures DrawnTo(g, nodes, edges, h + 1)
  {
    hide Drawn;
    forall n | n in nodes && n.hops < h + 1 ensures Drawn(g, n.name, edges) {
      if n in before && n.hops < h {
        DrawnLasts(g, n.name, drawn, edges);
      } else {
        assert n == Node(n.name, n.hops) && n.name in frontier;
      }
    }
  }

  /** The frontier of layer `h`: the nodes at that distance, the root itself at the start. */
  ghost predicate Frontier(g: Graph, root: Name, frontier: seq<Name>, nodes: seq<Node>, h: nat) {
    if h == 0 then frontier == [root] && nodes == []
    else forall c :: c in frontier <==> Node(c, h) in nodes
  }

  lemma NamesMember(nodes: seq<Node>, n: Node)
    requires n in nodes
    ensures n.name in Names(nodes)
  {
  }

  lemma NamesGrow(nodes: seq<Node>, n: Node)
    ensures Names(nodes + [n]) == Names(nodes) + {n.name}
  {
    forall x | x in nodes || x == n ensures x in nodes + [n] {
    }
  }

  lemma AllPeersListed(g: Graph, ask: (Name, int) -> seq<Name>, a: Name, n: int, b: Name)
    requires AnswersQueries(g, ask) && n > 0 && |ask(a, n)| == |Peers(g, a)| && b in Peers(g, a)
    ensures b in ask(a, n)
  {
    DistinctFills(ask(a, n), Peers(g, a));
  }

  lemma {:induction false} DistinctFills(s: seq<Name>, all: set<Name>)
    requires forall b :: b in s ==> b in all
    requires forall i, j :: 0 <= i < j < |s| ==> s[i] != s[j]
    requires |s| == |all|
    ensures forall b :: b in all ==> b in s
  {
    if s != [] {
      var last := s[|s| - 1];
      assert s == s[..|s| - 1] + [last] && last in s;
      DistinctFills(s[..|s| - 1], all - {last});
      forall b | b in all ensures b in s {
        if b != last {
          assert b in s[..|s| - 1];
        }
      }
    }
  }

  /** Everything next to an expanded entity is reported. */
  ghost predicate Expanded(g: Graph, c: Name, nodes: seq<Node>, h: nat) {
    c in g.entities ==> Node(c, h) in nodes && Peers(g, c) <= Names(nodes)
  }

  /** The nodes a layer may add: the root at the start, then entities one hop further. */
  ghost predicate Grows(root: Name, before: seq<Node>, nodes: seq<Node>, h: nat) {
    && before <= nodes
    && forall n :: n in nodes ==> n in before || n.hops == h + 1 || (h == 0 && n == Node(root, 0))
  }

  /** What is true of the walk throughout a layer. */
  ghost predicate Walking(g: Graph, root: Name, depth: nat, limit: int, nodes: seq<Node>, edges: seq<(Name, Name)>) {
    |nodes| <= limit && Distinct(nodes) && Sincere(g, root, depth, nodes) && RealEdges(g, edges)
  }

  /** The nodes from number `from` on are the queued names in order, `h` hops out. */
  ghost predicate Queue(queued: seq<Name>, nodes: seq<Node>, from: int, h: nat) {
    && from >= 0 && from + |queued| == |nodes|
    && forall q :: from <= q < |nodes| ==> nodes[q] == Node(queued[q - from], h)
  }

  ghost predicate HasParent(g: Graph, nodes: seq<Node>, e: int, m: int)
    requires 0 <= e <= |nodes| && 0 <= m < |nodes|
  {
    exists j :: 0 <= j < e && CoOccur(g, nodes[j].name, nodes[m].name)
  }

  /** Every node but the first is next to one of the first `e`. */
  ghost predicate Parented(g: Graph, nodes: seq<Node>, e: int) {
    0 <= e <= |nodes| && forall m :: 0 < m < |nodes| ==> HasParent(g, nodes, e, m)
  }

  /** Node number `i` has more peers than the room that `k` nodes left, all of them reported
      before its own peers: the first node, and nodes next to one listed before `i`. */
  ghost predicate CrowdedAt(g: Graph, depth: nat, limit: int, nodes: seq<Node>, i: int, k: int) {
    && 0 <= i < k <= |nodes| && nodes[i].hops < depth && |Peers(g, nodes[i].name)| + k > limit
    && Parented(g, nodes[..k], i)
  }

  /** An entity had more peers than there was room for when it was expanded. */
  ghost predicate Crowded(g: Graph, depth: nat, limit: int, nodes: seq<Node>) {
    exists i, k :: CrowdedAt(g, depth, limit, nodes, i, k)
  }

  lemma CrowdedLasts(g: Graph, depth: nat, limit: int, before: seq<Node>, nodes: seq<Node>)
    requires before <= nodes && Crowded(g, depth, limit, before)
    ensures Crowded(g, depth, limit, nodes)
  {
    var i, k :| CrowdedAt(g, depth, limit, before, i, k);
    assert nodes[..k] == before[..k];
    assert CrowdedAt(g, depth, limit, nodes, i, k);
  }

  lemma CrowdedNow(g: Graph, depth: nat, limit: int, was: seq<Node>, nodes: seq<Node>, i: nat)
    requires was <= nodes && i < |was| && Parented(g, was, i)
    requires was[i].hops < depth && |Peers(g, was[i].name)| + |was| > limit
    ensures Crowded(g, depth, limit, nodes)
  {
    assert nodes[..|was|] == was;
    assert CrowdedAt(g, depth, limit, nodes, i, |was|);
  }

  lemma ParentedGrows(g: Graph, was: seq<Node>, nodes: seq<Node>, i: nat)
    requires was <= nodes && i < |was| && Parented(g, was, i)
    requires forall m :: |was| <= m < |nodes| ==> CoOccur(g, was[i].name, nodes[m].name)
    ensures Parented(g, nodes, i + 1)
  {
    var e := i + 1;
    forall m | 0 < m < |nodes| ensures HasParent(g, nodes, e, m) {
      if m < |was| {
        assert HasParent(g, was, i, m);
        var j :| 0 <= j < i && CoOccur(g, was[j].name, was[m].name);
        assert CoOccur(g, nodes[j].name, nodes[m].name);
      } else {
        assert CoOccur(g, nodes[i].name, nodes[m].name);
      }
    }
  }

  /** The walk from `root`, `depth` hops out, `limit` nodes at most. Below the limit nothing is
      missing unless some entity had more peers than there was room for when it was expanded. */
  method QuerySubgraph(g: Graph, root: Name, depth: int, limit: int, ask: (Name, int) -> seq<Name>)
    returns (nodes: seq<Node>, edges: seq<(Name, Name)>)
    requires AnswersQueries(g, ask)
    ensures |nodes| <= (if limit < 0 then 0 else limit) && Distinct(nodes)
    ensures Sincere(g, root, if depth < 1 then 1 else depth, nodes) && RealEdges(g, edges)
    ensures |nodes| < limit && !Crowded(g, if depth < 1 then 1 else depth, limit, nodes) ==>
              CoversTo(g, root, nodes, if depth < 1 then 1 else depth)
    ensures |nodes| < limit && !Crowded(g, if depth < 1 then 1 else depth, limit, nodes) ==>
              DrawnTo(g, nodes, edges, if depth < 1 then 1 else depth)
    ensures root in g.entities && |Peers(g, root)| < limit ==> Peers(g, root) <= Names(nodes)
    ensures (forall a :: |Peers(g, a)| + |g.entities| < limit) ==>
              CoversTo(g, root, nodes, if depth < 1 then 1 else depth)
  {
    hide Crowded;
    nodes, edges := [], [];
    assert |Peers(g, root)| >= 0;
    if limit <= 0 {
      return;
    }
    var frontier := [root];
    var hops := 0;
    var maxDepth := if depth < 1 then 1 else depth;
    while frontier != [] && hops <= maxDepth && |nodes| < limit
      invariant 0 <= hops <= maxDepth + 1
      invariant Walking(g, root, maxDepth, limit, nodes, edges)
      invariant forall n :: n in nodes ==> n.hops <= hops
      invariant if hops < maxDepth then Frontier(g, root, frontier, nodes, hops) else frontier == []
      invariant 0 < hops < maxDepth && |nodes| < limit ==> InOrder(g, frontier, nodes, hops)
      invariant hops > 0 && |nodes| < limit && !Crowded(g, maxDepth, limit, nodes) ==>
                  CoversTo(g, root, nodes, if hops < maxDepth then hops else maxDepth)
      invariant hops > 0 && root in g.entities && |Peers(g, root)| < limit ==> Peers(g, root) <= Names(nodes)
      invariant |nodes| < limit && !Crowded(g, maxDepth, limit, nodes) ==>
                  DrawnTo(g, nodes, edges, if hops < maxDepth then hops else maxDepth)
      decreases maxDepth + 1 - hops
    {
      ghost var before, layer, drawn := nodes, frontier, edges;
      nodes, edges, frontier := ExpandLayer(g, root, frontier, hops, maxDepth, limit, ask, nodes, edges);
      NamesOfPrefix(before, nodes);
      if Crowded(g, maxDepth, limit, before) {
        CrowdedLasts(g, maxDepth, limit, before, nodes);
      }
      if |nodes| < limit && !Crowded(g, maxDepth, limit, nodes) {
        LayerIsComplete(g, root, maxDepth, layer, before, nodes, hops);
        LayerIsDrawn(g, root, layer, before, nodes, drawn, edges, hops);
      }
      hops := hops + 1;
    }
    if |nodes| < limit && !Crowded(g, maxDepth, limit, nodes) && hops < maxDepth {
      NothingFurther(g, root, nodes, hops, maxDepth);
    }
    NodesAreEntities(g, root, maxDepth, nodes);
    if forall a :: |Peers(g, a)| + |g.entities| < limit {
      NobodyIsCrowded(g, maxDepth, limit, nodes);
    }
  }

  /** The frontier is the end of the node list, and everything listed before it was expanded. */
  ghost predicate InOrder(g: Graph, frontier: seq<Name>, nodes: seq<Node>, h: nat) {
    && Queue(frontier, nodes, |nodes| - |frontier|, h)
    && Parented(g, nodes, |nodes| - |frontier|)
  }

  lemma NamesOfPrefix(before: seq<Node>, nodes: seq<Node>)
    requires before <= nodes
    ensures Names(before) <= Names(nodes)
  {
    assert forall n :: n in before ==> n in nodes;
  }

  lemma NobodyIsCrowded(g: Graph, depth: nat, limit: int, nodes: seq<Node>)
    requires |nodes| <= |g.entities| && forall a :: |Peers(g, a)| + |g.entities| < limit
    ensures !Crowded(g, depth, limit, nodes)
  {
    forall i, k ensures !CrowdedAt(g, depth, limit, nodes, i, k) {
      if 0 <= i < k <= |nodes| {
        assert |Peers(g, nodes[i].name)| + |g.entities| < limit;
      }
    }
  }

  /** Within a layer: `k` of the frontier are done, `e` nodes have been expanded in all, and the
      nodes the layer added are queued in order. */
  ghost predicate Ordered(g: Graph, frontier: seq<Name>, before: seq<Node>, nodes: seq<Node>, next: seq<Name>,
                          h: nat, depth: nat, k: nat, e: int) {
    && before <= nodes && Parented(g, nodes, e)
    && (h == 0 ==> before == [] && |frontier| == 1 && e == if nodes == [] then 0 else 1)
    && (h > 0 ==> Queue(frontier, before, |before| - |frontier|, h) && e == |before| - |frontier| + k)
    && (h + 1 < depth ==> Queue(next, nodes, if h == 0 then e else |before|, h + 1))
  }

  lemma OrderStarts(g: Graph, frontier: seq<Name>, before: seq<Node>, h: nat, depth: nat, e: int)
    requires if h == 0 then before == [] && |frontier| == 1 else InOrder(g, frontier, before, h)
    requires e == if h == 0 then 0 else |before| - |frontier|
    ensures Ordered(g, frontier, before, before, [], h, depth, 0, e)
  {
  }

  lemma SkipKeepsOrder(g: Graph, frontier: seq<Name>, before: seq<Node>, nodes: seq<Node>, next: seq<Name>,
                       depth: nat, k: nat, e: int)
    requires Ordered(g, frontier, before, nodes, next, 0, depth, k, e)
    ensures Ordered(g, frontier, before, nodes, next, 0, depth, k + 1, e)
  {
  }

  /** The next to expand is the node that comes after those expanded so far. */
  lemma OrderBefore(g: Graph, frontier: seq<Name>, before: seq<Node>, nodes: seq<Node>, was: seq<Node>,
                    next: seq<Name>, h: nat, depth: nat, k: nat, e: int)
    requires Ordered(g, frontier, before, nodes, next, h, depth, k, e) && k < |frontier|
    requires h == 0 ==> nodes == [] && was == [Node(frontier[k], 0)]
    requires h > 0 ==> was == nodes
    ensures 0 <= e < |was| && was[e] == Node(frontier[k], h) && Parented(g, was, e)
    ensures e == if h == 0 then 0 else |before| - |frontier| + k
    ensures if h == 0 then before == [] && |frontier| == 1 else Queue(frontier, before, |before| - |frontier|, h)
    ensures h + 1 < depth ==> Queue(next, was, if h == 0 then 1 else |before|, h + 1)
  {
  }

  lemma OrderAfter(g: Graph, frontier: seq<Name>, before: seq<Node>, nodes: seq<Node>, next: seq<Name>,
                   h: nat, depth: nat, k: nat, e: int)
    requires before <= nodes && nodes != [] && Parented(g, nodes, e)
    requires if h == 0 then before == [] && |frontier| == 1 && e == 1
             else Queue(frontier, before, |before| - |frontier|, h) && e == |before| - |frontier| + k
    requires h + 1 < depth ==> Queue(next, nodes, if h == 0 then 1 else |before|, h + 1)
    ensures Ordered(g, frontier, before, nodes, next, h, depth, k, e)
  {
  }

  lemma OrderEnds(g: Graph, frontier: seq<Name>, before: seq<Node>, nodes: seq<Node>, next: seq<Name>,
                  h: nat, depth: nat, k: nat, e: int)
    requires Ordered(g, frontier, before, nodes, next, h, depth, k, e)
    ensures k == |frontier| && h + 1 < depth ==> InOrder(g, next, nodes, h + 1)
  {
  }

  /** With room left and nobody crowded, the first `k` of the frontier are fully expanded and have
      their edges. */
  ghost predicate DoneSoFar(g: Graph, frontier: seq<Name>, nodes: seq<Node>, edges: seq<(Name, Name)>, h: nat,
                            depth: nat, limit: int, k: nat)
  {
    k <= |frontier| && (|nodes| < limit && !Crowded(g, depth, limit, nodes) ==>
      forall i :: 0 <= i < k ==> Expanded(g, frontier[i], nodes, h) && Drawn(g, frontier[i], edges))
  }

  lemma DoneOneMore(g: Graph, frontier: seq<Name>, was: seq<Node>, nodes: seq<Node>, drawn: seq<(Name, Name)>,
                    edges: seq<(Name, Name)>, h: nat, depth: nat, limit: int, k: nat)
    requires DoneSoFar(g, frontier, was, drawn, h, depth, limit, k) && k < |frontier|
    requires was <= nodes && drawn <= edges
    requires |nodes| < limit && !Crowded(g, depth, limit, nodes) ==>
               Expanded(g, frontier[k], nodes, h) && Drawn(g, frontier[k], edges)
    ensures DoneSoFar(g, frontier, nodes, edges, h, depth, limit, k + 1)
  {
    hide Crowded, Expanded, Drawn;
    if |nodes| < limit && !Crowded(g, depth, limit, nodes) {
      if Crowded(g, depth, limit, was) {
        CrowdedLasts(g, depth, limit, was, nodes);
      }
      forall i | 0 <= i < k ensures Expanded(g, frontier[i], nodes, h) && Drawn(g, frontier[i], edges) {
        DrawnLasts(g, frontier[i], drawn, edges);
        ExpandedLasts(g, frontier[i], was, nodes, h);
      }
    }
  }

  lemma NothingDoneYet(g: Graph, frontier: seq<Name>, nodes: seq<Node>, edges: seq<(Name, Name)>, h: nat, depth: nat,
                       limit: int)
    ensures DoneSoFar(g, frontier, nodes, edges, h, depth, limit, 0)
  {
  }

  lemma AllDone(g: Graph, frontier: seq<Name>, nodes: seq<Node>, edges: seq<(Name, Name)>, h: nat, depth: nat,
                limit: int, k: nat)
    requires DoneSoFar(g, frontier, nodes, edges, h, depth, limit, k)
    ensures k == |frontier| && |nodes| < limit && !Crowded(g, depth, limit, nodes) ==>
              forall c :: c in frontier ==> Expanded(g, c, nodes, h) && Drawn(g, c, edges)
  {
  }

  method ExpandLayer(g: Graph, root: Name, frontier: seq<Name>, hops: nat, maxDepth: nat, limit: int,
                     ask: (Name, int) -> seq<Name>, before: seq<Node>, drawn: seq<(Name, Name)>)
    returns (nodes: seq<Node>, edges: seq<(Name, Name)>, next: seq<Name>)
    requires AnswersQueries(g, ask) && hops < maxDepth && |before| < limit
    requires Walking(g, root, maxDepth, limit, before, drawn)
    requires Frontier(g, root, frontier, before, hops) && forall n :: n in before ==> n.hops <= hops
    requires hops > 0 ==> InOrder(g, frontier, before, hops)
    ensures Walking(g, root, maxDepth, limit, nodes, edges) && Grows(root, before, nodes, hops)
    ensures if hops + 1 < maxDepth then Frontier(g, root, next, nodes, hops + 1) else next == []
    ensures hops + 1 < maxDepth && |nodes| < limit ==> InOrder(g, next, nodes, hops + 1)
    ensures |nodes| < limit && !Crowded(g, maxDepth, limit, nodes) ==>
              forall c :: c in frontier ==> Expanded(g, c, nodes, hops) && Drawn(g, c, edges)
    ensures drawn <= edges
    ensures hops == 0 && root in g.entities && |Peers(g, root)| < limit ==> Peers(g, root) <= Names(nodes)
  {
    hide Crowded, Peers, Chain, Sincere, Distinct, RealEdges, Drawn, AnswersQueries;
    hide Ordered, Parented, Queue, DoneSoFar;
    nodes, edges, next := before, drawn, [];
    var k := 0;
    ghost var e := if hops == 0 then 0 else |before| - |frontier|;
    OrderStarts(g, frontier, before, hops, maxDepth, e);
    NothingDoneYet(g, frontier, nodes, edges, hops, maxDepth, limit);
    while k < |frontier| && |nodes| < limit
      invariant 0 <= k <= |frontier|
      invariant Walking(g, root, maxDepth, limit, nodes, edges) && Grows(root, before, nodes, hops)
      invariant forall c :: c in next <==> Node(c, hops + 1) in nodes && hops + 1 < maxDepth
      invariant hops == 0 && k == 0 ==> nodes == []
      invariant Ordered(g, frontier, before, nodes, next, hops, maxDepth, k, e)
      invariant DoneSoFar(g, frontier, nodes, edges, hops, maxDepth, limit, k) && drawn <= edges
      invariant hops == 0 && k > 0 && root in g.entities && |Peers(g, root)| < limit ==>
                  Peers(g, root) <= Names(nodes)
    {
      var current := frontier[k];
      assert current in frontier;
      k := k + 1;
      if hops > 0 {
        ReportedIsEntity(g, root, maxDepth, before, Node(current, hops));
      }
      if current !in g.entities {
        SkipKeepsOrder(g, frontier, before, nodes, next, maxDepth, k - 1, e);
        NoPeers(g, current, edges);
        DoneOneMore(g, frontier, nodes, nodes, edges, edges, hops, maxDepth, limit, k - 1);
        continue;
      }
      ghost var entry, earlier := nodes, edges;
      if current !in Names(nodes) {
        RootIsSincere(g, root, maxDepth);
        nodes := nodes + [Node(current, hops)];
      }
      ghost var was := nodes;
      OrderBefore(g, frontier, before, entry, was, next, hops, maxDepth, k - 1, e);
      ghost var from := if hops == 0 then 1 else |before|;
      nodes, edges, next := VisitPeers(g, root, current, hops, maxDepth, limit, ask, nodes, edges, next, from);
      ParentedGrows(g, was, nodes, e);
      e := e + 1;
      OrderAfter(g, frontier, before, nodes, next, hops, maxDepth, k, e);
      if |Peers(g, current)| + |was| > limit {
        CrowdedNow(g, maxDepth, limit, was, nodes, e - 1);
      }
      DoneOneMore(g, frontier, entry, nodes, earlier, edges, hops, maxDepth, limit, k - 1);
    }
    AllDone(g, frontier, nodes, edges, hops, maxDepth, limit, k);
    OrderEnds(g, frontier, before, nodes, next, hops, maxDepth, k, e);
    assert next != [] ==> next[0] in next;
  }

  method VisitPeers(g: Graph, root: Name, current: Name, hops: nat, maxDepth: nat, limit: int,
                    ask: (Name, int) -> seq<Name>, before: seq<Node>, drawn: seq<(Name, Name)>, queued: seq<Name>,
                    ghost from: nat)
    returns (nodes: seq<Node>, edges: seq<(Name, Name)>, next: seq<Name>)
    requires AnswersQueries(g, ask) && hops < maxDepth
    requires Walking(g, root, maxDepth, limit, before, drawn) && Node(current, hops) in before
    requires forall c :: c in queued <==> Node(c, hops + 1) in before && hops + 1 < maxDepth
    requires hops + 1 < maxDepth ==> Queue(queued, before, from, hops + 1)
    ensures Walking(g, root, maxDepth, limit, nodes, edges)
    ensures before <= nodes && forall n :: n in nodes ==> n in before || n.hops == hops + 1
    ensures forall m :: |before| <= m < |nodes| ==> CoOccur(g, current, nodes[m].name)
    ensures forall c :: c in next <==> Node(c, hops + 1) in nodes && hops + 1 < maxDepth
    ensures hops + 1 < maxDepth ==> Queue(next, nodes, from, hops + 1)
    ensures drawn <= edges
    ensures |Peers(g, current)| + |before| <= limit ==> Peers(g, current) <= Names(nodes) && Drawn(g, current, edges)
  {
    nodes, edges, next := before, drawn, queued;
    var peerLimit := if limit - |nodes| < 1 then 1 else limit - |nodes|;
    var peers := ask(current, peerLimit);
    var j := 0;
    while j < |peers|
      invariant 0 <= j <= |peers| && |nodes| <= |before| + j
      invariant Walking(g, root, maxDepth, limit, nodes, edges)
      invariant before <= nodes && forall n :: n in nodes ==> n in before || n.hops == hops + 1
      invariant forall m :: |before| <= m < |nodes| ==> CoOccur(g, current, nodes[m].name)
      invariant forall c :: c in next <==> Node(c, hops + 1) in nodes && hops + 1 < maxDepth
      invariant hops + 1 < maxDepth ==> Queue(next, nodes, from, hops + 1)
      invariant forall i :: 0 <= i < j ==> peers[i] in Names(nodes) && (current, peers[i]) in edges
      invariant drawn <= edges
    {
      var peer := peers[j];
      assert peer in peers && peer in Peers(g, current);
      if (current, peer) !in edges {
        edges := edges + [(current, peer)];
      }
      if |nodes| >= limit {
        break;
      }
      if peer !in Names(nodes) {
        NamesGrow(nodes, Node(peer, hops + 1));
        AddNode(g, root, current, peer, hops, maxDepth, nodes);
        nodes := nodes + [Node(peer, hops + 1)];
        if hops + 1 < maxDepth {
          next := next + [peer];
        }
      }
      j := j + 1;
    }
    if |Peers(g, current)| + |before| <= limit {
      forall b | b in Peers(g, current) ensures b in Names(nodes) && (current, b) in edges {
        AllPeersListed(g, ask, current, peerLimit, b);
      }
    }
  }

  lemma AddNode(g: Graph, root: Name, current: Name, peer: Name, hops: nat, maxDepth: nat, nodes: seq<Node>)
    requires Sincere(g, root, maxDepth, nodes) && Distinct(nodes) && Node(current, hops) in nodes
    requires peer in Peers(g, current) && peer !in Names(nodes) && hops < maxDepth
    ensures Sincere(g, root, maxDepth, nodes + [Node(peer, hops + 1)]) && Distinct(nodes + [Node(peer, hops + 1)])
  {
    assert Chain(g, root, current, hops) && CoOccur(g, current, peer);
    assert Chain(g, root, peer, hops + 1);
    forall i | 0 <= i < |nodes| ensures nodes[i].name != peer {
      NamesMember(nodes, nodes[i]);
    }
  }

  lemma ExpandedLasts(g: Graph, c: Name, was: seq<Node>, nodes: seq<Node>, h: nat)
    requires was <= nodes && Expanded(g, c, was, h)
    ensures Expanded(g, c, nodes, h)
  {
    assert forall n :: n in was ==> n in nodes;
  }

  lemma LayerIsComplete(g: Graph, root: Name, depth: nat, frontier: seq<Name>, before: seq<Node>, nodes: seq<Node>,
                        h: nat)
    requires Sincere(g, root, depth, before)
    requires Frontier(g, root, frontier, before, h) && Grows(root, before, nodes, h)
    requires forall n :: n in before ==> n.hops <= h
    requires h > 0 ==> CoversTo(g, root, before, h)
    requires forall c :: c in frontier ==> Expanded(g, c, nodes, h)
    ensures CoversTo(g, root, nodes, h + 1)
  {
    forall m, k: nat | k <= h + 1 && Chain(g, root, m, k)
      ensures Within(nodes, m, k)
    {
      if h > 0 && k <= h {
        assert Within(before, m, k);
        var j: nat :| j <= k && Node(m, j) in before;
        assert Node(m, j) in nodes;
      } else if k == 0 {
        assert root in frontier;
      } else {
        var p :| Chain(g, root, p, h) && CoOccur(g, p, m);
        StepFurther(g, root, depth, frontier, before, nodes, h, p, m);
      }
    }
  }

  ghost predicate HopsUpTo(nodes: seq<Node>, k: nat) {
    forall n :: n in nodes ==> n.hops <= k
  }

  /** An entity next to one that is `h` links away is at most `h + 1` hops out. */
  lemma StepFurther(g: Graph, root: Name, depth: nat, frontier: seq<Name>, before: seq<Node>, nodes: seq<Node>,
                    h: nat, p: Name, m: Name)
    requires Sincere(g, root, depth, before)
    requires Frontier(g, root, frontier, before, h) && before <= nodes
    requires HopsUpTo(nodes, h + 1)
    requires h > 0 ==> CoversTo(g, root, before, h)
    requires p in frontier ==> Expanded(g, p, nodes, h)
    requires Chain(g, root, p, h) && CoOccur(g, p, m)
    ensures Within(nodes, m, h + 1)
  {
    if p in frontier {
      PeerIsWithin(g, frontier, nodes, h, p, m);
    } else {
      EarlierPeer(g, root, depth, frontier, before, nodes, h, p, m);
    }
  }

  lemma EarlierPeer(g: Graph, root: Name, depth: nat, frontier: seq<Name>, before: seq<Node>, nodes: seq<Node>,
                    h: nat, p: Name, m: Name)
    requires Sincere(g, root, depth, before) && before <= nodes
    requires Frontier(g, root, frontier, before, h) && p !in frontier
    requires h > 0 ==> CoversTo(g, root, before, h)
    requires Chain(g, root, p, h) && CoOccur(g, p, m)
    ensures Within(nodes, m, h + 1)
  {
    assert h > 0;
    assert Within(before, p, h);
    var j: nat :| j <= h && Node(p, j) in before;
    ShorterChain(g, root, before, nodes, h, p, j, m);
  }

  lemma PeerIsWithin(g: Graph, frontier: seq<Name>, nodes: seq<Node>, h: nat, p: Name, m: Name)
    requires p in frontier && Expanded(g, p, nodes, h) && CoOccur(g, p, m)
    requires HopsUpTo(nodes, h + 1)
    ensures Within(nodes, m, h + 1)
  {
    assert m in Peers(g, p) && m in Names(nodes);
    var n :| n in nodes && n.name == m;
    assert Node(m, n.hops) in nodes;
  }

  lemma ShorterChain(g: Graph, root: Name, before: seq<Node>, nodes: seq<Node>, h: nat, p: Name, j: nat, m: Name)
    requires before <= nodes && CoversTo(g, root, before, h)
    requires j < h && Node(p, j) in before && Chain(g, root, p, j) && CoOccur(g, p, m)
    ensures Within(nodes, m, h + 1)
  {
    assert Chain(g, root, m, j + 1);
    assert Within(before, m, j + 1);
    var i: nat :| i <= j + 1 && Node(m, i) in before;
    assert Node(m, i) in nodes;
  }

  /** When a layer adds nothing, chains of any length end at nodes already reported. */
  lemma {:induction false} NothingFurther(g: Graph, root: Name, nodes: seq<Node>, h: nat, depth: nat)
    requires h <= depth && Sincere(g, root, depth, nodes)
    requires Frontier(g, root, [], nodes, h) && forall n :: n in nodes ==> n.hops <= h
    requires CoversTo(g, root, nodes, h)
    ensures CoversTo(g, root, nodes, depth)
  {
    forall m, k: nat | k <= depth && Chain(g, root, m, k)
      ensures Within(nodes, m, k)
    {
      ChainEndsInside(g, root, nodes, h, m, k, depth);
    }
  }

  lemma {:induction false} ChainEndsInside(g: Graph, root: Name, nodes: seq<Node>, h: nat, m: Name, k: nat, depth: nat)
    requires Sincere(g, root, depth, nodes)
    requires h > 0 && forall n :: n in nodes ==> n.hops < h
    requires CoversTo(g, root, nodes, h) && Chain(g, root, m, k)
    ensures Within(nodes, m, k)
    decreases k
  {
    if k > h {
      var p :| Chain(g, root, p, k - 1) && CoOccur(g, p, m);
      ChainEndsInside(g, root, nodes, h, p, k - 1, depth);
      var j: nat :| j <= k - 1 && Node(p, j) in nodes;
      assert Chain(g, root, p, j);
      assert Chain(g, root, m, j + 1);
      ChainEndsInside(g, root, nodes, h, m, j + 1, depth);
    }
  }

  lemma {:induction false} ChainStaysInTable(g: Graph, root: Name, m: Name, k: nat)
    requires Chain(g, root, m, k)
    ensures m in g.entities
  {
  }

  lemma NoPeers(g: Graph, c: Name, edges: seq<(Name, Name)>)
    ensures c !in g.entities ==> Drawn(g, c, edges)
  {
  }

  lemma RootIsSincere(g: Graph, root: Name, depth: nat)
    ensures root in g.entities ==> Sincere(g, root, depth, [Node(root, 0)])
    ensures Distinct([Node(root, 0)])
  {
  }

  lemma ReportedIsEntity(g: Graph, root: Name, depth: nat, nodes: seq<Node>, n: Node)
    requires Sincere(g, root, depth, nodes) && n in nodes
    ensures n.name in g.entities
  {
    ChainStaysInTable(g, root, n.name, n.hops);
  }

  lemma NodesAreEntities(g: Graph, root: Name, depth: nat, nodes: seq<Node>)
    requires Sincere(g, root, depth, nodes) && Distinct(nodes)
    ensures |nodes| <= |g.entities|
  {
    forall n | n in nodes ensures n.name in g.entities {
      ChainStaysInTable(g, root, n.name, n.hops);
    }
    DistinctFit(nodes, g.entities);
  }

  lemma {:induction false} DistinctFit(nodes: seq<Node>, all: set<Name>)
    requires Distinct(nodes) && forall n :: n in nodes ==> n.name in all
    ensures |nodes| <= |all|
  {
    if nodes != [] {
      DistinctFit(nodes[..|nodes| - 1], all - {nodes[|nodes| - 1].name});
    }
  }

  /** Full coverage means exactly the entities within `depth`, at their shortest distance. */
  lemma CoverageIsExact(g: Graph, root: Name, depth: nat, nodes: seq<Node>, m: Name)
    requires Sincere(g, root, depth, nodes) && Distinct(nodes) && CoversTo(g, root, nodes, depth)
    ensures m in Names(nodes) <==> exists k: nat :: k <= depth && Chain(g, root, m, k)
    ensures forall j: nat, k: nat :: Node(m, j) in nodes && Chain(g, root, m, k) ==> j <= k
  {
    if k: nat :| k <= depth && Chain(g, root, m, k) {
      assert Within(nodes, m, k);
      var j: nat :| j <= k && Node(m, j) in nodes;
      NamesMember(nodes, Node(m, j));
    }
    if m in Names(nodes) {
      var n :| n in nodes && n.name == m;
      assert Chain(g, root, m, n.hops);
    }
    forall j: nat, k: nat | Node(m, j) in nodes && Chain(g, root, m, k)
      ensures j <= k
    {
      if k <= depth {
        assert Within(nodes, m, k);
        var i: nat :| i <= k && Node(m, i) in nodes;
        SameNameSameNode(nodes, m, i, j);
      }
    }
  }

  lemma SameNameSameNode(nodes: seq<Node>, m: Name, i: nat, j: nat)
    requires Distinct(nodes) && Node(m, i) in nodes && Node(m, j) in nodes
    ensures i == j
  {
    var a :| 0 <= a < |nodes| && nodes[a] == Node(m, i);
    var b :| 0 <= b < |nodes| && nodes[b] == Node(m, j);
    assert nodes[a].name == nodes[b].name;
  }
}
