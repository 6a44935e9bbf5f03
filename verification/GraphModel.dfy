/**
 * The graph the network view draws (`buildGraphModel` in app/src/lib/topology-graph.ts):
 * selection, grouping, self-loops, the minimum-traffic cut and node traffic.
 */
module GraphModel {
  import opened Collections
  import opened FlowTypes
  import opened TopologyGrouping

  datatype GraphLink = GraphLink(source: NodeId, target: NodeId, value: real, category: string)

  datatype GraphNode = GraphNode(
    id: NodeId, text: string, kind: string, traffic: real, selfTotal: real, group: Option<GroupMeta>)

  datatype Model = Model(nodes: seq<GraphNode>, links: seq<GraphLink>, total: nat, selected: nat, hiddenEdgeCount: nat)

  function IdsOf(nodes: seq<TopoNode>): set<NodeId>
  {
    set i | 0 <= i < |nodes| :: nodes[i].id
  }

  // ---- links and self-loops ---------------------------------------------------------------

  predicate IsLink(ids: set<NodeId>, e: TopoEdge)
  {
    e.source != e.target && e.source in ids && e.target in ids
  }

  predicate IsLoop(ids: set<NodeId>, e: TopoEdge) { e.source == e.target && e.source in ids }

  function LinkOf(e: TopoEdge, m: Metric): GraphLink
  {
    GraphLink(e.source, e.target, Of(e.metrics, m), e.category)
  }

  function AllLinks(ids: set<NodeId>, edges: seq<TopoEdge>, m: Metric): seq<GraphLink>
  {
    if edges == [] then []
    else
      var e := edges[|edges| - 1];
      var before := AllLinks(ids, edges[..|edges| - 1], m);
      if IsLink(ids, e) then before + [LinkOf(e, m)] else before
  }

  /** The self-loop total of one node. */
  function SelfTotal(ids: set<NodeId>, edges: seq<TopoEdge>, m: Metric, id: NodeId): real
  {
    if edges == [] then 0.0
    else
      var e := edges[|edges| - 1];
      SelfTotal(ids, edges[..|edges| - 1], m, id) + if IsLoop(ids, e) && e.source == id then Of(e.metrics, m) else 0.0
  }

  // ---- the cut ------------------------------------------------------------------------------

  function AtLeast(links: seq<GraphLink>, cut: real): seq<GraphLink>
  {
    if links == [] then []
    else
      var l := links[|links| - 1];
      var before := AtLeast(links[..|links| - 1], cut);
      if l.value >= cut then before + [l] else before
  }

  function Cut(links: seq<GraphLink>, cut: real): seq<GraphLink>
  {
    if cut > 0.0 then AtLeast(links, cut) else links
  }

  function Incident(links: seq<GraphLink>): set<NodeId>
  {
    if links == [] then {}
    else
      var l := links[|links| - 1];
      Incident(links[..|links| - 1]) + {l.source, l.target}
  }

  /** Linked before the cut, but left with neither a link nor a positive self-loop. */
  predicate Orphaned(ids: set<NodeId>, edges: seq<TopoEdge>, m: Metric, cut: real, id: NodeId)
  {
    var all := AllLinks(ids, edges, m);
    && |Cut(all, cut)| < |all|
    && id in Incident(all) && id !in Incident(Cut(all, cut)) && SelfTotal(ids, edges, m, id) <= 0.0
  }

  function Without(nodes: seq<TopoNode>, gone: NodeId -> bool): seq<TopoNode>
  {
    if nodes == [] then []
    else
      var n, before := nodes[|nodes| - 1], Without(nodes[..|nodes| - 1], gone);
      if gone(n.id) then before else before + [n]
  }

  function Orphans(ids: set<NodeId>, edges: seq<TopoEdge>, m: Metric, cut: real): NodeId -> bool
  {
    id => Orphaned(ids, edges, m, cut, id)
  }

  /** The nodes that stay after the cut. */
  function Rendered(nodes: seq<TopoNode>, ids: set<NodeId>, edges: seq<TopoEdge>, m: Metric, cut: real): seq<TopoNode>
  {
    Without(nodes, Orphans(ids, edges, m, cut))
  }

  // ---- traffic --------------------------------------------------------------------------------

  function Share(l: GraphLink, id: NodeId): real
  {
    (if l.source == id then l.value else 0.0) + if l.target == id then l.value else 0.0
  }

  function LinkTraffic(links: seq<GraphLink>, id: NodeId): real
  {
    if links == [] then 0.0 else LinkTraffic(links[..|links| - 1], id) + Share(links[|links| - 1], id)
  }

  function SumLinks(links: seq<GraphLink>): real
  {
    if links == [] then 0.0 else SumLinks(links[..|links| - 1]) + links[|links| - 1].value
  }

  function SumLoops(ids: set<NodeId>, edges: seq<TopoEdge>, m: Metric): real
  {
    if edges == [] then 0.0
    else
      var e := edges[|edges| - 1];
      SumLoops(ids, edges[..|edges| - 1], m) + if IsLoop(ids, e) then Of(e.metrics, m) else 0.0
  }

  /** What nodes that are drawn together carry, by a measure per node id. */
  ghost function SumNodes(nodes: seq<TopoNode>, f: NodeId -> real): real
  {
    if nodes == [] then 0.0 else SumNodes(nodes[..|nodes| - 1], f) + f(nodes[|nodes| - 1].id)
  }

  ghost predicate DistinctIds(nodes: seq<TopoNode>)
  {
    forall i, j :: 0 <= i < j < |nodes| ==> nodes[i].id != nodes[j].id
  }

  // ---- every link has its ends -------------------------------------------------------------------

  lemma {:induction false} LinkEndsAreKept(ids: set<NodeId>, edges: seq<TopoEdge>, m: Metric, i: nat)
    requires i < |AllLinks(ids, edges, m)|
    ensures var l := AllLinks(ids, edges, m)[i]; l.source != l.target && l.source in ids && l.target in ids
  {
    var n := |edges| - 1;
    if i < |AllLinks(ids, edges[..n], m)| { LinkEndsAreKept(ids, edges[..n], m, i); }
  }

  lemma {:induction false} AtLeastIsSelection(links: seq<GraphLink>, cut: real, i: nat) returns (k: nat)
    requires i < |AtLeast(links, cut)|
    ensures k < |links| && links[k] == AtLeast(links, cut)[i] && links[k].value >= cut
  {
    var n := |links| - 1;
    if i < |AtLeast(links[..n], cut)| { k := AtLeastIsSelection(links[..n], cut, i); } else { k := n; }
  }

  lemma {:induction false} IncidentEnds(links: seq<GraphLink>, i: nat)
    requires i < |links|
    ensures links[i].source in Incident(links) && links[i].target in Incident(links)
  {
    if i < |links| - 1 { IncidentEnds(links[..|links| - 1], i); }
  }

  lemma {:induction false} NotOrphanedIsRendered(
      nodes: seq<TopoNode>, ids: set<NodeId>, edges: seq<TopoEdge>, m: Metric, cut: real, i: nat)
    requires i < |nodes|
    ensures Orphaned(ids, edges, m, cut, nodes[i].id) || nodes[i] in Rendered(nodes, ids, edges, m, cut)
  {
    var n := |nodes| - 1;
    if i < n { NotOrphanedIsRendered(nodes[..n], ids, edges, m, cut, i); }
  }

  /** After any cut both ends of every drawn link are drawn. */
  lemma LinkEndsAreRendered(nodes: seq<TopoNode>, edges: seq<TopoEdge>, m: Metric, cut: real, i: nat)
    requires i < |Cut(AllLinks(IdsOf(nodes), edges, m), cut)|
    ensures var l := Cut(AllLinks(IdsOf(nodes), edges, m), cut)[i];
      var drawn := IdsOf(Rendered(nodes, IdsOf(nodes), edges, m, cut));
      l.source != l.target && l.source in drawn && l.target in drawn
  {
    var ids, all := IdsOf(nodes), AllLinks(IdsOf(nodes), edges, m);
    var links := Cut(all, cut);
    var k := i;
    if cut > 0.0 { k := AtLeastIsSelection(all, cut, i); }
    LinkEndsAreKept(ids, edges, m, k);
    IncidentEnds(links, i);
    EndIsDrawn(nodes, edges, m, cut, links[i].source);
    EndIsDrawn(nodes, edges, m, cut, links[i].target);
  }

  lemma EndIsDrawn(nodes: seq<TopoNode>, edges: seq<TopoEdge>, m: Metric, cut: real, id: NodeId)
    requires id in IdsOf(nodes) && !Orphaned(IdsOf(nodes), edges, m, cut, id)
    ensures id in IdsOf(Rendered(nodes, IdsOf(nodes), edges, m, cut))
  {
    var j :| 0 <= j < |nodes| && nodes[j].id == id;
    NotOrphanedIsRendered(nodes, IdsOf(nodes), edges, m, cut, j);
    var r := Rendered(nodes, IdsOf(nodes), edges, m, cut);
    var x :| 0 <= x < |r| && r[x] == nodes[j];
    assert r[x].id == id;
  }

  // ---- node traffic adds up ------------------------------------------------------------------------

  lemma {:induction false} SumNodesPlus(nodes: seq<TopoNode>, f: NodeId -> real, g: NodeId -> real, h: NodeId -> real)
    requires forall id :: h(id) == f(id) + g(id)
    ensures SumNodes(nodes, h) == SumNodes(nodes, f) + SumNodes(nodes, g)
  {
    if nodes != [] { SumNodesPlus(nodes[..|nodes| - 1], f, g, h); }
  }

  ghost function At(id: NodeId, v: real): NodeId -> real { x => if x == id then v else 0.0 }

  ghost predicate HasId(nodes: seq<TopoNode>, id: NodeId) { exists i :: 0 <= i < |nodes| && nodes[i].id == id }

  /** One node among distinct ones carries the whole value. */
  lemma {:induction false} SumNodesAt(nodes: seq<TopoNode>, id: NodeId, v: real)
    requires DistinctIds(nodes)
    ensures SumNodes(nodes, At(id, v)) == if HasId(nodes, id) then v else 0.0
  {
    if nodes != [] {
      var n := |nodes| - 1;
      SumNodesAt(nodes[..n], id, v);
      assert HasId(nodes, id) <==> HasId(nodes[..n], id) || nodes[n].id == id by {
        if HasId(nodes[..n], id) {
          var i :| 0 <= i < n && nodes[..n][i].id == id;
          assert nodes[i].id == id;
        }
        if HasId(nodes, id) && nodes[n].id != id {
          var i :| 0 <= i < |nodes| && nodes[i].id == id;
          assert nodes[..n][i].id == id;
        }
      }
    }
  }

  ghost function TrafficOf(links: seq<GraphLink>): NodeId -> real { id => LinkTraffic(links, id) }

  ghost predicate EndsIn(links: seq<GraphLink>, nodes: seq<TopoNode>)
  {
    forall i :: 0 <= i < |links| ==> HasId(nodes, links[i].source) && HasId(nodes, links[i].target)
  }

  /** Every link counts once at each of its two ends. */
  lemma {:induction false} LinkTrafficIsTwice(nodes: seq<TopoNode>, links: seq<GraphLink>)
    requires DistinctIds(nodes) && EndsIn(links, nodes)
    ensures SumNodes(nodes, TrafficOf(links)) == 2.0 * SumLinks(links)
  {
    if links == [] {
      SumNodesZero(nodes, TrafficOf(links));
    } else {
      var before, l := links[..|links| - 1], links[|links| - 1];
      LinkTrafficIsTwice(nodes, before);
      SumNodesAt(nodes, l.source, l.value);
      SumNodesAt(nodes, l.target, l.value);
      var both: NodeId -> real := id => Share(l, id);
      SumNodesPlus(nodes, At(l.source, l.value), At(l.target, l.value), both);
      SumNodesPlus(nodes, TrafficOf(before), both, TrafficOf(links));
    }
  }

  lemma {:induction false} SumNodesZero(nodes: seq<TopoNode>, f: NodeId -> real)
    requires forall i :: 0 <= i < |nodes| ==> f(nodes[i].id) == 0.0
    ensures SumNodes(nodes, f) == 0.0
  {
    if nodes != [] { SumNodesZero(nodes[..|nodes| - 1], f); }
  }

  ghost function LoopsOf(ids: set<NodeId>, edges: seq<TopoEdge>, m: Metric): NodeId -> real
  {
    id => SelfTotal(ids, edges, m, id)
  }

  /** Every self-loop counts at exactly one node. */
  lemma {:induction false} LoopTrafficIsOnce(nodes: seq<TopoNode>, ids: set<NodeId>, edges: seq<TopoEdge>, m: Metric)
    requires DistinctIds(nodes) && ids == IdsOf(nodes)
    ensures SumNodes(nodes, LoopsOf(ids, edges, m)) == SumLoops(ids, edges, m)
  {
    if edges == [] {
      SumNodesZero(nodes, LoopsOf(ids, edges, m));
    } else {
      var before, e := edges[..|edges| - 1], edges[|edges| - 1];
      LoopTrafficIsOnce(nodes, ids, before, m);
      var v := if IsLoop(ids, e) then Of(e.metrics, m) else 0.0;
      SumNodesAt(nodes, e.source, v);
      SumNodesPlus(nodes, LoopsOf(ids, before, m), At(e.source, v), LoopsOf(ids, edges, m));
    }
  }

  /** Leaving out nodes that carry nothing leaves the sum. */
  lemma {:induction false} WithoutCarriesAll(nodes: seq<TopoNode>, gone: NodeId -> bool, f: NodeId -> real)
    requires forall id :: gone(id) ==> f(id) == 0.0
    ensures SumNodes(Without(nodes, gone), f) == SumNodes(nodes, f)
  {
    if nodes != [] {
      var before, n := nodes[..|nodes| - 1], nodes[|nodes| - 1];
      WithoutCarriesAll(before, gone, f);
      SumNodesSnoc(Without(before, gone), n, f);
    }
  }

  lemma SumNodesSnoc(nodes: seq<TopoNode>, n: TopoNode, f: NodeId -> real)
    ensures SumNodes(nodes + [n], f) == SumNodes(nodes, f) + f(n.id)
  {
    assert (nodes + [n])[..|nodes|] == nodes;
  }

  lemma {:induction false} NoLinkNoTraffic(links: seq<GraphLink>, id: NodeId)
    requires id !in Incident(links)
    ensures LinkTraffic(links, id) == 0.0
  {
    if links != [] { NoLinkNoTraffic(links[..|links| - 1], id); }
  }

  ghost predicate NonNegative(edges: seq<TopoEdge>, m: Metric)
  {
    forall i :: 0 <= i < |edges| ==> Of(edges[i].metrics, m) >= 0.0
  }

  lemma {:induction false} LoopsNonNegative(ids: set<NodeId>, edges: seq<TopoEdge>, m: Metric, id: NodeId)
    requires NonNegative(edges, m)
    ensures SelfTotal(ids, edges, m, id) >= 0.0
  {
    if edges != [] { LoopsNonNegative(ids, edges[..|edges| - 1], m, id); }
  }

  ghost function NodeTraffic(ids: set<NodeId>, edges: seq<TopoEdge>, m: Metric, cut: real): NodeId -> real
  {
    id => LinkTraffic(Cut(AllLinks(ids, edges, m), cut), id) + SelfTotal(ids, edges, m, id)
  }

  lemma LinksEndIn(nodes: seq<TopoNode>, edges: seq<TopoEdge>, m: Metric, cut: real)
    ensures EndsIn(Cut(AllLinks(IdsOf(nodes), edges, m), cut), nodes)
  {
    var ids := IdsOf(nodes);
    var links := Cut(AllLinks(ids, edges, m), cut);
    forall i | 0 <= i < |links| ensures HasId(nodes, links[i].source) && HasId(nodes, links[i].target) {
      var k := i;
      if cut > 0.0 { k := AtLeastIsSelection(AllLinks(ids, edges, m), cut, i); }
      LinkEndsAreKept(ids, edges, m, k);
    }
  }

  /** After any cut the traffic of the drawn nodes is twice the drawn links plus their self-loops. */
  lemma TrafficAddsUp(nodes: seq<TopoNode>, edges: seq<TopoEdge>, m: Metric, cut: real)
    requires DistinctIds(nodes)
    ensures var ids := IdsOf(nodes);
      var drawn := Rendered(nodes, ids, edges, m, cut);
      SumNodes(drawn, NodeTraffic(ids, edges, m, cut))
      == 2.0 * SumLinks(Cut(AllLinks(ids, edges, m), cut)) + SumNodes(drawn, LoopsOf(ids, edges, m))
  {
    var ids := IdsOf(nodes);
    var links := Cut(AllLinks(ids, edges, m), cut);
    forall id | Orphaned(ids, edges, m, cut, id) ensures TrafficOf(links)(id) == 0.0 { NoLinkNoTraffic(links, id); }
    WithoutCarriesAll(nodes, Orphans(ids, edges, m, cut), TrafficOf(links));
    LinksEndIn(nodes, edges, m, cut);
    LinkTrafficIsTwice(nodes, links);
    SumNodesPlus(Rendered(nodes, ids, edges, m, cut), TrafficOf(links), LoopsOf(ids, edges, m),
                 NodeTraffic(ids, edges, m, cut));
  }

  /** No cut drops a self-loop that carries something. */
  lemma LoopsAreDrawn(nodes: seq<TopoNode>, edges: seq<TopoEdge>, m: Metric, cut: real)
    requires DistinctIds(nodes) && NonNegative(edges, m)
    ensures var ids := IdsOf(nodes);
      SumNodes(Rendered(nodes, ids, edges, m, cut), LoopsOf(ids, edges, m)) == SumLoops(ids, edges, m)
  {
    var ids := IdsOf(nodes);
    forall id | Orphaned(ids, edges, m, cut, id) ensures LoopsOf(ids, edges, m)(id) == 0.0 {
      LoopsNonNegative(ids, edges, m, id);
    }
    WithoutCarriesAll(nodes, Orphans(ids, edges, m, cut), LoopsOf(ids, edges, m));
    LoopTrafficIsOnce(nodes, ids, edges, m);
  }

  // ---- raising the cut ---------------------------------------------------------------------------------

  lemma {:induction false} AtLeastTwice(links: seq<GraphLink>, low: real, high: real)
    requires low <= high
    ensures AtLeast(AtLeast(links, low), high) == AtLeast(links, high)
  {
    if links != [] {
      var before, l := links[..|links| - 1], links[|links| - 1];
      AtLeastTwice(before, low, high);
      var a := AtLeast(before, low);
      assert (a + [l])[..|a|] == a;
    }
  }

  /** A higher cut selects among the links the lower cut left. */
  lemma RaisingCutSelectsLinks(links: seq<GraphLink>, low: real, high: real)
    requires low <= high
    ensures Cut(links, high) == Cut(Cut(links, low), high)
  {
    if low > 0.0 { AtLeastTwice(links, low, high); }
  }

  lemma {:induction false} AtLeastShrinks(links: seq<GraphLink>, cut: real)
    ensures |AtLeast(links, cut)| <= |links| && Incident(AtLeast(links, cut)) <= Incident(links)
    ensures |AtLeast(links, cut)| == |links| ==> AtLeast(links, cut) == links
  {
    if links != [] {
      var before, l := links[..|links| - 1], links[|links| - 1];
      AtLeastShrinks(before, cut);
      var a := AtLeast(before, cut);
      assert (a + [l])[..|a|] == a;
    }
  }

  /** A higher cut only takes nodes away. */
  lemma RaisingCutKeepsOrphans(ids: set<NodeId>, edges: seq<TopoEdge>, m: Metric, low: real, high: real, id: NodeId)
    requires low <= high && Orphaned(ids, edges, m, low, id)
    ensures Orphaned(ids, edges, m, high, id)
  {
    var all := AllLinks(ids, edges, m);
    RaisingCutSelectsLinks(all, low, high);
    AtLeastShrinks(all, low);
    AtLeastShrinks(Cut(all, low), high);
  }

  lemma {:induction false} WithoutTwice(nodes: seq<TopoNode>, few: NodeId -> bool, more: NodeId -> bool)
    requires forall id :: few(id) ==> more(id)
    ensures Without(Without(nodes, few), more) == Without(nodes, more)
  {
    if nodes != [] {
      var before, n := nodes[..|nodes| - 1], nodes[|nodes| - 1];
      WithoutTwice(before, few, more);
      var r := Without(before, few);
      assert (r + [n])[..|r|] == r;
    }
  }

  lemma RaisingCutRemovesNodes(
      nodes: seq<TopoNode>, ids: set<NodeId>, edges: seq<TopoEdge>, m: Metric, low: real, high: real)
    requires low <= high
    ensures Rendered(Rendered(nodes, ids, edges, m, low), ids, edges, m, high) == Rendered(nodes, ids, edges, m, high)
  {
    forall id | Orphans(ids, edges, m, low)(id) ensures Orphans(ids, edges, m, high)(id) {
      RaisingCutKeepsOrphans(ids, edges, m, low, high, id);
    }
    WithoutTwice(nodes, Orphans(ids, edges, m, low), Orphans(ids, edges, m, high));
  }

  // ---- grouping conserves ----------------------------------------------------------------------------------

  ghost function Everything(): Pair -> bool { p => true }

  /** What the edges with both ends among `ids` carry. */
  function SumKept(ids: set<NodeId>, edges: seq<TopoEdge>, m: Metric): real
  {
    if edges == [] then 0.0
    else
      var e := edges[|edges| - 1];
      SumKept(ids, edges[..|edges| - 1], m) + if e.source in ids && e.target in ids then Of(e.metrics, m) else 0.0
  }

  /** Links and self-loops share out the edges between kept nodes. */
  lemma {:induction false} LinksAndLoopsAreKept(ids: set<NodeId>, edges: seq<TopoEdge>, m: Metric)
    ensures SumLinks(AllLinks(ids, edges, m)) + SumLoops(ids, edges, m) == SumKept(ids, edges, m)
  {
    if edges != [] {
      var before, e := edges[..|edges| - 1], edges[|edges| - 1];
      LinksAndLoopsAreKept(ids, before, m);
      var a := AllLinks(ids, before, m);
      assert (a + [LinkOf(e, m)])[..|a|] == a;
    }
  }

  lemma {:induction false} KeptIsEdgeSum(g: Grouping, edges: seq<TopoEdge>, m: Metric)
    ensures SumKept(g.keys.Keys, edges, m) == EdgeSum(g, edges, Everything(), m)
  {
    if edges != [] { KeptIsEdgeSum(g, edges[..|edges| - 1], m); }
  }

  lemma HasIdIsMember(nodes: seq<TopoNode>, id: NodeId)
    ensures HasId(nodes, id) <==> id in IdsOf(nodes)
  {
    if HasId(nodes, id) { var i :| 0 <= i < |nodes| && nodes[i].id == id; }
  }

  lemma HasIdSnoc(nodes: seq<TopoNode>, n: TopoNode, id: NodeId)
    ensures HasId(nodes + [n], id) <==> HasId(nodes, id) || n.id == id
  {
    var more := nodes + [n];
    assert more[|nodes|] == n;
    if HasId(nodes, id) {
      var i :| 0 <= i < |nodes| && nodes[i].id == id;
      assert more[i].id == id;
    }
    if HasId(more, id) && n.id != id {
      var i :| 0 <= i < |more| && more[i].id == id;
      assert nodes[i].id == id;
    }
  }

  lemma {:induction false} CollapsedIsDrawn(nodes: seq<TopoNode>, g: Grouping, key: string)
    requires Covered(nodes, g) && key in CollapsedKeys(nodes, g)
    ensures HasId(EffNodes(nodes, g), GroupNodeId(g.level, key))
  {
    var before, n := nodes[..|nodes| - 1], nodes[|nodes| - 1];
    var e, id := EffNodes(before, g), GroupNodeId(g.level, key);
    if key in CollapsedKeys(before, g) { CollapsedIsDrawn(before, g, key); }
    HasIdSnoc(e, n, id);
    HasIdSnoc(e, GroupNode(g.level, g.keys[n.id]), id);
  }

  /** Every node is drawn as itself or as its group. */
  lemma {:induction false} EffIdIsDrawn(nodes: seq<TopoNode>, g: Grouping, i: nat)
    requires Covered(nodes, g) && i < |nodes|
    ensures HasId(EffNodes(nodes, g), g.EffId(nodes[i].id))
  {
    var before, n := nodes[..|nodes| - 1], nodes[|nodes| - 1];
    var e, id := EffNodes(before, g), g.EffId(nodes[i].id);
    if i < |before| {
      EffIdIsDrawn(before, g, i);
    } else if g.keys[n.id] in CollapsedKeys(before, g) {
      CollapsedIsDrawn(before, g, g.keys[n.id]);
    }
    HasIdSnoc(e, n, id);
    HasIdSnoc(e, GroupNode(g.level, g.keys[n.id]), id);
  }

  ghost predicate Drawn(ids: set<NodeId>, p: Pair) { p.source in ids && p.target in ids }

  lemma PairIsDrawn(nodes: seq<TopoNode>, level: Level, expanded: set<string>, e: TopoEdge)
    requires GroupingOf(nodes, level, expanded).Keeps(e) && Covered(nodes, GroupingOf(nodes, level, expanded))
    ensures var g := GroupingOf(nodes, level, expanded); Drawn(IdsOf(EffNodes(nodes, g)), g.PairOf(e))
  {
    var g := GroupingOf(nodes, level, expanded);
    KeyMapIds(nodes, level, e.source);
    KeyMapIds(nodes, level, e.target);
    var i :| 0 <= i < |nodes| && nodes[i].id == e.source;
    var j :| 0 <= j < |nodes| && nodes[j].id == e.target;
    EffIdIsDrawn(nodes, g, i);
    EffIdIsDrawn(nodes, g, j);
    HasIdIsMember(EffNodes(nodes, g), g.EffId(e.source));
    HasIdIsMember(EffNodes(nodes, g), g.EffId(e.target));
  }

  ghost predicate AllDrawn(ids: set<NodeId>, order: seq<Pair>)
  {
    forall i :: 0 <= i < |order| ==> Drawn(ids, order[i])
  }

  lemma {:induction false} OrderIsDrawn(nodes: seq<TopoNode>, level: Level, expanded: set<string>, edges: seq<TopoEdge>)
    requires Covered(nodes, GroupingOf(nodes, level, expanded))
    ensures var g := GroupingOf(nodes, level, expanded);
      AllDrawn(IdsOf(EffNodes(nodes, g)), MergeEdges(g, edges).order)
  {
    if edges != [] {
      var before, e := edges[..|edges| - 1], edges[|edges| - 1];
      OrderIsDrawn(nodes, level, expanded, before);
      if GroupingOf(nodes, level, expanded).Keeps(e) { PairIsDrawn(nodes, level, expanded, e); }
    }
  }

  lemma {:induction false} OutputIsKept(ids: set<NodeId>, s: Slots, n: nat, m: Metric)
    requires s.Valid() && n <= |s.order| && AllDrawn(ids, s.order)
    ensures SumKept(ids, EdgesOf(s)[..n], m) == SlotSum(s.order[..n], s.agg, Everything(), m)
  {
    if n > 0 {
      OutputIsKept(ids, s, n - 1, m);
      assert EdgesOf(s)[..n][..n - 1] == EdgesOf(s)[..n - 1];
      assert s.order[..n][..n - 1] == s.order[..n - 1];
      var p := s.order[n - 1];
      assert Drawn(ids, p);
      assert EdgesOf(s)[..n][n - 1] == AggEdge(p, s.agg[p]);
    }
  }

  /**
   * Without a cut, links plus self-loops of the grouped graph carry exactly what they carry in
   * the ungrouped graph, for each counter metric, level and set of expanded groups.
   */
  lemma GroupingConserves(nodes: seq<TopoNode>, level: Level, expanded: set<string>, edges: seq<TopoEdge>, m: Metric)
    requires IsCounter(m)
    ensures Covered(nodes, GroupingOf(nodes, level, expanded))
    ensures var g := GroupingOf(nodes, level, expanded);
      var grouped, merged := IdsOf(EffNodes(nodes, g)), GroupedEdges(g, edges);
      SumLinks(AllLinks(grouped, merged, m)) + SumLoops(grouped, merged, m)
      == SumLinks(AllLinks(IdsOf(nodes), edges, m)) + SumLoops(IdsOf(nodes), edges, m)
  {
    GroupingCovers(nodes, level, expanded);
    var g := GroupingOf(nodes, level, expanded);
    var s, ids := MergeEdges(g, edges), IdsOf(EffNodes(nodes, g));
    MergeEdgesValid(g, edges);
    OrderIsDrawn(nodes, level, expanded, edges);
    OutputIsKept(ids, s, |s.order|, m);
    assert EdgesOf(s)[..|s.order|] == EdgesOf(s) && s.order[..|s.order|] == s.order;
    MergeConserves(g, edges, Everything(), m);
    KeptIsEdgeSum(g, edges, m);
    KeyMapKeys(nodes, level);
    LinksAndLoopsAreKept(ids, EdgesOf(s), m);
    LinksAndLoopsAreKept(IdsOf(nodes), edges, m);
  }

  lemma {:induction false} KeyMapKeys(nodes: seq<TopoNode>, level: Level)
    ensures KeyMap(nodes, level).Keys == IdsOf(nodes)
  {
    if nodes != [] {
      var before, n := nodes[..|nodes| - 1], nodes[|nodes| - 1];
      KeyMapKeys(before, level);
      assert nodes == before + [n];
      forall id ensures id in IdsOf(nodes) <==> id in IdsOf(before) || id == n.id {
        HasIdSnoc(before, n, id);
        HasIdIsMember(before, id);
        HasIdIsMember(nodes, id);
      }
    }
  }

  // ---- grouped ids are distinct ------------------------------------------------------------------------------

  /** A drawn id is a node id or the id of a collapsed group. */
  lemma {:induction false} DrawnIds(nodes: seq<TopoNode>, g: Grouping, id: NodeId)
    requires Covered(nodes, g) && HasId(EffNodes(nodes, g), id)
    ensures HasId(nodes, id) || exists key :: key in CollapsedKeys(nodes, g) && id == GroupNodeId(g.level, key)
  {
    if nodes != [] {
      var before, n := nodes[..|nodes| - 1], nodes[|nodes| - 1];
      var e, k := EffNodes(before, g), g.keys[n.id];
      assert nodes == before + [n];
      HasIdSnoc(before, n, id);
      HasIdSnoc(e, n, id);
      HasIdSnoc(e, GroupNode(g.level, k), id);
      if HasId(e, id) {
        DrawnIds(before, g, id);
        if !HasId(before, id) {
          var key :| key in CollapsedKeys(before, g) && id == GroupNodeId(g.level, key);
          assert key in CollapsedKeys(nodes, g);
        }
      } else if k !in g.expanded && id != n.id {
        assert k in CollapsedKeys(nodes, g) && id == GroupNodeId(g.level, k);
      }
    }
  }

  lemma LastIdIsNew(nodes: seq<TopoNode>)
    requires nodes != [] && DistinctIds(nodes)
    ensures !HasId(nodes[..|nodes| - 1], nodes[|nodes| - 1].id)
  {}

  lemma GroupIdIsNew(nodes: seq<TopoNode>, level: Level, key: string)
    requires NoCollision(nodes, level)
    ensures !HasId(nodes, GroupNodeId(level, key))
  {
    assert GroupPrefix(level) <= GroupNodeId(level, key);
  }

  /** Distinct nodes stay distinct, and no two groups share an id. */
  lemma {:induction false} GroupedIdsDistinct(nodes: seq<TopoNode>, g: Grouping)
    requires Covered(nodes, g) && DistinctIds(nodes) && NoCollision(nodes, g.level)
    ensures DistinctIds(EffNodes(nodes, g))
  {
    if nodes != [] {
      var before, n := nodes[..|nodes| - 1], nodes[|nodes| - 1];
      var e, k := EffNodes(before, g), g.keys[n.id];
      GroupedIdsDistinct(before, g);
      LastIdIsNew(nodes);
      GroupIdIsNew(before, g.level, k);
      var added := if k in g.expanded then n.id else GroupNodeId(g.level, k);
      if HasId(e, added) {
        DrawnIds(before, g, added);
        var key :| key in CollapsedKeys(before, g) && added == GroupNodeId(g.level, key);
        if k in g.expanded { GroupIdIsNew(nodes, g.level, key); } else { GroupNodeIdInjective(g.level, k, key); }
      }
      assert HasId(nodes, n.id);
      assert k in g.expanded || k !in CollapsedKeys(before, g) ==> !HasId(e, added);
    }
  }

  // ---- the method ----------------------------------------------------------------------------------------------

  function Get(totals: map<NodeId, real>, id: NodeId): real { if id in totals then totals[id] else 0.0 }

  /** The edge loop: links in order, and self-loop totals in order of first appearance. */
  method SplitEdges(ids: set<NodeId>, edges: seq<TopoEdge>, m: Metric)
    returns (links: seq<GraphLink>, loopIds: seq<NodeId>, selfTotals: map<NodeId, real>)
    ensures links == AllLinks(ids, edges, m)
    ensures forall id :: Get(selfTotals, id) == SelfTotal(ids, edges, m, id)
    ensures Distinct(loopIds) && forall id :: id in selfTotals <==> id in loopIds
  {
    links, loopIds, selfTotals := [], [], map[];
    for i := 0 to |edges|
      invariant links == AllLinks(ids, edges[..i], m)
      invariant forall id :: Get(selfTotals, id) == SelfTotal(ids, edges[..i], m, id)
      invariant Distinct(loopIds) && forall id :: id in selfTotals <==> id in loopIds
    {
      assert edges[..i + 1][..i] == edges[..i];
      var e := edges[i];
      var value := Of(e.metrics, m);
      if e.source == e.target {
        if e.source in ids {
          if e.source !in selfTotals { loopIds := loopIds + [e.source]; }
          selfTotals := selfTotals[e.source := Get(selfTotals, e.source) + value];
        }
        continue;
      }
      if e.source !in ids || e.target !in ids { continue; }
      links := links + [LinkOf(e, m)];
    }
    assert edges[..|edges|] == edges;
  }

  method CutLinks(all: seq<GraphLink>, cut: real) returns (links: seq<GraphLink>)
    ensures links == Cut(all, cut)
  {
    if cut <= 0.0 { return all; }
    links := [];
    for i := 0 to |all|
      invariant links == AtLeast(all[..i], cut)
    {
      assert all[..i + 1][..i] == all[..i];
      if all[i].value >= cut { links := links + [all[i]]; }
    }
    assert all[..|all|] == all;
  }

  method Ends(links: seq<GraphLink>) returns (ids: set<NodeId>)
    ensures ids == Incident(links)
  {
    ids := {};
    for i := 0 to |links|
      invariant ids == Incident(links[..i])
    {
      assert links[..i + 1][..i] == links[..i];
      ids := ids + {links[i].source} + {links[i].target};
    }
    assert links[..|links|] == links;
  }

  /** Dropping the orphans; without hidden links there are none. */
  method Surviving(nodes: seq<TopoNode>, ids: set<NodeId>, edges: seq<TopoEdge>, m: Metric, cut: real,
      all: seq<GraphLink>, links: seq<GraphLink>, selfTotals: map<NodeId, real>) returns (drawn: seq<TopoNode>)
    requires all == AllLinks(ids, edges, m) && links == Cut(all, cut)
    requires forall id :: Get(selfTotals, id) == SelfTotal(ids, edges, m, id)
    ensures drawn == Rendered(nodes, ids, edges, m, cut)
  {
    var orphaned: set<NodeId> := {};
    if |all| - |links| > 0 {
      var linkedBefore := Ends(all);
      var incidentAfter := Ends(links);
      incidentAfter := incidentAfter + set id | id in selfTotals && selfTotals[id] > 0.0;
      orphaned := linkedBefore - incidentAfter;
    }
    forall id ensures id in orphaned <==> Orphaned(ids, edges, m, cut, id) {
      assert Get(selfTotals, id) == SelfTotal(ids, edges, m, id);
    }
    drawn := [];
    for i := 0 to |nodes|
      invariant drawn == Rendered(nodes[..i], ids, edges, m, cut)
    {
      assert nodes[..i + 1][..i] == nodes[..i];
      if nodes[i].id !in orphaned { drawn := drawn + [nodes[i]]; }
    }
    assert nodes[..|nodes|] == nodes;
  }

  /** Traffic per node: both ends of every link, then the self-loops. */
  method AddUp(links: seq<GraphLink>, loopIds: seq<NodeId>, selfTotals: map<NodeId, real>)
    returns (traffic: map<NodeId, real>)
    requires Distinct(loopIds) && forall id :: id in selfTotals <==> id in loopIds
    ensures forall id :: Get(traffic, id) == LinkTraffic(links, id) + Get(selfTotals, id)
  {
    traffic := map[];
    for i := 0 to |links|
      invariant forall id :: Get(traffic, id) == LinkTraffic(links[..i], id)
    {
      assert links[..i + 1][..i] == links[..i];
      var l := links[i];
      traffic := traffic[l.source := Get(traffic, l.source) + l.value];
      traffic := traffic[l.target := Get(traffic, l.target) + l.value];
    }
    assert links[..|links|] == links;
    for i := 0 to |loopIds|
      invariant forall id ::
        (Get(traffic, id) == LinkTraffic(links, id) + if id in loopIds[..i] then Get(selfTotals, id) else 0.0)
    {
      PrefixSnoc(loopIds, i);
      var id := loopIds[i];
      traffic := traffic[id := Get(traffic, id) + selfTotals[id]];
    }
    assert loopIds[..|loopIds|] == loopIds;
  }

  ghost predicate NodeOf(x: GraphNode, n: TopoNode, ids: set<NodeId>, edges: seq<TopoEdge>, m: Metric, cut: real)
  {
    && x.id == n.id && x.text == n.text && x.kind == n.kind
    && x.traffic == NodeTraffic(ids, edges, m, cut)(n.id)
    && x.selfTotal == SelfTotal(ids, edges, m, n.id)
  }

  /** The drawing of a list of nodes and edges after selection and grouping. */
  ghost predicate IsModelOf(r: Model, nodes: seq<TopoNode>, edges: seq<TopoEdge>, m: Metric, cut: real)
  {
    var ids := IdsOf(nodes);
    var drawn := Rendered(nodes, ids, edges, m, cut);
    && r.links == Cut(AllLinks(ids, edges, m), cut)
    && r.hiddenEdgeCount == |AllLinks(ids, edges, m)| - |r.links|
    && |r.nodes| == |drawn| == r.selected
    && forall i :: 0 <= i < |drawn| ==> NodeOf(r.nodes[i], drawn[i], ids, edges, m, cut)
  }

  /** Exactly the nodes with group metadata carry it. */
  ghost predicate GroupsFrom(nodes: seq<GraphNode>, meta: map<NodeId, GroupMeta>)
  {
    forall i :: 0 <= i < |nodes| ==>
      (nodes[i].group == if nodes[i].id in meta then Some(meta[nodes[i].id]) else None)
  }

  function DrawNode(
      n: TopoNode, traffic: map<NodeId, real>, selfTotals: map<NodeId, real>, meta: map<NodeId, GroupMeta>): GraphNode
  {
    GraphNode(n.id, n.text, n.kind, Get(traffic, n.id), Get(selfTotals, n.id),
              if n.id in meta then Some(meta[n.id]) else None)
  }

  method Draw(
      nodes: seq<TopoNode>, edges: seq<TopoEdge>, m: Metric, cut: real, meta: map<NodeId, GroupMeta>, total: nat)
    returns (r: Model)
    ensures IsModelOf(r, nodes, edges, m, cut) && r.total == total
    ensures GroupsFrom(r.nodes, meta)
  {
    var ids := IdsOf(nodes);
    var all, loopIds, selfTotals := SplitEdges(ids, edges, m);
    var links := CutLinks(all, cut);
    AtLeastShrinks(all, cut);
    var drawn := Surviving(nodes, ids, edges, m, cut, all, links, selfTotals);
    var traffic := AddUp(links, loopIds, selfTotals);
    var out: seq<GraphNode> := [];
    for i := 0 to |drawn|
      invariant |out| == i
      invariant forall k :: 0 <= k < i ==> out[k] == DrawNode(drawn[k], traffic, selfTotals, meta)
    {
      out := out + [DrawNode(drawn[i], traffic, selfTotals, meta)];
    }
    forall k | 0 <= k < |drawn| ensures NodeOf(out[k], drawn[k], ids, edges, m, cut) {
      assert out[k] == DrawNode(drawn[k], traffic, selfTotals, meta);
    }
    r := Model(out, links, total, |out|, |all| - |links|);
  }

  function Selected(nodes: seq<TopoNode>, wanted: Option<set<NodeId>>): seq<TopoNode>
  {
    if nodes == [] then []
    else
      var n, before := nodes[|nodes| - 1], Selected(nodes[..|nodes| - 1], wanted);
      if wanted.Some? && wanted.value != {} && n.id !in wanted.value then before else before + [n]
  }

  /** The nodes drawn before the cut: the kept ones, or their groups. */
  ghost function ShownNodes(kept: seq<TopoNode>, groupBy: Option<Level>, expanded: set<string>): seq<TopoNode>
  {
    if groupBy.None? then kept
    else
      GroupingCovers(kept, groupBy.value, expanded);
      EffNodes(kept, GroupingOf(kept, groupBy.value, expanded))
  }

  ghost function ShownEdges(
      kept: seq<TopoNode>, edges: seq<TopoEdge>, groupBy: Option<Level>, expanded: set<string>): seq<TopoEdge>
  {
    if groupBy.None? then edges else GroupedEdges(GroupingOf(kept, groupBy.value, expanded), edges)
  }

  ghost predicate MetaFrom(
      meta: map<NodeId, GroupMeta>, kept: seq<TopoNode>, groupBy: Option<Level>, expanded: set<string>)
  {
    if groupBy.None? then meta == map[]
    else
      var g := GroupingOf(kept, groupBy.value, expanded);
      Covered(kept, g) && MetaOf(meta, CollapsedKeys(kept, g), groupBy.value, kept)
  }

  /** What the builder draws: selection, then grouping, then the cut. */
  ghost predicate IsBuilt(r: Model, nodes: seq<TopoNode>, edges: seq<TopoEdge>, m: Metric, cut: real,
      wanted: Option<set<NodeId>>, groupBy: Option<Level>, expanded: set<string>)
  {
    var kept := Selected(nodes, wanted);
    r.total == |nodes|
    && IsModelOf(r, ShownNodes(kept, groupBy, expanded), ShownEdges(kept, edges, groupBy, expanded), m, cut)
  }

  /** The whole builder: selection, grouping, then the drawing. */
  method BuildGraphModel(nodes: seq<TopoNode>, edges: seq<TopoEdge>, m: Metric, cut: real,
      wanted: Option<set<NodeId>>, groupBy: Option<Level>, expanded: set<string>)
        returns (r: Model, ghost meta: map<NodeId, GroupMeta>)
    ensures IsBuilt(r, nodes, edges, m, cut, wanted, groupBy, expanded)
    ensures GroupsFrom(r.nodes, meta) && MetaFrom(meta, Selected(nodes, wanted), groupBy, expanded)
  {
    var kept: seq<TopoNode> := [];
    for i := 0 to |nodes|
      invariant kept == Selected(nodes[..i], wanted)
    {
      assert nodes[..i + 1][..i] == nodes[..i];
      if wanted.None? || wanted.value == {} || nodes[i].id in wanted.value { kept := kept + [nodes[i]]; }
    }
    assert nodes[..|nodes|] == nodes;
    if groupBy.Some? {
      GroupingCovers(kept, groupBy.value, expanded);
      var grouped := ApplyGrouping(kept, edges, groupBy.value, expanded);
      r := Draw(grouped.nodes, grouped.edges, m, cut, grouped.meta, |nodes|);
      meta := grouped.meta;
    } else {
      meta := map[];
      r := Draw(kept, edges, m, cut, map[], |nodes|);
    }
  }

  // ---- the model that the builder returns -----------------------------------------------------------------------

  lemma {:induction false} SelectedIsFrom(nodes: seq<TopoNode>, wanted: Option<set<NodeId>>, i: nat)
    requires i < |Selected(nodes, wanted)|
    ensures Selected(nodes, wanted)[i] in nodes && HasId(nodes, Selected(nodes, wanted)[i].id)
  {
    var n := |nodes| - 1;
    assert nodes == nodes[..n] + [nodes[n]];
    if i < |Selected(nodes[..n], wanted)| {
      SelectedIsFrom(nodes[..n], wanted, i);
      HasIdSnoc(nodes[..n], nodes[n], Selected(nodes[..n], wanted)[i].id);
    } else {
      assert nodes[n].id == Selected(nodes, wanted)[i].id;
    }
  }

  lemma {:induction false} SelectedIsDistinct(nodes: seq<TopoNode>, wanted: Option<set<NodeId>>)
    requires DistinctIds(nodes)
    ensures DistinctIds(Selected(nodes, wanted))
  {
    if nodes != [] {
      var n := |nodes| - 1;
      var before := Selected(nodes[..n], wanted);
      SelectedIsDistinct(nodes[..n], wanted);
      LastIdIsNew(nodes);
      forall i | 0 <= i < |before| ensures before[i].id != nodes[n].id { SelectedIsFrom(nodes[..n], wanted, i); }
    }
  }

  lemma SelectedDoesNotCollide(nodes: seq<TopoNode>, wanted: Option<set<NodeId>>, level: Level)
    requires NoCollision(nodes, level)
    ensures NoCollision(Selected(nodes, wanted), level)
  {
    var kept := Selected(nodes, wanted);
    forall i | 0 <= i < |kept| ensures !(GroupPrefix(level) <= kept[i].id) {
      SelectedIsFrom(nodes, wanted, i);
      var j :| 0 <= j < |nodes| && nodes[j] == kept[i];
    }
  }

  /** Whatever is selected and grouped, distinct input nodes show as distinct nodes. */
  lemma ShownIsDistinct(
      nodes: seq<TopoNode>, wanted: Option<set<NodeId>>, groupBy: Option<Level>, expanded: set<string>)
    requires DistinctIds(nodes) && (groupBy.Some? ==> NoCollision(nodes, groupBy.value))
    ensures DistinctIds(ShownNodes(Selected(nodes, wanted), groupBy, expanded))
  {
    var kept := Selected(nodes, wanted);
    SelectedIsDistinct(nodes, wanted);
    if groupBy.Some? {
      SelectedDoesNotCollide(nodes, wanted, groupBy.value);
      GroupingCovers(kept, groupBy.value, expanded);
      GroupedIdsDistinct(kept, GroupingOf(kept, groupBy.value, expanded));
    }
  }

  ghost predicate SlotNonNegative(a: Agg)
  {
    && a.bytes >= 0.0 && a.retrans >= 0.0 && a.timeouts >= 0.0
    && a.rttWeighted >= 0.0 && a.rttWeightBytes >= 0.0 && a.rttSum >= 0.0
  }

  ghost predicate EdgeNonNegative(e: TopoEdge) { forall m :: Of(e.metrics, m) >= 0.0 }

  lemma ProductNonNegative(x: real, y: real)
    requires x >= 0.0 && y >= 0.0
    ensures x * y >= 0.0
  {}

  lemma MergeIsNonNegative(a: Agg, e: TopoEdge)
    requires SlotNonNegative(a) && EdgeNonNegative(e)
    ensures SlotNonNegative(Merge(a, e))
  {
    ProductNonNegative(Of(e.metrics, RoundTripTime), Of(e.metrics, DataTransferred));
  }

  lemma QuotientNonNegative(x: real, y: real)
    requires x >= 0.0 && y > 0.0
    ensures x / y >= 0.0
  {
    assert x == x / y * y;
    ProductOrder(x / y, 0.0, y);
  }

  /** A merged edge is non-negative in every metric, its averaged round-trip time included. */
  lemma SlotEdgeNonNegative(p: Pair, a: Agg)
    requires SlotNonNegative(a)
    ensures EdgeNonNegative(AggEdge(p, a))
  {
    if a.rttWeightBytes > 0.0 { QuotientNonNegative(a.rttWeighted, a.rttWeightBytes); }
    if a.rttCount > 0 { QuotientNonNegative(a.rttSum, a.rttCount as real); }
  }

  lemma {:induction false} SlotsNonNegative(g: Grouping, edges: seq<TopoEdge>, p: Pair)
    requires p in MergeEdges(g, edges).agg && forall i :: 0 <= i < |edges| ==> EdgeNonNegative(edges[i])
    ensures SlotNonNegative(MergeEdges(g, edges).agg[p])
  {
    var before, e := edges[..|edges| - 1], edges[|edges| - 1];
    var s := MergeEdges(g, before);
    if p in s.agg { SlotsNonNegative(g, before, p); }
    MergeIsNonNegative(if p in s.agg then s.agg[p] else Fresh(e), e);
  }

  /** Grouping keeps metrics non-negative. */
  lemma ShownIsNonNegative(
      kept: seq<TopoNode>, edges: seq<TopoEdge>, groupBy: Option<Level>, expanded: set<string>, m: Metric)
    requires forall i :: 0 <= i < |edges| ==> EdgeNonNegative(edges[i])
    ensures NonNegative(ShownEdges(kept, edges, groupBy, expanded), m)
  {
    if groupBy.Some? {
      var g := GroupingOf(kept, groupBy.value, expanded);
      var s := MergeEdges(g, edges);
      MergeEdgesValid(g, edges);
      forall i | 0 <= i < |s.order| ensures EdgeNonNegative(EdgesOf(s)[i]) {
        assert s.order[i] in s.agg;
        SlotsNonNegative(g, edges, s.order[i]);
        SlotEdgeNonNegative(s.order[i], s.agg[s.order[i]]);
      }
    }
  }

  function SumTraffic(nodes: seq<GraphNode>): real
  {
    if nodes == [] then 0.0 else SumTraffic(nodes[..|nodes| - 1]) + nodes[|nodes| - 1].traffic
  }

  function SumSelfTotals(nodes: seq<GraphNode>): real
  {
    if nodes == [] then 0.0 else SumSelfTotals(nodes[..|nodes| - 1]) + nodes[|nodes| - 1].selfTotal
  }

  lemma {:induction false} SumsOfDrawn(
      out: seq<GraphNode>, drawn: seq<TopoNode>, ids: set<NodeId>, edges: seq<TopoEdge>, m: Metric, cut: real)
    requires |out| == |drawn| && forall i :: 0 <= i < |out| ==> NodeOf(out[i], drawn[i], ids, edges, m, cut)
    ensures SumTraffic(out) == SumNodes(drawn, NodeTraffic(ids, edges, m, cut))
    ensures SumSelfTotals(out) == SumNodes(drawn, LoopsOf(ids, edges, m))
  {
    if out != [] {
      var n := |out| - 1;
      assert NodeOf(out[n], drawn[n], ids, edges, m, cut);
      SumsOfDrawn(out[..n], drawn[..n], ids, edges, m, cut);
    }
  }

  ghost predicate IsDrawn(r: Model, id: NodeId) { exists j :: 0 <= j < |r.nodes| && r.nodes[j].id == id }

  lemma DrawnIsNode(r: Model, nodes: seq<TopoNode>, edges: seq<TopoEdge>, m: Metric, cut: real, id: NodeId)
    requires IsModelOf(r, nodes, edges, m, cut) && id in IdsOf(Rendered(nodes, IdsOf(nodes), edges, m, cut))
    ensures IsDrawn(r, id)
  {
    var drawn := Rendered(nodes, IdsOf(nodes), edges, m, cut);
    var j :| 0 <= j < |drawn| && drawn[j].id == id;
    assert NodeOf(r.nodes[j], drawn[j], IdsOf(nodes), edges, m, cut);
  }

  /** In every model that the builder returns both ends of every link are drawn, as different nodes. */
  lemma BuiltLinksAreDrawn(r: Model, nodes: seq<TopoNode>, edges: seq<TopoEdge>, m: Metric, cut: real,
      wanted: Option<set<NodeId>>, groupBy: Option<Level>, expanded: set<string>, i: nat)
    requires IsBuilt(r, nodes, edges, m, cut, wanted, groupBy, expanded) && i < |r.links|
    ensures var l := r.links[i]; l.source != l.target && IsDrawn(r, l.source) && IsDrawn(r, l.target)
  {
    var kept := Selected(nodes, wanted);
    var ns, es := ShownNodes(kept, groupBy, expanded), ShownEdges(kept, edges, groupBy, expanded);
    LinkEndsAreRendered(ns, es, m, cut, i);
    DrawnIsNode(r, ns, es, m, cut, r.links[i].source);
    DrawnIsNode(r, ns, es, m, cut, r.links[i].target);
  }

  lemma ModelAddsUp(r: Model, nodes: seq<TopoNode>, edges: seq<TopoEdge>, m: Metric, cut: real)
    requires IsModelOf(r, nodes, edges, m, cut) && DistinctIds(nodes)
    ensures SumTraffic(r.nodes) == 2.0 * SumLinks(r.links) + SumSelfTotals(r.nodes)
    ensures NonNegative(edges, m) ==> SumSelfTotals(r.nodes) == SumLoops(IdsOf(nodes), edges, m)
  {
    TrafficAddsUp(nodes, edges, m, cut);
    SumsOfDrawn(r.nodes, Rendered(nodes, IdsOf(nodes), edges, m, cut), IdsOf(nodes), edges, m, cut);
    if NonNegative(edges, m) { LoopsAreDrawn(nodes, edges, m, cut); }
  }

  /**
   * In every model that the builder returns for distinct nodes, whatever the selection, grouping
   * and cut, the traffic of the drawn nodes is twice the drawn links plus the drawn self-loops;
   * and for non-negative input these are all the self-loops of the graph before the cut.
   */
  lemma BuiltTrafficAddsUp(r: Model, nodes: seq<TopoNode>, edges: seq<TopoEdge>, m: Metric, cut: real,
      wanted: Option<set<NodeId>>, groupBy: Option<Level>, expanded: set<string>)
    requires IsBuilt(r, nodes, edges, m, cut, wanted, groupBy, expanded)
    requires DistinctIds(nodes) && (groupBy.Some? ==> NoCollision(nodes, groupBy.value))
    ensures SumTraffic(r.nodes) == 2.0 * SumLinks(r.links) + SumSelfTotals(r.nodes)
    ensures (forall i :: 0 <= i < |edges| ==> EdgeNonNegative(edges[i])) ==>
      var kept := Selected(nodes, wanted);
      SumSelfTotals(r.nodes)
      == SumLoops(IdsOf(ShownNodes(kept, groupBy, expanded)), ShownEdges(kept, edges, groupBy, expanded), m)
  {
    var kept := Selected(nodes, wanted);
    ShownIsDistinct(nodes, wanted, groupBy, expanded);
    ModelAddsUp(r, ShownNodes(kept, groupBy, expanded), ShownEdges(kept, edges, groupBy, expanded), m, cut);
    if forall i :: 0 <= i < |edges| ==> EdgeNonNegative(edges[i]) {
      ShownIsNonNegative(kept, edges, groupBy, expanded, m);
    }
  }

  lemma {:induction false} WithoutNone(nodes: seq<TopoNode>, gone: NodeId -> bool)
    requires forall id :: !gone(id)
    ensures Without(nodes, gone) == nodes
  {
    if nodes != [] { WithoutNone(nodes[..|nodes| - 1], gone); }
  }

  /**
   * Without a cut the model that the builder returns shows, in its links and self-loops, exactly
   * what the edges between selected nodes carry, grouped or not, for each counter metric.
   */
  lemma BuiltConserves(r: Model, nodes: seq<TopoNode>, edges: seq<TopoEdge>, m: Metric, cut: real,
      wanted: Option<set<NodeId>>, groupBy: Option<Level>, expanded: set<string>)
    requires IsBuilt(r, nodes, edges, m, cut, wanted, groupBy, expanded) && cut <= 0.0 && IsCounter(m)
    requires DistinctIds(nodes) && (groupBy.Some? ==> NoCollision(nodes, groupBy.value))
    ensures SumLinks(r.links) + SumSelfTotals(r.nodes) == SumKept(IdsOf(Selected(nodes, wanted)), edges, m)
  {
    var kept := Selected(nodes, wanted);
    var ns, es := ShownNodes(kept, groupBy, expanded), ShownEdges(kept, edges, groupBy, expanded);
    ShownIsDistinct(nodes, wanted, groupBy, expanded);
    WithoutNone(ns, Orphans(IdsOf(ns), es, m, cut));
    SumsOfDrawn(r.nodes, Rendered(ns, IdsOf(ns), es, m, cut), IdsOf(ns), es, m, cut);
    LoopTrafficIsOnce(ns, IdsOf(ns), es, m);
    LinksAndLoopsAreKept(IdsOf(kept), edges, m);
    if groupBy.Some? { GroupingConserves(kept, groupBy.value, expanded, edges, m); }
  }

  // ---- what the drawing shows, in terms of the edges and nodes it was made of -----------------------------------

  /** The nodes selected by the tags, in order: all of them without a tag. */
  lemma {:induction false} SelectedNodes(nodes: seq<TopoNode>, wanted: Option<set<NodeId>>, p: nat -> bool)
    returns (at: seq<nat>)
    requires forall j: nat :: j < |nodes| ==>
      (p(j) <==> wanted.None? || wanted.value == {} || nodes[j].id in wanted.value)
    ensures Picks(at, |nodes|, p) && |at| == |Selected(nodes, wanted)|
    ensures forall i :: 0 <= i < |at| ==> at[i] < |nodes| && Selected(nodes, wanted)[i] == nodes[at[i]]
  {
    at := [];
    if nodes != [] {
      var n := |nodes| - 1;
      var before := SelectedNodes(nodes[..n], wanted, p);
      at := PicksSnoc(before, n, p);
    }
  }

  /** The edge runs between two different nodes of the list. */
  ghost predicate Joins(nodes: seq<TopoNode>, e: TopoEdge)
  {
    e.source != e.target && HasId(nodes, e.source) && HasId(nodes, e.target)
  }

  /** The edge is drawn as a link. */
  ghost predicate Shows(nodes: seq<TopoNode>, e: TopoEdge, m: Metric, cut: real)
  {
    Joins(nodes, e) && (cut > 0.0 ==> Of(e.metrics, m) >= cut)
  }

  lemma CutSnoc(links: seq<GraphLink>, l: GraphLink, cut: real)
    ensures Cut(links + [l], cut) == if cut > 0.0 && l.value < cut then Cut(links, cut) else Cut(links, cut) + [l]
  {
    assert (links + [l])[..|links|] == links;
  }

  lemma LinksSnoc(nodes: seq<TopoNode>, edges: seq<TopoEdge>, n: nat, m: Metric, cut: real)
    requires n < |edges|
    ensures var before, after := AllLinks(IdsOf(nodes), edges[..n], m), AllLinks(IdsOf(nodes), edges[..n + 1], m);
      var l := GraphLink(edges[n].source, edges[n].target, Of(edges[n].metrics, m), edges[n].category);
      && after == (if Joins(nodes, edges[n]) then before + [l] else before)
      && Cut(after, cut) == if Shows(nodes, edges[n], m, cut) then Cut(before, cut) + [l] else Cut(before, cut)
  {
    assert edges[..n + 1][..n] == edges[..n];
    HasIdIsMember(nodes, edges[n].source);
    HasIdIsMember(nodes, edges[n].target);
    CutSnoc(AllLinks(IdsOf(nodes), edges[..n], m), LinkOf(edges[n], m), cut);
  }

  /** The links up to edge n, and those hidden by the cut. */
  lemma {:induction false} LinksUpTo(
      nodes: seq<TopoNode>, edges: seq<TopoEdge>, n: nat, m: Metric, cut: real, p: nat -> bool, q: nat -> bool)
    returns (at: seq<nat>, hidden: seq<nat>)
    requires n <= |edges|
    requires forall j: nat :: j < |edges| ==> (p(j) <==> Shows(nodes, edges[j], m, cut))
    requires forall j: nat :: j < |edges| ==> (q(j) <==> Joins(nodes, edges[j]) && !p(j))
    ensures var all := AllLinks(IdsOf(nodes), edges[..n], m);
      && Picks(at, n, p) && |at| == |Cut(all, cut)| && LinksFrom(Cut(all, cut), edges, at, m)
      && Picks(hidden, n, q) && |all| == |at| + |hidden|
  {
    at, hidden := [], [];
    if n > 0 {
      at, hidden := LinksUpTo(nodes, edges, n - 1, m, cut, p, q);
      LinksSnoc(nodes, edges, n - 1, m, cut);
      at := OneMoreLink(Cut(AllLinks(IdsOf(nodes), edges[..n - 1], m), cut),
                        Cut(AllLinks(IdsOf(nodes), edges[..n], m), cut), edges, n - 1, m, at, p);
      hidden := PicksSnoc(hidden, n - 1, q);
    }
  }

  lemma OneMoreLink(before: seq<GraphLink>, after: seq<GraphLink>, edges: seq<TopoEdge>, n: nat, m: Metric,
                    at: seq<nat>, p: nat -> bool) returns (more: seq<nat>)
    requires n < |edges| && Picks(at, n, p) && LinksFrom(before, edges, at, m)
    requires after ==
      if p(n) then
        before + [GraphLink(edges[n].source, edges[n].target, Of(edges[n].metrics, m), edges[n].category)]
      else before
    ensures Picks(more, n + 1, p) && LinksFrom(after, edges, more, m)
  {
    more := PicksSnoc(at, n, p);
  }

  /** Each link is the edge at its position, with the metric as its value. */
  ghost predicate LinksFrom(links: seq<GraphLink>, edges: seq<TopoEdge>, at: seq<nat>, m: Metric)
  {
    |links| == |at| && forall i :: 0 <= i < |at| ==>
      at[i] < |edges|
      && links[i] == GraphLink(edges[at[i]].source, edges[at[i]].target,
                               Of(edges[at[i]].metrics, m), edges[at[i]].category)
  }

  /**
   * The links of the model are, in order, the edges between two different drawn nodes that reach
   * a positive cut; the hidden ones are those that do not.
   */
  lemma ModelLinks(r: Model, nodes: seq<TopoNode>, edges: seq<TopoEdge>, m: Metric, cut: real,
                   p: nat -> bool, q: nat -> bool) returns (at: seq<nat>, hidden: seq<nat>)
    requires IsModelOf(r, nodes, edges, m, cut)
    requires forall j: nat :: j < |edges| ==> (p(j) <==> Shows(nodes, edges[j], m, cut))
    requires forall j: nat :: j < |edges| ==> (q(j) <==> Joins(nodes, edges[j]) && !p(j))
    ensures Picks(at, |edges|, p) && LinksFrom(r.links, edges, at, m)
    ensures Picks(hidden, |edges|, q) && |hidden| == r.hiddenEdgeCount
  {
    assert edges[..|edges|] == edges;
    at, hidden := LinksUpTo(nodes, edges, |edges|, m, cut, p, q);
  }

  /** Edge j, where it counts at the node: a drawn link at either of its ends. */
  ghost function LinkAt(nodes: seq<TopoNode>, edges: seq<TopoEdge>, m: Metric, cut: real, id: NodeId): nat -> real
  {
    (j: nat) => if j < |edges| && Shows(nodes, edges[j], m, cut) && (edges[j].source == id || edges[j].target == id)
                   && m in edges[j].metrics
      then edges[j].metrics[m] else 0.0
  }

  /** Edge j, where it is a self-loop of the node. */
  ghost function LoopAt(edges: seq<TopoEdge>, m: Metric, id: NodeId): nat -> real
  {
    (j: nat) => if j < |edges| && edges[j].source == id && edges[j].target == id && m in edges[j].metrics
      then edges[j].metrics[m] else 0.0
  }

  lemma LinkTrafficSnoc(links: seq<GraphLink>, l: GraphLink, id: NodeId)
    ensures LinkTraffic(links + [l], id) == LinkTraffic(links, id) + Share(l, id)
  {
    assert (links + [l])[..|links|] == links;
  }

  lemma TrafficStep(nodes: seq<TopoNode>, edges: seq<TopoEdge>, n: nat, m: Metric, cut: real, id: NodeId)
    requires n < |edges|
    ensures LinkTraffic(Cut(AllLinks(IdsOf(nodes), edges[..n + 1], m), cut), id)
         == LinkTraffic(Cut(AllLinks(IdsOf(nodes), edges[..n], m), cut), id) + LinkAt(nodes, edges, m, cut, id)(n)
  {
    var e := edges[n];
    LinksSnoc(nodes, edges, n, m, cut);
    LinkTrafficSnoc(Cut(AllLinks(IdsOf(nodes), edges[..n], m), cut),
                    GraphLink(e.source, e.target, Of(e.metrics, m), e.category), id);
  }

  lemma TrafficIsSum(nodes: seq<TopoNode>, edges: seq<TopoEdge>, m: Metric, cut: real, id: NodeId)
    ensures LinkTraffic(Cut(AllLinks(IdsOf(nodes), edges, m), cut), id)
         == SumBelow(|edges|, LinkAt(nodes, edges, m, cut, id))
  {
    var f := (i: nat) =>
        if i <= |edges| then LinkTraffic(Cut(AllLinks(IdsOf(nodes), edges[..i], m), cut), id) else 0.0;
    forall i: nat | i < |edges| ensures f(i + 1) == f(i) + LinkAt(nodes, edges, m, cut, id)(i) {
      TrafficStep(nodes, edges, i, m, cut, id);
    }
    GrowsBy(|edges|, f, LinkAt(nodes, edges, m, cut, id));
    assert edges[..|edges|] == edges;
  }

  lemma {:induction false} LoopsUpTo(ids: set<NodeId>, edges: seq<TopoEdge>, n: nat, m: Metric, id: NodeId)
    requires n <= |edges| && id in ids
    ensures SelfTotal(ids, edges[..n], m, id) == SumBelow(n, LoopAt(edges, m, id))
  {
    if n > 0 {
      LoopsUpTo(ids, edges, n - 1, m, id);
      assert edges[..n][..n - 1] == edges[..n - 1];
    }
  }

  ghost predicate Touches(e: TopoEdge, id: NodeId) { e.source == id || e.target == id }

  /** A node stays unless every link it had is hidden, and it had one, and its self-loops carry nothing. */
  ghost predicate Stays(nodes: seq<TopoNode>, edges: seq<TopoEdge>, m: Metric, cut: real, id: NodeId)
  {
    || SumBelow(|edges|, LoopAt(edges, m, id)) > 0.0
    || (exists j :: 0 <= j < |edges| && Shows(nodes, edges[j], m, cut) && Touches(edges[j], id))
    || forall j :: 0 <= j < |edges| ==> !(Joins(nodes, edges[j]) && Touches(edges[j], id))
  }

  lemma IncidentSnoc(links: seq<GraphLink>, l: GraphLink)
    ensures Incident(links + [l]) == Incident(links) + {l.source, l.target}
  {
    assert (links + [l])[..|links|] == links;
  }

  ghost predicate TouchedUpTo(
      nodes: seq<TopoNode>, edges: seq<TopoEdge>, n: nat, m: Metric, cut: real, id: NodeId)
  {
    exists j :: 0 <= j < n <= |edges| && Shows(nodes, edges[j], m, cut) && Touches(edges[j], id)
  }

  lemma IncidentStep(nodes: seq<TopoNode>, edges: seq<TopoEdge>, n: nat, m: Metric, cut: real, id: NodeId)
    requires n < |edges|
    ensures id in Incident(Cut(AllLinks(IdsOf(nodes), edges[..n + 1], m), cut))
       <==> id in Incident(Cut(AllLinks(IdsOf(nodes), edges[..n], m), cut))
            || (Shows(nodes, edges[n], m, cut) && Touches(edges[n], id))
  {
    var e := edges[n];
    LinksSnoc(nodes, edges, n, m, cut);
    IncidentSnoc(Cut(AllLinks(IdsOf(nodes), edges[..n], m), cut),
                 GraphLink(e.source, e.target, Of(e.metrics, m), e.category));
  }

  lemma {:induction false} IncidentIsTouched(
      nodes: seq<TopoNode>, edges: seq<TopoEdge>, n: nat, m: Metric, cut: real, id: NodeId)
    requires n <= |edges|
    ensures id in Incident(Cut(AllLinks(IdsOf(nodes), edges[..n], m), cut))
       <==> TouchedUpTo(nodes, edges, n, m, cut, id)
  {
    if n > 0 {
      IncidentIsTouched(nodes, edges, n - 1, m, cut, id);
      IncidentStep(nodes, edges, n - 1, m, cut, id);
    }
  }

  lemma OrphanedIff(nodes: seq<TopoNode>, edges: seq<TopoEdge>, m: Metric, cut: real, id: NodeId)
    requires id in IdsOf(nodes)
    ensures Orphaned(IdsOf(nodes), edges, m, cut, id) <==> !Stays(nodes, edges, m, cut, id)
  {
    var all := AllLinks(IdsOf(nodes), edges, m);
    assert edges[..|edges|] == edges;
    LoopsUpTo(IdsOf(nodes), edges, |edges|, m, id);
    IncidentIsTouched(nodes, edges, |edges|, m, cut, id);
    IncidentIsTouched(nodes, edges, |edges|, m, 0.0, id);
    AtLeastShrinks(all, cut);
    assert TouchedUpTo(nodes, edges, |edges|, m, 0.0, id)
      <==> exists j :: 0 <= j < |edges| && Joins(nodes, edges[j]) && Touches(edges[j], id) by {
      if j :| 0 <= j < |edges| && Joins(nodes, edges[j]) && Touches(edges[j], id) {
        assert Shows(nodes, edges[j], m, 0.0);
      }
    }
  }

  lemma {:induction false} NodesLeft(nodes: seq<TopoNode>, gone: NodeId -> bool, p: nat -> bool) returns (at: seq<nat>)
    requires forall j: nat :: j < |nodes| ==> (p(j) <==> !gone(nodes[j].id))
    ensures Picks(at, |nodes|, p) && |at| == |Without(nodes, gone)|
    ensures forall i :: 0 <= i < |at| ==> at[i] < |nodes| && Without(nodes, gone)[i] == nodes[at[i]]
  {
    at := [];
    if nodes != [] {
      var n := |nodes| - 1;
      at := NodesLeft(nodes[..n], gone, p);
      at := PicksSnoc(at, n, p);
    }
  }

  /**
   * A drawn node repeats its input node; its traffic is that of the drawn links at either of its
   * ends and of its self-loops.
   */
  ghost predicate NodeShows(x: GraphNode, n: TopoNode, nodes: seq<TopoNode>, edges: seq<TopoEdge>, m: Metric, cut: real)
  {
    && x.id == n.id && x.text == n.text && x.kind == n.kind
    && x.selfTotal == SumBelow(|edges|, LoopAt(edges, m, n.id))
    && x.traffic == SumBelow(|edges|, LinkAt(nodes, edges, m, cut, n.id)) + x.selfTotal
  }

  /** The nodes of the model are, in order, those that stay after the cut. */
  lemma ModelNodes(r: Model, nodes: seq<TopoNode>, edges: seq<TopoEdge>, m: Metric, cut: real, p: nat -> bool)
    returns (at: seq<nat>)
    requires IsModelOf(r, nodes, edges, m, cut)
    requires forall j: nat :: j < |nodes| ==> (p(j) <==> Stays(nodes, edges, m, cut, nodes[j].id))
    ensures Picks(at, |nodes|, p) && |at| == |r.nodes| == r.selected
    ensures forall i :: 0 <= i < |at| ==>
      at[i] < |nodes| && NodeShows(r.nodes[i], nodes[at[i]], nodes, edges, m, cut)
  {
    var ids := IdsOf(nodes);
    forall j: nat | j < |nodes| ensures p(j) <==> !Orphans(ids, edges, m, cut)(nodes[j].id) {
      assert nodes[j].id in ids;
      OrphanedIff(nodes, edges, m, cut, nodes[j].id);
    }
    at := NodesLeft(nodes, Orphans(ids, edges, m, cut), p);
    forall i | 0 <= i < |at| ensures NodeShows(r.nodes[i], nodes[at[i]], nodes, edges, m, cut) {
      assert edges[..|edges|] == edges && nodes[at[i]].id in ids;
      assert NodeOf(r.nodes[i], nodes[at[i]], ids, edges, m, cut);
      TrafficIsSum(nodes, edges, m, cut, nodes[at[i]].id);
      LoopsUpTo(ids, edges, |edges|, m, nodes[at[i]].id);
    }
  }
}
