/**
 * Collapsing topology nodes into groups (`applyGrouping` in app/src/lib/topology-graph.ts):
 * additive metrics are conserved over any set of node pairs, and grouping an already grouped
 * graph again gives what grouping from scratch gives.
 */
module TopologyGrouping {
  import opened Collections
  import opened FlowTypes

  type NodeId = string

  datatype Level = Namespace | Az | Cluster

  datatype TopoNode = TopoNode(
    id: NodeId, kind: string, text: string, namespace: Option<string>, az: Option<string>, cluster: Option<string>)

  datatype TopoEdge = TopoEdge(source: NodeId, target: NodeId, metrics: map<Metric, real>, category: string)

  /** A missing metric counts as zero. */
  function Of(metrics: map<Metric, real>, m: Metric): real
  {
    if m in metrics then metrics[m] else 0.0
  }

  // ---- group keys and effective ids ----------------------------------------------------

  function GroupKeyOf(n: TopoNode, level: Level): string
  {
    var raw := match level case Namespace => n.namespace case Az => n.az case Cluster => n.cluster;
    match raw case Some(key) => key case None => "unknown"
  }

  function GroupPrefix(level: Level): string
  {
    match level case Namespace => "group:namespace:" case Az => "group:az:" case Cluster => "group:cluster:"
  }

  function GroupNodeId(level: Level, key: string): NodeId { GroupPrefix(level) + key }

  lemma GroupNodeIdInjective(level: Level, a: string, b: string)
    requires GroupNodeId(level, a) == GroupNodeId(level, b)
    ensures a == b
  {
    var n := |GroupPrefix(level)|;
    assert a == GroupNodeId(level, a)[n..] && b == GroupNodeId(level, b)[n..];
  }

  function GroupNode(level: Level, key: string): TopoNode
  {
    TopoNode(GroupNodeId(level, key), "node", key,
             if level.Namespace? then Some(key) else None,
             if level.Az? then Some(key) else None,
             if level.Cluster? then Some(key) else None)
  }

  /** Node ids to group keys; a repeated id takes the key of its last node. */
  function KeyMap(nodes: seq<TopoNode>, level: Level): map<NodeId, string>
  {
    if nodes == [] then map[]
    else
      var n := nodes[|nodes| - 1];
      KeyMap(nodes[..|nodes| - 1], level)[n.id := GroupKeyOf(n, level)]
  }

  lemma {:induction false} KeyMapDomain(nodes: seq<TopoNode>, level: Level, i: nat)
    requires i < |nodes|
    ensures nodes[i].id in KeyMap(nodes, level)
  {
    var n := |nodes| - 1;
    if i < n { KeyMapDomain(nodes[..n], level, i); }
  }

  /** The level, the key of every kept node, and the groups that keep their members. */
  datatype Grouping = Grouping(level: Level, keys: map<NodeId, string>, expanded: set<string>) {

    function EffId(id: NodeId): NodeId
      requires id in keys
    {
      if keys[id] in expanded then id else GroupNodeId(level, keys[id])
    }

    predicate Keeps(e: TopoEdge) { e.source in keys && e.target in keys }

    function PairOf(e: TopoEdge): Pair
      requires Keeps(e)
    {
      Ordered(EffId(e.source), EffId(e.target))
    }
  }

  // ---- unordered pairs -------------------------------------------------------------------

  datatype Pair = Pair(source: NodeId, target: NodeId)

  predicate Le(a: string, b: string)
  {
    a == [] || (b != [] && (a[0] < b[0] || (a[0] == b[0] && Le(a[1..], b[1..]))))
  }

  lemma {:induction false} LeTotalAndAntisymmetric(a: string, b: string)
    ensures Le(a, b) || Le(b, a)
    ensures Le(a, b) && Le(b, a) ==> a == b
    decreases |a|
  {
    if a != [] && b != [] {
      LeTotalAndAntisymmetric(a[1..], b[1..]);
      assert a == [a[0]] + a[1..] && b == [b[0]] + b[1..];
    }
  }

  function Ordered(a: NodeId, b: NodeId): Pair
  {
    if Le(a, b) then Pair(a, b) else Pair(b, a)
  }

  /** b goes on after a, or has the larger character where they first differ. */
  ghost predicate Precedes(a: string, b: string, k: nat)
  {
    k <= |a| && k <= |b| && a[..k] == b[..k] && (k == |a| || (k < |b| && a[k] < b[k]))
  }

  lemma PrecedesCons(a: string, b: string, k: nat)
    requires a != [] && b != [] && a[0] == b[0]
    ensures Precedes(a, b, k + 1) <==> Precedes(a[1..], b[1..], k)
  {
    if k < |a| && k < |b| {
      assert a[..k + 1] == [a[0]] + a[1..][..k] && b[..k + 1] == [b[0]] + b[1..][..k];
    }
  }

  /** The order is lexicographic. */
  lemma {:induction false} LeIsLexicographic(a: string, b: string)
    ensures Le(a, b) <==> exists k: nat :: Precedes(a, b, k)
    decreases |a|
  {
    if a == [] {
      assert Precedes(a, b, 0);
    } else if b != [] && a[0] == b[0] {
      LeIsLexicographic(a[1..], b[1..]);
      if k: nat :| Precedes(a[1..], b[1..], k) { PrecedesCons(a, b, k); }
      if k: nat :| Precedes(a, b, k) {
        assert k > 0;
        PrecedesCons(a, b, k - 1);
      }
    } else {
      if Le(a, b) { assert Precedes(a, b, 0); }
      if k: nat :| Precedes(a, b, k) { assert k > 0 ==> a[..k][0] == b[..k][0]; }
    }
  }

  /** The two ends of an edge are not told apart: the smaller one comes first. */
  lemma OrderedIsSymmetric(a: NodeId, b: NodeId)
    ensures Ordered(a, b) == Ordered(b, a)
    ensures Le(Ordered(a, b).source, Ordered(a, b).target)
    ensures Ordered(a, b) == Pair(a, b) || Ordered(a, b) == Pair(b, a)
  {
    LeTotalAndAntisymmetric(a, b);
  }

  // ---- effective nodes --------------------------------------------------------------------

  /** Members of expanded groups stay; a collapsed group stands at its first member. */
  function EffNodes(nodes: seq<TopoNode>, g: Grouping): seq<TopoNode>
    requires forall i :: 0 <= i < |nodes| ==> nodes[i].id in g.keys
  {
    if nodes == [] then []
    else
      var n := nodes[|nodes| - 1];
      var before, key := nodes[..|nodes| - 1], g.keys[n.id];
      if key in g.expanded then EffNodes(before, g) + [n]
      else if key in CollapsedKeys(before, g) then EffNodes(before, g)
      else EffNodes(before, g) + [GroupNode(g.level, key)]
  }

  /** The keys of the collapsed groups met so far. */
  function CollapsedKeys(nodes: seq<TopoNode>, g: Grouping): set<string>
    requires forall i :: 0 <= i < |nodes| ==> nodes[i].id in g.keys
  {
    if nodes == [] then {}
    else
      var key := g.keys[nodes[|nodes| - 1].id];
      CollapsedKeys(nodes[..|nodes| - 1], g) + if key in g.expanded then {} else {key}
  }

  // ---- merging edges ------------------------------------------------------------------------

  datatype Agg = Agg(
    bytes: real, retrans: real, timeouts: real,
    rttWeighted: real, rttWeightBytes: real, rttSum: real, rttCount: nat,
    category: string, maxBytes: Option<real>)

  /** The merge map in insertion order. */
  datatype Slots = Slots(order: seq<Pair>, agg: map<Pair, Agg>) {
    ghost predicate Valid()
    {
      Distinct(order) && forall p :: p in agg <==> p in order
    }
  }

  function Fresh(e: TopoEdge): Agg
  {
    Agg(0.0, 0.0, 0.0, 0.0, 0.0, 0.0, 0, e.category, None)
  }

  function Merge(slot: Agg, e: TopoEdge): Agg
  {
    var bytes := Of(e.metrics, DataTransferred);
    var carriesRtt := RoundTripTime in e.metrics;
    var rtt := Of(e.metrics, RoundTripTime);
    var heaviest := slot.maxBytes.None? || bytes >= slot.maxBytes.value;
    Agg(slot.bytes + bytes,
        slot.retrans + Of(e.metrics, Retransmissions),
        slot.timeouts + Of(e.metrics, Timeouts),
        if carriesRtt then slot.rttWeighted + rtt * bytes else slot.rttWeighted,
        if carriesRtt then slot.rttWeightBytes + bytes else slot.rttWeightBytes,
        if carriesRtt then slot.rttSum + rtt else slot.rttSum,
        if carriesRtt then slot.rttCount + 1 else slot.rttCount,
        if heaviest then e.category else slot.category,
        if heaviest then Some(bytes) else slot.maxBytes)
  }

  function MergeEdge(s: Slots, g: Grouping, e: TopoEdge): Slots
  {
    if !g.Keeps(e) then s
    else
      var p := g.PairOf(e);
      if p in s.agg then s.(agg := s.agg[p := Merge(s.agg[p], e)])
      else Slots(s.order + [p], s.agg[p := Merge(Fresh(e), e)])
  }

  function MergeEdges(g: Grouping, edges: seq<TopoEdge>): Slots
  {
    if edges == [] then Slots([], map[])
    else MergeEdge(MergeEdges(g, edges[..|edges| - 1]), g, edges[|edges| - 1])
  }

  function AggMetrics(a: Agg): map<Metric, real>
  {
    var sums := map[DataTransferred := a.bytes, Retransmissions := a.retrans, Timeouts := a.timeouts];
    if a.rttCount == 0 then sums
    else sums[RoundTripTime := if a.rttWeightBytes > 0.0 then a.rttWeighted / a.rttWeightBytes
                               else a.rttSum / a.rttCount as real]
  }

  function AggEdge(p: Pair, a: Agg): TopoEdge
  {
    TopoEdge(p.source, p.target, AggMetrics(a), a.category)
  }

  ghost function GroupedEdges(g: Grouping, edges: seq<TopoEdge>): (merged: seq<TopoEdge>)
  {
    MergeEdgesValid(g, edges);
    EdgesOf(MergeEdges(g, edges))
  }

  ghost function EdgesOf(s: Slots): seq<TopoEdge>
    requires s.Valid()
  {
    seq(|s.order|, i requires 0 <= i < |s.order| => AggEdge(s.order[i], s.agg[s.order[i]]))
  }

  lemma {:induction false} MergeEdgesValid(g: Grouping, edges: seq<TopoEdge>)
    ensures MergeEdges(g, edges).Valid()
  {
    if edges != [] {
      MergeEdgesValid(g, edges[..|edges| - 1]);
      MergeEdgeValid(MergeEdges(g, edges[..|edges| - 1]), g, edges[|edges| - 1]);
    }
  }

  lemma MergeEdgeValid(s: Slots, g: Grouping, e: TopoEdge)
    requires s.Valid()
    ensures MergeEdge(s, g, e).Valid()
  {
    if g.Keeps(e) {
      var p := g.PairOf(e);
      assert p in s.agg <==> p in s.order;
      var after := MergeEdge(s, g, e);
      forall q ensures q in after.agg <==> q in after.order {
        assert q in s.agg <==> q in s.order;
      }
    }
  }

  // ---- conservation -----------------------------------------------------------------------------

  /** What the merged edges carry over the pairs selected by `sel`. */
  ghost function SlotSum(order: seq<Pair>, agg: map<Pair, Agg>, sel: Pair -> bool, m: Metric): real
    requires forall i :: 0 <= i < |order| ==> order[i] in agg
  {
    if order == [] then 0.0
    else
      var p := order[|order| - 1];
      SlotSum(order[..|order| - 1], agg, sel, m) + if sel(p) then Of(AggMetrics(agg[p]), m) else 0.0
  }

  /** What the kept input edges carry whose pair is selected by `sel`. */
  ghost function EdgeSum(g: Grouping, edges: seq<TopoEdge>, sel: Pair -> bool, m: Metric): real
  {
    if edges == [] then 0.0
    else
      var e := edges[|edges| - 1];
      EdgeSum(g, edges[..|edges| - 1], sel, m)
      + if g.Keeps(e) && sel(g.PairOf(e)) then Of(e.metrics, m) else 0.0
  }

  /** Changing one slot changes the sum by the change of that slot. */
  lemma {:induction false} SlotSumUpdate(
      order: seq<Pair>, agg: map<Pair, Agg>, p: Pair, a: Agg, sel: Pair -> bool, m: Metric)
    requires Distinct(order) && p in agg && forall i :: 0 <= i < |order| ==> order[i] in agg
    ensures SlotSum(order, agg[p := a], sel, m) == SlotSum(order, agg, sel, m)
      + if p in order && sel(p) then Of(AggMetrics(a), m) - Of(AggMetrics(agg[p]), m) else 0.0
  {
    if order != [] {
      var n := |order| - 1;
      assert order == order[..n] + [order[n]];
      SlotSumUpdate(order[..n], agg, p, a, sel, m);
    }
  }

  lemma {:induction false} SlotSumExtended(
      order: seq<Pair>, agg: map<Pair, Agg>, p: Pair, a: Agg, sel: Pair -> bool, m: Metric)
    requires p !in agg && forall i :: 0 <= i < |order| ==> order[i] in agg
    ensures SlotSum(order, agg[p := a], sel, m) == SlotSum(order, agg, sel, m)
  {
    if order != [] {
      SlotSumExtended(order[..|order| - 1], agg, p, a, sel, m);
    }
  }

  lemma MergeAddsMetric(slot: Agg, e: TopoEdge, m: Metric)
    requires IsCounter(m)
    ensures Of(AggMetrics(Merge(slot, e)), m) == Of(AggMetrics(slot), m) + Of(e.metrics, m)
    ensures Of(AggMetrics(Fresh(e)), m) == 0.0
  {}

  ghost function Carried(s: Slots, sel: Pair -> bool, m: Metric): real
    requires s.Valid()
  {
    SlotSum(s.order, s.agg, sel, m)
  }

  lemma ExistingSlotCarries(s: Slots, p: Pair, e: TopoEdge, sel: Pair -> bool, m: Metric)
    requires s.Valid() && p in s.agg && IsCounter(m)
    ensures SlotSum(s.order, s.agg[p := Merge(s.agg[p], e)], sel, m)
      == SlotSum(s.order, s.agg, sel, m) + if sel(p) then Of(e.metrics, m) else 0.0
  {
    MergeAddsMetric(s.agg[p], e, m);
    SlotSumUpdate(s.order, s.agg, p, Merge(s.agg[p], e), sel, m);
  }

  lemma SlotSumSnoc(order: seq<Pair>, agg: map<Pair, Agg>, p: Pair, sel: Pair -> bool, m: Metric)
    requires p in agg && forall i :: 0 <= i < |order| ==> order[i] in agg
    ensures SlotSum(order + [p], agg, sel, m)
      == SlotSum(order, agg, sel, m) + if sel(p) then Of(AggMetrics(agg[p]), m) else 0.0
  {
    assert (order + [p])[..|order|] == order;
  }

  lemma NewSlotSum(order: seq<Pair>, agg: map<Pair, Agg>, p: Pair, a: Agg, sel: Pair -> bool, m: Metric)
    requires p !in agg && forall i :: 0 <= i < |order| ==> order[i] in agg
    ensures SlotSum(order + [p], agg[p := a], sel, m)
      == SlotSum(order, agg, sel, m) + if sel(p) then Of(AggMetrics(a), m) else 0.0
  {
    SlotSumExtended(order, agg, p, a, sel, m);
    SlotSumSnoc(order, agg[p := a], p, sel, m);
  }

  lemma NewSlotCarries(s: Slots, p: Pair, e: TopoEdge, sel: Pair -> bool, m: Metric)
    requires s.Valid() && p !in s.agg && IsCounter(m)
    ensures SlotSum(s.order + [p], s.agg[p := Merge(Fresh(e), e)], sel, m)
      == SlotSum(s.order, s.agg, sel, m) + if sel(p) then Of(e.metrics, m) else 0.0
  {
    MergeAddsMetric(Fresh(e), e, m);
    NewSlotSum(s.order, s.agg, p, Merge(Fresh(e), e), sel, m);
  }

  lemma MergeEdgeCarries(s: Slots, g: Grouping, e: TopoEdge, sel: Pair -> bool, m: Metric)
    requires s.Valid() && MergeEdge(s, g, e).Valid() && IsCounter(m)
    ensures Carried(MergeEdge(s, g, e), sel, m)
      == Carried(s, sel, m) + if g.Keeps(e) && sel(g.PairOf(e)) then Of(e.metrics, m) else 0.0
  {
    if g.Keeps(e) {
      var p := g.PairOf(e);
      if p in s.agg { ExistingSlotCarries(s, p, e, sel, m); } else { NewSlotCarries(s, p, e, sel, m); }
    }
  }

  /** For every selection of pairs, the merged edges carry what the input edges carried. */
  lemma {:induction false} MergeConserves(g: Grouping, edges: seq<TopoEdge>, sel: Pair -> bool, m: Metric)
    requires IsCounter(m) && MergeEdges(g, edges).Valid()
    ensures Carried(MergeEdges(g, edges), sel, m) == EdgeSum(g, edges, sel, m)
  {
    if edges != [] {
      var before, e := edges[..|edges| - 1], edges[|edges| - 1];
      MergeEdgesValid(g, before);
      MergeConserves(g, before, sel, m);
      MergeEdgeCarries(MergeEdges(g, before), g, e, sel, m);
    }
  }

  // ---- round-trip time and category of a merged edge ------------------------------------------------

  ghost predicate Constituent(g: Grouping, edges: seq<TopoEdge>, p: Pair, i: int)
  {
    0 <= i < |edges| && g.Keeps(edges[i]) && g.PairOf(edges[i]) == p
  }

  ghost predicate RttBounded(a: Agg, lo: real, hi: real)
  {
    && a.rttWeightBytes >= 0.0
    && lo * a.rttWeightBytes <= a.rttWeighted <= hi * a.rttWeightBytes
    && lo * a.rttCount as real <= a.rttSum <= hi * a.rttCount as real
  }

  lemma MergeKeepsRttBounded(a: Agg, e: TopoEdge, lo: real, hi: real)
    requires RttBounded(a, lo, hi) && Of(e.metrics, DataTransferred) >= 0.0
    requires RoundTripTime in e.metrics ==> lo <= e.metrics[RoundTripTime] <= hi
    ensures RttBounded(Merge(a, e), lo, hi)
  {
    if RoundTripTime in e.metrics {
      var b, rtt := Of(e.metrics, DataTransferred), e.metrics[RoundTripTime];
      assert lo * (a.rttWeightBytes + b) == lo * a.rttWeightBytes + lo * b;
      assert hi * (a.rttWeightBytes + b) == hi * a.rttWeightBytes + hi * b;
      assert lo * b <= rtt * b <= hi * b;
      assert lo * (a.rttCount + 1) as real == lo * a.rttCount as real + lo;
      assert hi * (a.rttCount + 1) as real == hi * a.rttCount as real + hi;
    }
  }

  ghost predicate RttWithin(e: TopoEdge, lo: real, hi: real)
  {
    && Of(e.metrics, DataTransferred) >= 0.0
    && (RoundTripTime in e.metrics ==> lo <= e.metrics[RoundTripTime] <= hi)
  }

  lemma {:induction false} SlotRttBounded(g: Grouping, edges: seq<TopoEdge>, p: Pair, lo: real, hi: real)
    requires p in MergeEdges(g, edges).agg
    requires forall i :: Constituent(g, edges, p, i) ==> RttWithin(edges[i], lo, hi)
    ensures RttBounded(MergeEdges(g, edges).agg[p], lo, hi)
  {
    var n := |edges| - 1;
    forall i | Constituent(g, edges[..n], p, i) ensures RttWithin(edges[..n][i], lo, hi) {
      assert Constituent(g, edges, p, i);
    }
    var s := MergeEdges(g, edges[..n]);
    if p in s.agg { SlotRttBounded(g, edges[..n], p, lo, hi); }
    if g.Keeps(edges[n]) && g.PairOf(edges[n]) == p {
      assert Constituent(g, edges, p, n);
      MergeKeepsRttBounded(if p in s.agg then s.agg[p] else Fresh(edges[n]), edges[n], lo, hi);
    }
  }

  /** The merged round-trip time lies within the range of its constituents. */
  lemma MergedRttIsBetween(g: Grouping, edges: seq<TopoEdge>, p: Pair, lo: real, hi: real)
    requires p in MergeEdges(g, edges).agg
    requires forall i :: Constituent(g, edges, p, i) ==> RttWithin(edges[i], lo, hi)
    ensures RttOf(MergeEdges(g, edges).agg[p]).Some? ==> lo <= RttOf(MergeEdges(g, edges).agg[p]).value <= hi
  {
    SlotRttBounded(g, edges, p, lo, hi);
    BoundedAverage(MergeEdges(g, edges).agg[p], lo, hi);
  }

  function RttOf(a: Agg): Option<real>
  {
    if RoundTripTime in AggMetrics(a) then Some(AggMetrics(a)[RoundTripTime]) else None
  }

  lemma BoundedAverage(a: Agg, lo: real, hi: real)
    requires RttBounded(a, lo, hi)
    ensures RttOf(a).Some? ==> lo <= RttOf(a).value <= hi
  {
    if a.rttWeightBytes > 0.0 {
      QuotientBetween(a.rttWeighted, a.rttWeightBytes, lo, hi);
    } else if a.rttCount > 0 {
      QuotientBetween(a.rttSum, a.rttCount as real, lo, hi);
    }
  }

  lemma QuotientBetween(x: real, w: real, lo: real, hi: real)
    requires w > 0.0 && lo * w <= x <= hi * w
    ensures lo <= x / w <= hi
  {
    assert x == x / w * w;
    ProductOrder(x / w, lo, w);
    ProductOrder(hi, x / w, w);
  }

  /** Edge i is the last of the heaviest constituents of p. */
  ghost predicate LastHeaviest(g: Grouping, edges: seq<TopoEdge>, p: Pair, i: int)
  {
    && Constituent(g, edges, p, i)
    && forall j :: Constituent(g, edges, p, j) ==>
         var bj, bi := Of(edges[j].metrics, DataTransferred), Of(edges[i].metrics, DataTransferred);
         bj < bi || (bj == bi && j <= i)
  }

  lemma ConstituentsSnoc(g: Grouping, before: seq<TopoEdge>, e: TopoEdge, p: Pair, j: int)
    ensures Constituent(g, before + [e], p, j)
       <==> Constituent(g, before, p, j) || (j == |before| && g.Keeps(e) && g.PairOf(e) == p)
  {}

  lemma HeaviestSnoc(g: Grouping, before: seq<TopoEdge>, e: TopoEdge, p: Pair, i: nat) returns (k: nat)
    requires LastHeaviest(g, before, p, i)
    ensures k == if g.Keeps(e) && g.PairOf(e) == p
      && Of(e.metrics, DataTransferred) >= Of(before[i].metrics, DataTransferred)
                 then |before| else i
    ensures LastHeaviest(g, before + [e], p, k)
  {
    var heavier := g.Keeps(e) && g.PairOf(e) == p
        && Of(e.metrics, DataTransferred) >= Of(before[i].metrics, DataTransferred);
    k := if heavier then |before| else i;
    forall j: int ensures Constituent(g, before + [e], p, j)
      <==> Constituent(g, before, p, j) || (j == |before| && g.Keeps(e) && g.PairOf(e) == p)
    {
      ConstituentsSnoc(g, before, e, p, j);
    }
  }

  lemma OnlyConstituent(g: Grouping, before: seq<TopoEdge>, e: TopoEdge, p: Pair)
    requires p !in MergeEdges(g, before).agg && g.Keeps(e) && g.PairOf(e) == p
    ensures LastHeaviest(g, before + [e], p, |before|)
  {
    forall j: int ensures Constituent(g, before + [e], p, j) <==> j == |before| {
      ConstituentsSnoc(g, before, e, p, j);
      if Constituent(g, before, p, j) {
        MergeEdgesValid(g, before);
        PairIsPresent(g, before, j);
      }
    }
  }

  /** A merged edge shows the category of its heaviest constituent, the last one on a tie. */
  lemma {:induction false} CategoryOfHeaviest(g: Grouping, edges: seq<TopoEdge>, p: Pair) returns (i: nat)
    requires p in MergeEdges(g, edges).agg
    ensures LastHeaviest(g, edges, p, i)
    ensures MergeEdges(g, edges).agg[p].category == edges[i].category
    ensures MergeEdges(g, edges).agg[p].maxBytes == Some(Of(edges[i].metrics, DataTransferred))
  {
    var before, e := edges[..|edges| - 1], edges[|edges| - 1];
    assert edges == before + [e];
    if p in MergeEdges(g, before).agg {
      i := CategoryOfHeaviest(g, before, p);
      i := HeaviestSnoc(g, before, e, p, i);
    } else {
      OnlyConstituent(g, before, e, p);
      i := |before|;
    }
  }

  // ---- composition ----------------------------------------------------------------------------------

  /** The grouping of a node list. */
  function GroupingOf(nodes: seq<TopoNode>, level: Level, expanded: set<string>): Grouping
  {
    Grouping(level, KeyMap(nodes, level), expanded)
  }

  /** Real node ids never look like group ids: endpoint keys start with pod:, i: or ip:. */
  ghost predicate NoCollision(nodes: seq<TopoNode>, level: Level)
  {
    forall i :: 0 <= i < |nodes| ==> !(GroupPrefix(level) <= nodes[i].id)
  }

  /** Every node of the list has a key. */
  ghost predicate Covered(nodes: seq<TopoNode>, g: Grouping)
  {
    forall i :: 0 <= i < |nodes| ==> nodes[i].id in g.keys
  }

  lemma GroupingCovers(nodes: seq<TopoNode>, level: Level, expanded: set<string>)
    ensures Covered(nodes, GroupingOf(nodes, level, expanded))
  {
    forall i | 0 <= i < |nodes| ensures nodes[i].id in KeyMap(nodes, level) { KeyMapDomain(nodes, level, i); }
  }

  /** A collapsed group stands in the grouped nodes under its own key. */
  lemma {:induction false} GroupStands(nodes: seq<TopoNode>, g: Grouping, key: string)
    requires Covered(nodes, g) && NoCollision(nodes, g.level) && key in CollapsedKeys(nodes, g)
    ensures GroupNodeId(g.level, key) in KeyMap(EffNodes(nodes, g), g.level)
    ensures KeyMap(EffNodes(nodes, g), g.level)[GroupNodeId(g.level, key)] == key
  {
    var before, n := nodes[..|nodes| - 1], nodes[|nodes| - 1];
    var k := g.keys[n.id];
    if key in CollapsedKeys(before, g) {
      GroupStands(before, g, key);
      if GroupNodeId(g.level, k) == GroupNodeId(g.level, key) { GroupNodeIdInjective(g.level, k, key); }
      assert GroupPrefix(g.level) <= GroupNodeId(g.level, key);
    }
    KeyMapSnoc(EffNodes(before, g), n, g.level);
    KeyMapSnoc(EffNodes(before, g), GroupNode(g.level, g.keys[n.id]), g.level);
  }

  lemma KeyMapSnoc(nodes: seq<TopoNode>, x: TopoNode, level: Level)
    ensures KeyMap(nodes + [x], level) == KeyMap(nodes, level)[x.id := GroupKeyOf(x, level)]
  {
    assert (nodes + [x])[..|nodes|] == nodes;
  }

  /** A member of an expanded group keeps its id and key. */
  lemma {:induction false} MemberStands(nodes: seq<TopoNode>, g: Grouping, id: NodeId)
    requires Covered(nodes, g) && NoCollision(nodes, g.level)
    requires id in KeyMap(nodes, g.level) && id in g.keys && g.keys[id] in g.expanded
    ensures id in KeyMap(EffNodes(nodes, g), g.level)
    ensures KeyMap(EffNodes(nodes, g), g.level)[id] == KeyMap(nodes, g.level)[id]
  {
    var before, n := nodes[..|nodes| - 1], nodes[|nodes| - 1];
    KeyMapSnoc(EffNodes(before, g), n, g.level);
    KeyMapSnoc(EffNodes(before, g), GroupNode(g.level, g.keys[n.id]), g.level);
    if n.id != id {
      MemberStands(before, g, id);
      KeyMapIds(nodes, g.level, id);
      assert GroupPrefix(g.level) <= GroupNodeId(g.level, g.keys[n.id]);
    }
  }

  lemma {:induction false} KeyMapIds(nodes: seq<TopoNode>, level: Level, id: NodeId)
    requires id in KeyMap(nodes, level)
    ensures exists i :: 0 <= i < |nodes| && nodes[i].id == id
  {
    var n := |nodes| - 1;
    if nodes[n].id != id {
      KeyMapIds(nodes[..n], level, id);
      var i :| 0 <= i < n && nodes[..n][i].id == id;
      assert nodes[i].id == id;
    }
  }

  /** The key of a collapsed node is among the collapsed keys. */
  lemma {:induction false} CollapsedHasKey(nodes: seq<TopoNode>, g: Grouping, i: nat)
    requires Covered(nodes, g) && i < |nodes| && g.keys[nodes[i].id] !in g.expanded
    ensures g.keys[nodes[i].id] in CollapsedKeys(nodes, g)
  {
    if i < |nodes| - 1 { CollapsedHasKey(nodes[..|nodes| - 1], g, i); }
  }

  lemma EffNodesSnoc(before: seq<TopoNode>, x: TopoNode, g: Grouping)
    requires Covered(before, g) && x.id in g.keys
    ensures Covered(before + [x], g)
    ensures EffNodes(before + [x], g)
      == EffNodes(before, g) + if g.keys[x.id] in g.expanded then [x]
                               else if g.keys[x.id] in CollapsedKeys(before, g) then []
                               else [GroupNode(g.level, g.keys[x.id])]
    ensures CollapsedKeys(before + [x], g)
      == CollapsedKeys(before, g) + if g.keys[x.id] in g.expanded then {} else {g.keys[x.id]}
  {
    assert (before + [x])[..|before|] == before;
  }

  /** Collapse with `expanded`, then again with fewer groups expanded. */
  datatype Regroup = Regroup(nodes: seq<TopoNode>, level: Level, expanded: set<string>, kept: set<string>) {
    ghost predicate Valid() { kept <= expanded && NoCollision(nodes, level) }

    function First(): Grouping { GroupingOf(nodes, level, expanded) }

    ghost function Between(): seq<TopoNode>
    {
      GroupingCovers(nodes, level, expanded);
      EffNodes(nodes, First())
    }

    ghost function Second(): Grouping { GroupingOf(Between(), level, kept) }

    function Direct(): Grouping { GroupingOf(nodes, level, kept) }

    /** The second grouping knows the effective ids of the first under the same keys. */
    lemma KeysSurvive(id: NodeId)
      requires Valid() && id in First().keys
      ensures First().EffId(id) in Second().keys
      ensures Second().keys[First().EffId(id)] == First().keys[id]
    {
      GroupingCovers(nodes, level, expanded);
      if First().keys[id] in expanded {
        MemberStands(nodes, First(), id);
      } else {
        KeyMapIds(nodes, level, id);
        var i :| 0 <= i < |nodes| && nodes[i].id == id;
        CollapsedHasKey(nodes, First(), i);
        GroupStands(nodes, First(), First().keys[id]);
      }
    }

    /** Two steps send every node where one step sends it. */
    lemma EffIdsCompose(id: NodeId)
      requires Valid() && id in First().keys
      ensures First().EffId(id) in Second().keys
      ensures Second().EffId(First().EffId(id)) == Direct().EffId(id)
    {
      KeysSurvive(id);
    }

    /** The two-step and the one-step groupings agree on the nodes seen so far. */
    ghost predicate AgreeOn(seen: seq<TopoNode>)
    {
      && Covered(seen, First()) && Covered(seen, Direct())
      && Covered(EffNodes(seen, First()), Second())
      && EffNodes(EffNodes(seen, First()), Second()) == EffNodes(seen, Direct())
      && CollapsedKeys(EffNodes(seen, First()), Second()) == CollapsedKeys(seen, Direct())
      && CollapsedKeys(seen, First()) <= CollapsedKeys(seen, Direct())
    }

    lemma AgreeOnOneMore(seen: seq<TopoNode>, x: TopoNode)
      requires Valid() && AgreeOn(seen) && x.id in First().keys
      ensures AgreeOn(seen + [x])
    {
      var e, k := EffNodes(seen, First()), First().keys[x.id];
      KeysSurvive(x.id);
      EffNodesSnoc(seen, x, First());
      EffNodesSnoc(seen, x, Direct());
      if k in expanded {
        EffNodesSnoc(e, x, Second());
      } else if k !in CollapsedKeys(seen, First()) {
        EffNodesSnoc(e, GroupNode(level, k), Second());
      }
    }

    lemma {:induction false} AgreeOnPrefix(n: nat)
      requires Valid() && n <= |nodes|
      ensures AgreeOn(nodes[..n])
    {
      if n > 0 {
        AgreeOnPrefix(n - 1);
        PrefixSnoc(nodes, n - 1);
        KeyMapDomain(nodes, level, n - 1);
        AgreeOnOneMore(nodes[..n - 1], nodes[n - 1]);
      }
    }

    /** Nodes: collapsing more of an already collapsed graph gives the nodes of collapsing from scratch. */
    lemma NodesCompose()
      requires Valid()
      ensures Covered(Between(), Second()) && Covered(nodes, Direct())
      ensures EffNodes(Between(), Second()) == EffNodes(nodes, Direct())
    {
      AgreeOnPrefix(|nodes|);
      assert nodes[..|nodes|] == nodes;
    }

    // ---- edges ----

    /** The pair the second grouping makes of a pair of the first. */
    ghost predicate Coarse(p: Pair) { p.source in Second().keys && p.target in Second().keys }

    ghost function Coarsen(p: Pair): Pair
      requires Coarse(p)
    {
      Ordered(Second().EffId(p.source), Second().EffId(p.target))
    }

    lemma PairsCompose(e: TopoEdge)
      requires Valid() && First().Keeps(e)
      ensures Direct().Keeps(e) && Coarse(First().PairOf(e))
      ensures Coarsen(First().PairOf(e)) == Direct().PairOf(e)
    {
      EffIdsCompose(e.source);
      EffIdsCompose(e.target);
      OrderedIsSymmetric(Direct().EffId(e.source), Direct().EffId(e.target));
    }

    ghost function Through(sel: Pair -> bool): Pair -> bool
    {
      p => Coarse(p) && sel(Coarsen(p))
    }

    lemma {:induction false} InputSumsCompose(edges: seq<TopoEdge>, sel: Pair -> bool, m: Metric)
      requires Valid()
      ensures EdgeSum(First(), edges, Through(sel), m) == EdgeSum(Direct(), edges, sel, m)
    {
      if edges != [] {
        var e := edges[|edges| - 1];
        InputSumsCompose(edges[..|edges| - 1], sel, m);
        if First().Keeps(e) { PairsCompose(e); }
      }
    }

    lemma ThroughAt(sel: Pair -> bool, p: Pair, e: TopoEdge)
      requires e.source == p.source && e.target == p.target
      ensures Second().Keeps(e) <==> Coarse(p)
      ensures Coarse(p) ==> Second().PairOf(e) == Coarsen(p)
      ensures Through(sel)(p) == (Coarse(p) && sel(Coarsen(p)))
    {}

    /** One more merged edge adds the same on both sides. */
    lemma OutputStep(edges: seq<TopoEdge>, order: seq<Pair>, agg: map<Pair, Agg>, p: Pair, sel: Pair -> bool, m: Metric)
      requires p in agg && forall i :: 0 <= i < |order| ==> order[i] in agg
      requires EdgeSum(Second(), edges, sel, m) == SlotSum(order, agg, Through(sel), m)
      ensures EdgeSum(Second(), edges + [AggEdge(p, agg[p])], sel, m) == SlotSum(order + [p], agg, Through(sel), m)
    {
      var e := AggEdge(p, agg[p]);
      assert (edges + [e])[..|edges|] == edges && (order + [p])[..|order|] == order;
      ThroughAt(sel, p, e);
    }

    lemma {:induction false} OutputSums(s: Slots, n: nat, sel: Pair -> bool, m: Metric)
      requires s.Valid() && n <= |s.order|
      ensures EdgeSum(Second(), EdgesOf(s)[..n], sel, m) == SlotSum(s.order[..n], s.agg, Through(sel), m)
    {
      if n > 0 {
        OutputSums(s, n - 1, sel, m);
        PrefixSnoc(EdgesOf(s), n - 1);
        PrefixSnoc(s.order, n - 1);
        OutputStep(EdgesOf(s)[..n - 1], s.order[..n - 1], s.agg, s.order[n - 1], sel, m);
      }
    }

    /**
     * Edges: for every selection of node pairs, collapsing in two steps carries exactly what
     * collapsing from scratch carries, for each counter metric.
     */
    lemma EdgeTotalsCompose(edges: seq<TopoEdge>, sel: Pair -> bool, m: Metric)
      requires Valid() && IsCounter(m)
      ensures EdgeSum(Second(), GroupedEdges(First(), edges), sel, m) == EdgeSum(Direct(), edges, sel, m)
    {
      var s := MergeEdges(First(), edges);
      MergeEdgesValid(First(), edges);
      OutputSums(s, |s.order|, sel, m);
      assert EdgesOf(s)[..|s.order|] == EdgesOf(s) && s.order[..|s.order|] == s.order;
      MergeConserves(First(), edges, Through(sel), m);
      InputSumsCompose(edges, sel, m);
    }

    /** An edge of a known pair changes neither order. */
    lemma KnownPairStep(s: Slots, e: TopoEdge)
      requires Valid() && First().Keeps(e) && s.Valid() && First().PairOf(e) in s.order
      ensures MergeEdge(s, First(), e).Valid()
      ensures MergeEdges(Second(), EdgesOf(MergeEdge(s, First(), e))).order == MergeEdges(Second(), EdgesOf(s)).order
      ensures Direct().PairOf(e) in MergeEdges(Second(), EdgesOf(s)).order
    {
      var p := First().PairOf(e);
      var i :| 0 <= i < |s.order| && s.order[i] == p;
      PairsCompose(e);
      MergeEdgeValid(s, First(), e);
      SameEndsSameOrder(Second(), EdgesOf(MergeEdge(s, First(), e)), EdgesOf(s));
      PairIsPresent(Second(), EdgesOf(s), i);
    }

    /** An edge of a new pair adds one merged edge, of the same coarse pair. */
    lemma NewPairStep(s: Slots, e: TopoEdge)
      requires Valid() && First().Keeps(e) && s.Valid() && First().PairOf(e) !in s.order
      ensures MergeEdge(s, First(), e).Valid()
      ensures MergeEdges(Second(), EdgesOf(MergeEdge(s, First(), e))).order
           == WithPair(MergeEdges(Second(), EdgesOf(s)).order, Direct().PairOf(e))
    {
      var x := AggEdge(First().PairOf(e), Merge(Fresh(e), e));
      PairsCompose(e);
      MergeEdgeValid(s, First(), e);
      assert EdgesOf(MergeEdge(s, First(), e)) == EdgesOf(s) + [x];
      OrderSnoc(Second(), EdgesOf(s), x);
    }

    /** Adding one input edge keeps the two-step and the one-step pair orders equal. */
    lemma PairOrderStep(before: seq<TopoEdge>, e: TopoEdge)
      requires Valid() && First().Keeps(e)
      requires MergeEdges(Second(), GroupedEdges(First(), before)).order == MergeEdges(Direct(), before).order
      ensures MergeEdges(Second(), GroupedEdges(First(), before + [e])).order
        == MergeEdges(Direct(), before + [e]).order
    {
      var s := MergeEdges(First(), before);
      assert (before + [e])[..|before|] == before;
      MergeEdgesValid(First(), before);
      PairsCompose(e);
      OrderSnoc(Direct(), before, e);
      if First().PairOf(e) in s.order { KnownPairStep(s, e); } else { NewPairStep(s, e); }
    }

    /** Collapsing in two steps gives the merged edges the same ends in the same order. */
    lemma {:induction false} PairOrderComposes(edges: seq<TopoEdge>)
      requires Valid()
      ensures MergeEdges(Second(), GroupedEdges(First(), edges)).order == MergeEdges(Direct(), edges).order
    {
      if edges != [] {
        var before, e := edges[..|edges| - 1], edges[|edges| - 1];
        assert edges == before + [e];
        PairOrderComposes(before);
        if First().Keeps(e) { PairOrderStep(before, e); }
      }
    }

    lemma CounterComposes(edges: seq<TopoEdge>, i: nat, m: Metric)
      requires Valid() && IsCounter(m)
      requires var two, one := MergeEdges(Second(), GroupedEdges(First(), edges)), MergeEdges(Direct(), edges);
        two.Valid() && one.Valid() && two.order == one.order && i < |one.order|
      ensures var two, one := MergeEdges(Second(), GroupedEdges(First(), edges)), MergeEdges(Direct(), edges);
        Of(AggMetrics(two.agg[two.order[i]]), m) == Of(AggMetrics(one.agg[one.order[i]]), m)
    {
      SlotIsSum(Second(), GroupedEdges(First(), edges), i, m);
      SlotIsSum(Direct(), edges, i, m);
      EdgeTotalsCompose(edges, Only(MergeEdges(Direct(), edges).order[i]), m);
    }

    /** Collapsing in two steps gives, edge by edge, the ends and counters of collapsing from scratch. */
    lemma EdgesCompose(edges: seq<TopoEdge>, i: nat, m: Metric)
      requires Valid() && IsCounter(m) && i < |GroupedEdges(Direct(), edges)|
      ensures var two, one := GroupedEdges(Second(), GroupedEdges(First(), edges)), GroupedEdges(Direct(), edges);
        && |two| == |one| && two[i].source == one[i].source && two[i].target == one[i].target
        && Of(two[i].metrics, m) == Of(one[i].metrics, m)
    {
      var two, one := MergeEdges(Second(), GroupedEdges(First(), edges)), MergeEdges(Direct(), edges);
      MergeEdgesValid(Second(), GroupedEdges(First(), edges));
      MergeEdgesValid(Direct(), edges);
      PairOrderComposes(edges);
      CounterComposes(edges, i, m);
    }
  }

  function WithPair(order: seq<Pair>, p: Pair): seq<Pair> { if p in order then order else order + [p] }

  lemma OrderSnoc(g: Grouping, before: seq<TopoEdge>, e: TopoEdge)
    ensures MergeEdges(g, before + [e]).order
      == if g.Keeps(e) then WithPair(MergeEdges(g, before).order, g.PairOf(e)) else MergeEdges(g, before).order
  {
    assert (before + [e])[..|before|] == before;
    MergeEdgesValid(g, before);
    if g.Keeps(e) {
      assert g.PairOf(e) in MergeEdges(g, before).agg <==> g.PairOf(e) in MergeEdges(g, before).order;
    }
  }

  function Only(p: Pair): Pair -> bool { q => q == p }

  lemma {:induction false} SumOfOthers(order: seq<Pair>, agg: map<Pair, Agg>, p: Pair, m: Metric)
    requires p !in order && forall i :: 0 <= i < |order| ==> order[i] in agg
    ensures SlotSum(order, agg, Only(p), m) == 0.0
  {
    if order != [] { SumOfOthers(order[..|order| - 1], agg, p, m); }
  }

  /** The sum over one pair is what its merged edge carries. */
  lemma {:induction false} SumOfOne(order: seq<Pair>, agg: map<Pair, Agg>, i: nat, m: Metric)
    requires Distinct(order) && i < |order| && forall j :: 0 <= j < |order| ==> order[j] in agg
    ensures SlotSum(order, agg, Only(order[i]), m) == Of(AggMetrics(agg[order[i]]), m)
  {
    var n := |order| - 1;
    if i == n {
      DistinctPrefix(order, n);
      SumOfOthers(order[..n], agg, order[n], m);
    } else {
      SumOfOne(order[..n], agg, i, m);
    }
  }

  /** A merged edge carries what the input edges of its pair carry. */
  lemma SlotIsSum(g: Grouping, edges: seq<TopoEdge>, i: nat, m: Metric)
    requires MergeEdges(g, edges).Valid() && i < |MergeEdges(g, edges).order| && IsCounter(m)
    ensures var s := MergeEdges(g, edges);
      Of(AggMetrics(s.agg[s.order[i]]), m) == EdgeSum(g, edges, Only(s.order[i]), m)
  {
    var s := MergeEdges(g, edges);
    MergeConserves(g, edges, Only(s.order[i]), m);
    SumOfOne(s.order, s.agg, i, m);
  }

  ghost predicate SameEnds(xs: seq<TopoEdge>, ys: seq<TopoEdge>)
  {
    |xs| == |ys| && forall i :: 0 <= i < |xs| ==> xs[i].source == ys[i].source && xs[i].target == ys[i].target
  }

  lemma {:induction false} SameEndsSameOrder(g: Grouping, xs: seq<TopoEdge>, ys: seq<TopoEdge>)
    requires SameEnds(xs, ys)
    ensures MergeEdges(g, xs).order == MergeEdges(g, ys).order
  {
    if xs != [] {
      var n := |xs| - 1;
      SameEndsSameOrder(g, xs[..n], ys[..n]);
      MergeEdgesValid(g, xs[..n]);
      MergeEdgesValid(g, ys[..n]);
      if g.Keeps(xs[n]) {
        assert g.PairOf(xs[n]) in MergeEdges(g, xs[..n]).agg <==> g.PairOf(xs[n]) in MergeEdges(g, ys[..n]).agg;
      }
    }
  }

  lemma {:induction false} PairIsPresent(g: Grouping, edges: seq<TopoEdge>, i: nat)
    requires i < |edges| && g.Keeps(edges[i])
    ensures g.PairOf(edges[i]) in MergeEdges(g, edges).order
  {
    var n := |edges| - 1;
    MergeEdgesValid(g, edges[..n]);
    if i < n {
      PairIsPresent(g, edges[..n], i);
    } else {
      var p, s := g.PairOf(edges[n]), MergeEdges(g, edges[..n]);
      assert p in s.agg <==> p in s.order;
    }
  }

  // ---- the method -----------------------------------------------------------------------------------

  datatype GroupMeta = GroupMeta(key: string, memberCount: nat, expanded: bool)

  datatype GroupingResult = GroupingResult(nodes: seq<TopoNode>, edges: seq<TopoEdge>, meta: map<NodeId, GroupMeta>)

  function MemberCount(nodes: seq<TopoNode>, level: Level, key: string): nat
  {
    if nodes == [] then 0
    else MemberCount(nodes[..|nodes| - 1], level, key)
         + if GroupKeyOf(nodes[|nodes| - 1], level) == key then 1 else 0
  }

  /** Exactly the collapsed groups have metadata, with the number of their members. */
  ghost predicate MetaOf(meta: map<NodeId, GroupMeta>, collapsed: set<string>, level: Level, counted: seq<TopoNode>)
  {
    && (forall key :: key in collapsed ==>
          (GroupNodeId(level, key) in meta
           && meta[GroupNodeId(level, key)] == GroupMeta(key, MemberCount(counted, level, key), false)))
    && forall id :: id in meta ==> exists key :: key in collapsed && id == GroupNodeId(level, key)
  }

  lemma MetaOfOneMore(
      meta: map<NodeId, GroupMeta>, collapsed: set<string>, level: Level, counted: seq<TopoNode>, key: string)
    requires MetaOf(meta, collapsed, level, counted)
    ensures MetaOf(meta[GroupNodeId(level, key) := GroupMeta(key, MemberCount(counted, level, key), false)],
                   collapsed + {key}, level, counted)
  {
    var more := meta[GroupNodeId(level, key) := GroupMeta(key, MemberCount(counted, level, key), false)];
    forall k | k in collapsed + {key}
      ensures GroupNodeId(level, k) in more
        && more[GroupNodeId(level, k)] == GroupMeta(k, MemberCount(counted, level, k), false)
    {
      if GroupNodeId(level, k) == GroupNodeId(level, key) { GroupNodeIdInjective(level, k, key); }
    }
    forall id | id in more ensures exists k :: k in collapsed + {key} && id == GroupNodeId(level, k) {
      if id in meta {
        var k :| k in collapsed && id == GroupNodeId(level, k);
        assert k in collapsed + {key};
      } else {
        assert key in collapsed + {key};
      }
    }
  }

  /** The first node loop: the key map and the member counts. */
  method KeysAndCounts(kept: seq<TopoNode>, level: Level)
    returns (keyByNode: map<NodeId, string>, memberCount: map<string, nat>)
    ensures keyByNode == KeyMap(kept, level)
    ensures forall key :: (if key in memberCount then memberCount[key] else 0) == MemberCount(kept, level, key)
  {
    keyByNode, memberCount := map[], map[];
    for i := 0 to |kept|
      invariant keyByNode == KeyMap(kept[..i], level)
      invariant forall key :: (if key in memberCount then memberCount[key] else 0) == MemberCount(kept[..i], level, key)
    {
      assert kept[..i + 1][..i] == kept[..i];
      var key := GroupKeyOf(kept[i], level);
      keyByNode := keyByNode[kept[i].id := key];
      memberCount := memberCount[key := (if key in memberCount then memberCount[key] else 0) + 1];
    }
    assert kept[..|kept|] == kept;
  }

  /** The second node loop: the effective nodes and the metadata of the collapsed groups. */
  method CollapseNodes(kept: seq<TopoNode>, g: Grouping, memberCount: map<string, nat>)
    returns (nodes: seq<TopoNode>, meta: map<NodeId, GroupMeta>)
    requires Covered(kept, g)
    requires forall key :: (if key in memberCount then memberCount[key] else 0) == MemberCount(kept, g.level, key)
    ensures nodes == EffNodes(kept, g)
    ensures MetaOf(meta, CollapsedKeys(kept, g), g.level, kept)
  {
    var emitted: set<NodeId> := {};
    nodes, meta := [], map[];
    for i := 0 to |kept|
      invariant Covered(kept[..i], g) && nodes == EffNodes(kept[..i], g)
      invariant forall key :: GroupNodeId(g.level, key) in emitted <==> key in CollapsedKeys(kept[..i], g)
      invariant MetaOf(meta, CollapsedKeys(kept[..i], g), g.level, kept)
    {
      PrefixSnoc(kept, i);
      EffNodesSnoc(kept[..i], kept[i], g);
      var key := g.keys[kept[i].id];
      if key in g.expanded {
        nodes := nodes + [kept[i]];
        continue;
      }
      var gid := GroupNodeId(g.level, key);
      if gid in emitted {
        assert CollapsedKeys(kept[..i + 1], g) == CollapsedKeys(kept[..i], g);
        continue;
      }
      emitted := emitted + {gid};
      nodes := nodes + [GroupNode(g.level, key)];
      MetaOfOneMore(meta, CollapsedKeys(kept[..i], g), g.level, kept, key);
      meta := meta[gid := GroupMeta(key, if key in memberCount then memberCount[key] else 0, false)];
      forall k | GroupNodeId(g.level, k) == gid ensures k == key { GroupNodeIdInjective(g.level, k, key); }
    }
    assert kept[..|kept|] == kept;
  }

  method ApplyGrouping(kept: seq<TopoNode>, edges: seq<TopoEdge>, level: Level, expanded: set<string>)
    returns (r: GroupingResult)
    ensures var g := GroupingOf(kept, level, expanded);
      && Covered(kept, g) && r.nodes == EffNodes(kept, g)
      && r.edges == GroupedEdges(g, edges)
      && MetaOf(r.meta, CollapsedKeys(kept, g), level, kept)
  {
    var keyByNode, memberCount := KeysAndCounts(kept, level);
    var g := Grouping(level, keyByNode, expanded);
    GroupingCovers(kept, level, expanded);
    var nodes, meta := CollapseNodes(kept, g, memberCount);
    var order: seq<Pair>, acc: map<Pair, Agg> := [], map[];
    for i := 0 to |edges|
      invariant Slots(order, acc) == MergeEdges(g, edges[..i])
    {
      var e := edges[i];
      assert edges[..i + 1][..i] == edges[..i];
      if e.source !in g.keys || e.target !in g.keys { continue; }
      var p := Ordered(g.EffId(e.source), g.EffId(e.target));
      if p !in acc {
        acc := acc[p := Fresh(e)];
        order := order + [p];
      }
      acc := acc[p := Merge(acc[p], e)];
    }
    assert edges[..|edges|] == edges;
    MergeEdgesValid(g, edges);
    var outEdges := [];
    for i := 0 to |order|
      invariant outEdges == EdgesOf(Slots(order, acc))[..i]
    {
      assert order[i] in acc;
      outEdges := outEdges + [AggEdge(order[i], acc[order[i]])];
    }
    r := GroupingResult(nodes, outEdges, meta);
  }

  // ---- what grouping shows, in terms of the nodes and edges it was given ------------------------------

  /** A node's field at the level, or "unknown"; of nodes with the same id the last one decides. */
  lemma {:induction false} KeyIsField(nodes: seq<TopoNode>, level: Level, i: nat)
    requires i < |nodes| && forall j :: i < j < |nodes| ==> nodes[j].id != nodes[i].id
    ensures nodes[i].id in KeyMap(nodes, level)
    ensures var field := if level.Namespace? then nodes[i].namespace else if level.Az? then nodes[i].az
                         else nodes[i].cluster;
      KeyMap(nodes, level)[nodes[i].id] == if field.Some? then field.value else "unknown"
  {
    if i < |nodes| - 1 { KeyIsField(nodes[..|nodes| - 1], level, i); }
  }

  /** An effective node is the node itself, or stands for its collapsed group. */
  ghost predicate StandsFor(x: TopoNode, n: TopoNode, g: Grouping)
    requires n.id in g.keys
  {
    var key := g.keys[n.id];
    if key in g.expanded then x == n
    else
      && x.kind == "node" && x.text == key
      && match g.level
         case Namespace => x.id == "group:namespace:" + key && (x.namespace, x.az, x.cluster) == (Some(key), None, None)
         case Az => x.id == "group:az:" + key && (x.namespace, x.az, x.cluster) == (None, Some(key), None)
         case Cluster => x.id == "group:cluster:" + key && (x.namespace, x.az, x.cluster) == (None, None, Some(key))
  }

  /** Node j is of an expanded group, or the first of a collapsed one. */
  ghost predicate Appears(nodes: seq<TopoNode>, g: Grouping, j: nat)
    requires Covered(nodes, g)
  {
    j < |nodes| && (g.keys[nodes[j].id] in g.expanded
                    || forall i :: 0 <= i < j ==> g.keys[nodes[i].id] != g.keys[nodes[j].id])
  }

  lemma {:induction false} CollapsedKeysAre(nodes: seq<TopoNode>, g: Grouping, key: string)
    requires Covered(nodes, g)
    ensures key in CollapsedKeys(nodes, g) <==>
      key !in g.expanded && exists i :: 0 <= i < |nodes| && g.keys[nodes[i].id] == key
  {
    if nodes != [] {
      var before, n := nodes[..|nodes| - 1], nodes[|nodes| - 1];
      CollapsedKeysAre(before, g, key);
      if i :| 0 <= i < |nodes| && g.keys[nodes[i].id] == key {
        assert i < |before| ==> before[i] == nodes[i];
      }
    }
  }

  lemma LastAppears(nodes: seq<TopoNode>, g: Grouping, n: nat)
    requires |nodes| == n + 1 && Covered(nodes, g)
    ensures Appears(nodes, g, n) <==>
      g.keys[nodes[n].id] in g.expanded || g.keys[nodes[n].id] !in CollapsedKeys(nodes[..n], g)
  {
    CollapsedKeysAre(nodes[..n], g, g.keys[nodes[n].id]);
    assert forall i :: 0 <= i < n ==> nodes[..n][i] == nodes[i];
  }

  lemma EarlierAppears(nodes: seq<TopoNode>, g: Grouping, n: nat, j: nat)
    requires j < n <= |nodes| && Covered(nodes, g)
    ensures Appears(nodes, g, j) <==> Appears(nodes[..n], g, j)
  {
    assert forall i :: 0 <= i < n ==> nodes[..n][i] == nodes[i];
  }

  lemma GroupNodeStandsFor(n: TopoNode, g: Grouping)
    requires n.id in g.keys && g.keys[n.id] !in g.expanded
    ensures StandsFor(GroupNode(g.level, g.keys[n.id]), n, g)
  {}

  /** The effective nodes, in order: each expanded member, and each collapsed group at its first member. */
  lemma {:induction false} EffNodesAppear(nodes: seq<TopoNode>, g: Grouping, p: nat -> bool) returns (at: seq<nat>)
    requires Covered(nodes, g) && forall j: nat :: j < |nodes| ==> (p(j) <==> Appears(nodes, g, j))
    ensures Picks(at, |nodes|, p) && |at| == |EffNodes(nodes, g)|
    ensures forall i :: 0 <= i < |at| ==> at[i] < |nodes| && StandsFor(EffNodes(nodes, g)[i], nodes[at[i]], g)
  {
    at := [];
    if nodes != [] {
      var n := |nodes| - 1;
      assert nodes == nodes[..n] + [nodes[n]];
      EffNodesSnoc(nodes[..n], nodes[n], g);
      LastAppears(nodes, g, n);
      forall j: nat | j < n ensures p(j) <==> Appears(nodes[..n], g, j) { EarlierAppears(nodes, g, n, j); }
      at := EffNodesAppear(nodes[..n], g, p);
      if g.keys[nodes[n].id] !in g.expanded { GroupNodeStandsFor(nodes[n], g); }
      at := PicksSnoc(at, n, p);
    }
  }

  /** The member count of a group is the number of nodes with its key. */
  lemma {:induction false} MembersAre(nodes: seq<TopoNode>, level: Level, key: string, p: nat -> bool)
    returns (at: seq<nat>)
    requires forall j: nat :: j < |nodes| ==> (p(j) <==> GroupKeyOf(nodes[j], level) == key)
    ensures Picks(at, |nodes|, p) && |at| == MemberCount(nodes, level, key)
  {
    at := [];
    if nodes != [] {
      var n := |nodes| - 1;
      at := MembersAre(nodes[..n], level, key, p);
      at := PicksSnoc(at, n, p);
    }
  }

  /** Edge j is kept and the first of its pair. */
  ghost predicate OpensPair(g: Grouping, edges: seq<TopoEdge>, j: nat)
  {
    j < |edges| && g.Keeps(edges[j]) && forall i :: 0 <= i < j ==> !Constituent(g, edges, g.PairOf(edges[j]), i)
  }

  /** One merged edge for each pair of ends, in the order of the first edges of the pairs. */
  lemma {:induction false} PairsInOrder(g: Grouping, edges: seq<TopoEdge>, p: nat -> bool) returns (at: seq<nat>)
    requires forall j: nat :: j < |edges| ==> (p(j) <==> OpensPair(g, edges, j))
    ensures Picks(at, |edges|, p) && PairsFrom(MergeEdges(g, edges).order, g, edges, at)
  {
    at := [];
    if edges != [] {
      var n := |edges| - 1;
      assert edges == edges[..n] + [edges[n]];
      forall j: nat | j < n ensures p(j) <==> OpensPair(g, edges[..n], j) { EarlierOpens(g, edges, n, j); }
      at := PairsInOrder(g, edges[..n], p);
      assert PairsFrom(MergeEdges(g, edges[..n]).order, g, edges, at) by {
        forall i | 0 <= i < |at| ensures edges[..n][at[i]] == edges[at[i]] {}
      }
      LastOpens(g, edges, n);
      OrderSnoc(g, edges[..n], edges[n]);
      at := PairsStep(at, g, edges, n, p, MergeEdges(g, edges[..n]).order, MergeEdges(g, edges).order);
    }
  }

  lemma PairsStep(at: seq<nat>, g: Grouping, edges: seq<TopoEdge>, n: nat, p: nat -> bool,
                  before: seq<Pair>, after: seq<Pair>) returns (more: seq<nat>)
    requires n < |edges| && Picks(at, n, p) && PairsFrom(before, g, edges, at)
    requires p(n) ==> g.Keeps(edges[n]) && after == before + [g.PairOf(edges[n])]
    requires !p(n) ==> after == before
    ensures Picks(more, n + 1, p) && PairsFrom(after, g, edges, more)
  {
    more := PicksSnoc(at, n, p);
  }

  ghost predicate PairsFrom(order: seq<Pair>, g: Grouping, edges: seq<TopoEdge>, at: seq<nat>)
  {
    |order| == |at| && forall i :: 0 <= i < |at| ==>
      at[i] < |edges| && g.Keeps(edges[at[i]]) && order[i] == g.PairOf(edges[at[i]])
  }

  lemma EarlierOpens(g: Grouping, edges: seq<TopoEdge>, n: nat, j: nat)
    requires j < n <= |edges|
    ensures OpensPair(g, edges, j) <==> OpensPair(g, edges[..n], j)
  {
    if g.Keeps(edges[j]) { EarlierConstituents(g, edges, n, g.PairOf(edges[j]), j); }
  }

  lemma LastOpens(g: Grouping, edges: seq<TopoEdge>, n: nat)
    requires |edges| == n + 1
    ensures OpensPair(g, edges, n) <==>
      g.Keeps(edges[n]) && g.PairOf(edges[n]) !in MergeEdges(g, edges[..n]).order
  {
    if g.Keeps(edges[n]) {
      var p, s := g.PairOf(edges[n]), MergeEdges(g, edges[..n]);
      MergeEdgesValid(g, edges[..n]);
      assert p in s.agg <==> p in s.order;
      EarlierConstituents(g, edges, n, p, n);
      PairOpens(g, edges[..n], p);
      assert (exists i :: Constituent(g, edges[..n], p, i)) <==>
        exists i :: 0 <= i < n && Constituent(g, edges[..n], p, i);
    }
  }

  lemma EarlierConstituents(g: Grouping, edges: seq<TopoEdge>, n: nat, p: Pair, j: nat)
    requires j <= n <= |edges|
    ensures (forall i :: 0 <= i < j ==> !Constituent(g, edges, p, i))
       <==> (forall i :: 0 <= i < j ==> !Constituent(g, edges[..n], p, i))
  {
    assert forall i :: 0 <= i < j ==> (Constituent(g, edges, p, i) <==> Constituent(g, edges[..n], p, i));
  }

  /** A pair has a merged edge exactly when some edge belongs to it. */
  lemma {:induction false} PairOpens(g: Grouping, edges: seq<TopoEdge>, p: Pair)
    ensures p in MergeEdges(g, edges).agg <==> exists i :: Constituent(g, edges, p, i)
  {
    if edges != [] {
      var before, e := edges[..|edges| - 1], edges[|edges| - 1];
      assert edges == before + [e];
      PairOpens(g, before, p);
      if i :| Constituent(g, before, p, i) { ConstituentsSnoc(g, before, e, p, i); }
      if i :| Constituent(g, edges, p, i) { ConstituentsSnoc(g, before, e, p, i); }
      ConstituentsSnoc(g, before, e, p, |before|);
    }
  }

  /** Edge j, where it belongs to the pair and carries a round-trip time. */
  ghost predicate CarriesRtt(g: Grouping, edges: seq<TopoEdge>, p: Pair, j: int)
  {
    Constituent(g, edges, p, j) && RoundTripTime in edges[j].metrics
  }

  ghost function BytesAt(g: Grouping, edges: seq<TopoEdge>, p: Pair): nat -> real
  {
    (j: nat) => if CarriesRtt(g, edges, p, j) then Of(edges[j].metrics, DataTransferred) else 0.0
  }

  ghost function RttTimesBytesAt(g: Grouping, edges: seq<TopoEdge>, p: Pair): nat -> real
  {
    (j: nat) =>
      if CarriesRtt(g, edges, p, j) then edges[j].metrics[RoundTripTime] * Of(edges[j].metrics, DataTransferred)
      else 0.0
  }

  ghost function RttAt(g: Grouping, edges: seq<TopoEdge>, p: Pair): nat -> real
  {
    (j: nat) => if CarriesRtt(g, edges, p, j) then edges[j].metrics[RoundTripTime] else 0.0
  }

  ghost function OneAt(g: Grouping, edges: seq<TopoEdge>, p: Pair): nat -> real
  {
    (j: nat) => if CarriesRtt(g, edges, p, j) then 1.0 else 0.0
  }

  /** The slot of a pair after n edges, empty before its first. */
  ghost function SlotAfter(g: Grouping, edges: seq<TopoEdge>, p: Pair, n: nat): Agg
  {
    var s := MergeEdges(g, if n <= |edges| then edges[..n] else edges);
    if p in s.agg then s.agg[p] else Agg(0.0, 0.0, 0.0, 0.0, 0.0, 0.0, 0, "", None)
  }

  lemma SlotStep(g: Grouping, edges: seq<TopoEdge>, p: Pair, n: nat)
    requires n < |edges|
    ensures SlotAfter(g, edges, p, n + 1).rttWeightBytes
         == SlotAfter(g, edges, p, n).rttWeightBytes + BytesAt(g, edges, p)(n)
    ensures SlotAfter(g, edges, p, n + 1).rttWeighted
         == SlotAfter(g, edges, p, n).rttWeighted + RttTimesBytesAt(g, edges, p)(n)
    ensures SlotAfter(g, edges, p, n + 1).rttSum == SlotAfter(g, edges, p, n).rttSum + RttAt(g, edges, p)(n)
    ensures SlotAfter(g, edges, p, n + 1).rttCount as real
         == SlotAfter(g, edges, p, n).rttCount as real + OneAt(g, edges, p)(n)
  {
    assert edges[..n + 1][..n] == edges[..n];
  }

  /** A field of the slot that grows by w with every edge ends as the sum of w. */
  lemma FieldSums(g: Grouping, edges: seq<TopoEdge>, p: Pair, field: Agg -> real, w: nat -> real)
    requires p in MergeEdges(g, edges).agg && field(SlotAfter(g, edges, p, 0)) == 0.0
    requires forall i: nat :: i < |edges| ==>
      field(SlotAfter(g, edges, p, i + 1)) == field(SlotAfter(g, edges, p, i)) + w(i)
    ensures field(MergeEdges(g, edges).agg[p]) == SumBelow(|edges|, w)
  {
    GrowsBy(|edges|, (i: nat) => field(SlotAfter(g, edges, p, i)), w);
    assert edges[..|edges|] == edges;
  }

  lemma BytesSum(g: Grouping, edges: seq<TopoEdge>, p: Pair)
    requires p in MergeEdges(g, edges).agg
    ensures MergeEdges(g, edges).agg[p].rttWeightBytes == SumBelow(|edges|, BytesAt(g, edges, p))
  {
    var field := (a: Agg) => a.rttWeightBytes;
    forall i: nat | i < |edges|
      ensures field(SlotAfter(g, edges, p, i + 1)) == field(SlotAfter(g, edges, p, i)) + BytesAt(g, edges, p)(i)
    {
      SlotStep(g, edges, p, i);
    }
    FieldSums(g, edges, p, field, BytesAt(g, edges, p));
  }

  lemma RttTimesBytesSum(g: Grouping, edges: seq<TopoEdge>, p: Pair)
    requires p in MergeEdges(g, edges).agg
    ensures MergeEdges(g, edges).agg[p].rttWeighted == SumBelow(|edges|, RttTimesBytesAt(g, edges, p))
  {
    var field := (a: Agg) => a.rttWeighted;
    forall i: nat | i < |edges|
      ensures field(SlotAfter(g, edges, p, i + 1)) == field(SlotAfter(g, edges, p, i)) + RttTimesBytesAt(g, edges, p)(i)
    {
      SlotStep(g, edges, p, i);
    }
    FieldSums(g, edges, p, field, RttTimesBytesAt(g, edges, p));
  }

  lemma RttSum(g: Grouping, edges: seq<TopoEdge>, p: Pair)
    requires p in MergeEdges(g, edges).agg
    ensures MergeEdges(g, edges).agg[p].rttSum == SumBelow(|edges|, RttAt(g, edges, p))
  {
    var field := (a: Agg) => a.rttSum;
    forall i: nat | i < |edges|
      ensures field(SlotAfter(g, edges, p, i + 1)) == field(SlotAfter(g, edges, p, i)) + RttAt(g, edges, p)(i)
    {
      SlotStep(g, edges, p, i);
    }
    FieldSums(g, edges, p, field, RttAt(g, edges, p));
  }

  lemma RttCount(g: Grouping, edges: seq<TopoEdge>, p: Pair)
    requires p in MergeEdges(g, edges).agg
    ensures MergeEdges(g, edges).agg[p].rttCount as real == SumBelow(|edges|, OneAt(g, edges, p))
  {
    var field := (a: Agg) => a.rttCount as real;
    forall i: nat | i < |edges|
      ensures field(SlotAfter(g, edges, p, i + 1)) == field(SlotAfter(g, edges, p, i)) + OneAt(g, edges, p)(i)
    {
      SlotStep(g, edges, p, i);
    }
    FieldSums(g, edges, p, field, OneAt(g, edges, p));
  }

  lemma {:induction false} SomeCarries(g: Grouping, edges: seq<TopoEdge>, p: Pair, n: nat)
    ensures SumBelow(n, OneAt(g, edges, p)) >= 0.0
    ensures SumBelow(n, OneAt(g, edges, p)) > 0.0 <==> exists j :: 0 <= j < n && CarriesRtt(g, edges, p, j)
  {
    if n > 0 { SomeCarries(g, edges, p, n - 1); }
  }

  lemma QuotientTimes(x: real, w: real)
    requires w > 0.0
    ensures x / w * w == x
  {}

  lemma RttIsQuotient(a: Agg, one: real, bytes: real, weighted: real, sum: real)
    requires a.rttCount as real == one && a.rttWeightBytes == bytes && a.rttWeighted == weighted && a.rttSum == sum
    ensures RttOf(a).Some? ==> one > 0.0
    ensures RttOf(a).Some? ==> if bytes > 0.0 then RttOf(a).value * bytes == weighted else RttOf(a).value * one == sum
  {
    if bytes > 0.0 { QuotientTimes(weighted, bytes); }
    if one > 0.0 { QuotientTimes(sum, one); }
  }

  /** A merged edge shows a round-trip time exactly when some edge of its pair carries one. */
  lemma MergedRttExists(g: Grouping, edges: seq<TopoEdge>, p: Pair)
    requires p in MergeEdges(g, edges).agg
    ensures RttOf(MergeEdges(g, edges).agg[p]).Some? <==> exists j :: 0 <= j < |edges| && CarriesRtt(g, edges, p, j)
  {
    RttCount(g, edges, p);
    SomeCarries(g, edges, p, |edges|);
  }

  /** What the edges of a pair that carry a round-trip time add up to. */
  ghost predicate RttTotals(
      g: Grouping, edges: seq<TopoEdge>, p: Pair, one: real, bytes: real, weighted: real, sum: real)
  {
    && one == SumBelow(|edges|, OneAt(g, edges, p)) && bytes == SumBelow(|edges|, BytesAt(g, edges, p))
    && weighted == SumBelow(|edges|, RttTimesBytesAt(g, edges, p)) && sum == SumBelow(|edges|, RttAt(g, edges, p))
  }

  lemma SlotHoldsTotals(g: Grouping, edges: seq<TopoEdge>, p: Pair, a: Agg,
                        one: real, bytes: real, weighted: real, sum: real)
    requires p in MergeEdges(g, edges).agg && a == MergeEdges(g, edges).agg[p]
    requires RttTotals(g, edges, p, one, bytes, weighted, sum)
    ensures a.rttCount as real == one && a.rttWeightBytes == bytes && a.rttWeighted == weighted && a.rttSum == sum
  {
    RttCount(g, edges, p);
    BytesSum(g, edges, p);
    RttTimesBytesSum(g, edges, p);
    RttSum(g, edges, p);
  }

  /** Its value is their mean weighted by the bytes of those edges, or the plain mean when these carry no bytes. */
  lemma MergedRttIsMean(g: Grouping, edges: seq<TopoEdge>, p: Pair,
                        one: real, bytes: real, weighted: real, sum: real)
    requires p in MergeEdges(g, edges).agg && RttOf(MergeEdges(g, edges).agg[p]).Some?
    requires RttTotals(g, edges, p, one, bytes, weighted, sum)
    ensures var rtt := RttOf(MergeEdges(g, edges).agg[p]).value;
      if bytes > 0.0 then rtt * bytes == weighted else one > 0.0 && rtt * one == sum
  {
    var a := MergeEdges(g, edges).agg[p];
    SlotHoldsTotals(g, edges, p, a, one, bytes, weighted, sum);
    RttIsQuotient(a, one, bytes, weighted, sum);
  }
}
