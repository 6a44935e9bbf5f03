/** The de-duplication of a cycle's edges (`dedupeEdges` in collector/src/normalize.ts). */
module Dedupe {
  import opened Collections
  import opened FlowTypes

  datatype RowKey = RowKey(bucket: int, edge: EdgeKey)

  function RowKeyOf(e: FlowEdge): RowKey { RowKey(e.bucket, e.key) }

  /** Row x is the first of the largest rows under its key. */
  ghost predicate FirstLargest(edges: seq<FlowEdge>, x: int)
  {
    && 0 <= x < |edges|
    && forall y :: 0 <= y < |edges| && RowKeyOf(edges[y]) == RowKeyOf(edges[x]) ==>
         edges[y].value < edges[x].value || (edges[y].value == edges[x].value && x <= y)
  }

  /** The keys in order of first appearance. */
  function FirstKeys(edges: seq<FlowEdge>): seq<RowKey>
  {
    if edges == [] then []
    else
      var keys, k := FirstKeys(edges[..|edges| - 1]), RowKeyOf(edges[|edges| - 1]);
      if k in keys then keys else keys + [k]
  }

  /** One row per key, in order of first appearance, each the first of the largest. */
  ghost predicate IsDeduped(edges: seq<FlowEdge>, out: seq<FlowEdge>)
  {
    && |out| == |FirstKeys(edges)|
    && forall i :: 0 <= i < |out| ==> RowKeyOf(out[i]) == FirstKeys(edges)[i] && IsFirstLargest(edges, out[i])
  }

  ghost predicate IsFirstLargest(edges: seq<FlowEdge>, e: FlowEdge)
  {
    exists x :: FirstLargest(edges, x) && edges[x] == e
  }

  lemma {:induction false} FirstKeysMembers(edges: seq<FlowEdge>, k: RowKey)
    ensures Distinct(FirstKeys(edges))
    ensures k in FirstKeys(edges) <==> exists y :: 0 <= y < |edges| && RowKeyOf(edges[y]) == k
  {
    if edges != [] {
      var n := |edges| - 1;
      FirstKeysMembers(edges[..n], k);
      if k in FirstKeys(edges[..n]) {
        var y :| 0 <= y < n && RowKeyOf(edges[..n][y]) == k;
        assert RowKeyOf(edges[y]) == k;
      }
      if y :| 0 <= y < |edges| && RowKeyOf(edges[y]) == k {
        if y < n { assert RowKeyOf(edges[..n][y]) == k; }
      }
    }
  }

  /** The map of best rows after `edges`. */
  ghost predicate BestOf(best: map<RowKey, FlowEdge>, edges: seq<FlowEdge>)
  {
    && (forall k :: k in best <==> k in FirstKeys(edges))
    && forall k :: k in best ==> RowKeyOf(best[k]) == k && IsFirstLargest(edges, best[k])
  }

  function Better(best: map<RowKey, FlowEdge>, e: FlowEdge): map<RowKey, FlowEdge>
  {
    var k := RowKeyOf(e);
    if k !in best || e.value > best[k].value then best[k := e] else best
  }

  lemma BestOfOneMore(best: map<RowKey, FlowEdge>, edges: seq<FlowEdge>, e: FlowEdge)
    requires BestOf(best, edges)
    ensures BestOf(Better(best, e), edges + [e])
  {
    var all, after, k := edges + [e], Better(best, e), RowKeyOf(e);
    assert all[..|edges|] == edges;
    forall j ensures j in after <==> j in FirstKeys(all) { assert j in best <==> j in FirstKeys(edges); }
    forall j | j in after ensures RowKeyOf(after[j]) == j && IsFirstLargest(all, after[j]) {
      if j != k {
        OtherKey(edges, e, after[j]);
      } else if k in best {
        SameKey(edges, e, best[k]);
      } else {
        FirstKeysMembers(edges, k);
        assert FirstLargest(all, |edges|);
      }
    }
  }

  lemma OtherKey(edges: seq<FlowEdge>, e: FlowEdge, top: FlowEdge)
    requires IsFirstLargest(edges, top) && RowKeyOf(top) != RowKeyOf(e)
    ensures IsFirstLargest(edges + [e], top)
  {
    var x :| FirstLargest(edges, x) && edges[x] == top;
    assert FirstLargest(edges + [e], x);
  }

  lemma SameKey(edges: seq<FlowEdge>, e: FlowEdge, top: FlowEdge)
    requires IsFirstLargest(edges, top) && RowKeyOf(top) == RowKeyOf(e)
    ensures IsFirstLargest(edges + [e], if e.value > top.value then e else top)
  {
    var x :| FirstLargest(edges, x) && edges[x] == top;
    assert FirstLargest(edges + [e], if e.value > top.value then |edges| else x);
  }

  method DedupeEdges(edges: seq<FlowEdge>) returns (out: seq<FlowEdge>)
    ensures IsDeduped(edges, out)
  {
    var order: seq<RowKey>, best: map<RowKey, FlowEdge> := [], map[];
    for i := 0 to |edges|
      invariant order == FirstKeys(edges[..i]) && BestOf(best, edges[..i])
    {
      PrefixSnoc(edges, i);
      assert edges[..i + 1][..i] == edges[..i];
      BestOfOneMore(best, edges[..i], edges[i]);
      var e, k := edges[i], RowKeyOf(edges[i]);
      if k !in best { order := order + [k]; }
      if k !in best || e.value > best[k].value { best := best[k := e]; }
    }
    assert edges[..|edges|] == edges;
    out := BestRows(edges, order, best);
  }

  /** The best rows, in the order of their keys. */
  method BestRows(ghost edges: seq<FlowEdge>, order: seq<RowKey>, best: map<RowKey, FlowEdge>)
    returns (out: seq<FlowEdge>)
    requires order == FirstKeys(edges) && BestOf(best, edges)
    ensures IsDeduped(edges, out)
  {
    out := [];
    for i := 0 to |order|
      invariant |out| == i
      invariant forall j :: 0 <= j < i ==> RowKeyOf(out[j]) == order[j] && IsFirstLargest(edges, out[j])
    {
      assert order[i] in order;
      out := out + [best[order[i]]];
    }
  }

  lemma LargestBounds(edges: seq<FlowEdge>, top: FlowEdge, e: FlowEdge)
    requires IsFirstLargest(edges, top) && e in edges && RowKeyOf(e) == RowKeyOf(top)
    ensures e.value <= top.value && top in edges
  {
    var x :| FirstLargest(edges, x) && edges[x] == top;
    var y :| 0 <= y < |edges| && edges[y] == e;
  }

  /** The largest value per key does not depend on the order of the edges. */
  lemma DedupeIgnoresOrder(xs: seq<FlowEdge>, ys: seq<FlowEdge>, o1: seq<FlowEdge>, o2: seq<FlowEdge>, i: nat)
    requires forall e :: e in xs <==> e in ys
    requires IsDeduped(xs, o1) && IsDeduped(ys, o2) && i < |o1|
    ensures exists j :: 0 <= j < |o2| && RowKeyOf(o2[j]) == RowKeyOf(o1[i]) && o2[j].value == o1[i].value
  {
    var k, x := RowKeyOf(o1[i]), o1[i];
    assert x in xs by { var n :| FirstLargest(xs, n) && xs[n] == x; }
    FirstKeysMembers(ys, k);
    var n :| 0 <= n < |ys| && ys[n] == x;
    var j :| 0 <= j < |FirstKeys(ys)| && FirstKeys(ys)[j] == k;
    LargestBounds(ys, o2[j], x);
    LargestBounds(xs, x, o2[j]);
  }

  lemma DedupedIsInput(edges: seq<FlowEdge>, out: seq<FlowEdge>, e: FlowEdge)
    requires IsDeduped(edges, out) && e in out
    ensures e in edges
  {
    var i :| 0 <= i < |out| && out[i] == e;
    var x :| FirstLargest(edges, x) && edges[x] == e;
  }

  /** No row is lost but to one of its key that is at least as large. */
  lemma InputIsCovered(edges: seq<FlowEdge>, out: seq<FlowEdge>, e: FlowEdge)
    requires IsDeduped(edges, out) && e in edges
    ensures exists i :: 0 <= i < |out| && RowKeyOf(out[i]) == RowKeyOf(e) && e.value <= out[i].value
  {
    FirstKeysMembers(edges, RowKeyOf(e));
    var x :| 0 <= x < |edges| && edges[x] == e;
    var i :| 0 <= i < |FirstKeys(edges)| && FirstKeys(edges)[i] == RowKeyOf(e);
    LargestBounds(edges, out[i], e);
  }
}
