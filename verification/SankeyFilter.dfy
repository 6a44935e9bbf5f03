/**
 * Filtering links for the Sankey chart: a greedy acyclic selection and the longest path over
 * it (`sanitize` in app/src/components/charts/Sankey.tsx).
 */
module SankeyFilter {
  import opened Collections

  /** A JavaScript number as the filter sees it. */
  datatype Num = Finite(value: real) | NaN | Infinite(positive: bool)

  predicate IsInteger(n: Num) { n.Finite? && n.value.Floor as real == n.value }

  datatype Link = Link(source: Num, target: Num, value: Num)

  /** Successor lists of the nodes 0 .. |adj| - 1. */
  type Adjacency = seq<seq<nat>>

  ghost predicate ValidAdjacency(adj: Adjacency)
  {
    forall v, i :: 0 <= v < |adj| && 0 <= i < |adj[v]| ==> adj[v][i] < |adj|
  }

  ghost predicate Edge(adj: Adjacency, v: nat, w: nat)
  {
    v < |adj| && w < |adj| && w in adj[v]
  }

  // ---- paths ------------------------------------------------------------------------

  ghost predicate IsPath(adj: Adjacency, p: seq<nat>)
  {
    && p != [] && (forall i :: 0 <= i < |p| ==> p[i] < |adj|)
    && forall i :: 0 <= i < |p| - 1 ==> Edge(adj, p[i], p[i + 1])
  }

  ghost predicate Connects(adj: Adjacency, p: seq<nat>, a: nat, b: nat)
  {
    IsPath(adj, p) && p[0] == a && p[|p| - 1] == b
  }

  ghost predicate Reachable(adj: Adjacency, a: nat, b: nat)
  {
    exists p :: Connects(adj, p, a, b)
  }

  lemma ReachSelf(adj: Adjacency, a: nat)
    requires a < |adj|
    ensures Reachable(adj, a, a)
  {
    assert Connects(adj, [a], a, a);
  }

  lemma ReachCons(adj: Adjacency, a: nat, b: nat, c: nat)
    requires Edge(adj, a, b) && Reachable(adj, b, c)
    ensures Reachable(adj, a, c)
  {
    var p :| Connects(adj, p, b, c);
    var q := [a] + p;
    forall i | 0 <= i < |q| - 1 ensures Edge(adj, q[i], q[i + 1]) {
      if i > 0 { assert q[i] == p[i - 1] && q[i + 1] == p[i - 1 + 1]; }
    }
    assert Connects(adj, q, a, c);
  }

  lemma TailPath(adj: Adjacency, p: seq<nat>)
    requires IsPath(adj, p) && |p| > 1
    ensures IsPath(adj, p[1..]) && Edge(adj, p[0], p[1])
  {
    assert Edge(adj, p[0], p[0 + 1]);
    forall i | 0 <= i < |p[1..]| - 1 ensures Edge(adj, p[1..][i], p[1..][i + 1]) {
      assert Edge(adj, p[i + 1], p[i + 1 + 1]);
    }
  }

  lemma {:induction false} ReachByPath(adj: Adjacency, p: seq<nat>, a: nat, b: nat, c: nat)
    requires Connects(adj, p, a, b) && Reachable(adj, b, c)
    ensures Reachable(adj, a, c)
    decreases |p|
  {
    if |p| > 1 {
      TailPath(adj, p);
      ReachByPath(adj, p[1..], p[1], b, c);
      ReachCons(adj, a, p[1], c);
    }
  }

  lemma ReachTransitive(adj: Adjacency, a: nat, b: nat, c: nat)
    requires Reachable(adj, a, b) && Reachable(adj, b, c)
    ensures Reachable(adj, a, c)
  {
    var p :| Connects(adj, p, a, b);
    ReachByPath(adj, p, a, b, c);
  }

  lemma ReachSnoc(adj: Adjacency, a: nat, b: nat, c: nat)
    requires Reachable(adj, a, b) && Edge(adj, b, c)
    ensures Reachable(adj, a, c)
  {
    ReachSelf(adj, c);
    ReachCons(adj, b, c, c);
    ReachTransitive(adj, a, b, c);
  }

  /** No edge lies on a cycle. */
  ghost predicate Acyclic(adj: Adjacency)
  {
    forall v: nat, w: nat :: Edge(adj, v, w) ==> !Reachable(adj, w, v)
  }

  /** In an acyclic graph no path returns to where it started. */
  lemma AcyclicMeansNoCycle(adj: Adjacency, p: seq<nat>)
    requires Acyclic(adj) && IsPath(adj, p) && |p| > 1
    ensures p[0] != p[|p| - 1]
  {
    TailPath(adj, p);
    assert Connects(adj, p[1..], p[1], p[|p| - 1]);
    assert Reachable(adj, p[1], p[|p| - 1]);
  }

  // ---- reachability by depth-first search -------------------------------------------------

  ghost predicate Closed(adj: Adjacency, seen: set<nat>)
  {
    forall v: nat, w: nat :: v in seen && Edge(adj, v, w) ==> w in seen
  }

  lemma {:induction false} ClosedContainsPath(adj: Adjacency, seen: set<nat>, p: seq<nat>)
    requires Closed(adj, seen) && IsPath(adj, p) && p[0] in seen
    ensures p[|p| - 1] in seen
    decreases |p|
  {
    if |p| > 1 {
      TailPath(adj, p);
      ClosedContainsPath(adj, seen, p[1..]);
    }
  }

  lemma BoundedSet(seen: set<nat>, n: nat)
    requires forall v :: v in seen ==> v < n
    ensures |seen| <= n
  {
    SubsetCardinality(seen, Below(n));
  }

  method Reaches(adj: Adjacency, from: nat, target: nat) returns (found: bool)
    requires ValidAdjacency(adj) && from < |adj|
    ensures found <==> Reachable(adj, from, target)
  {
    var stack: seq<nat>, seen: set<nat> := [from], {};
    ReachSelf(adj, from);
    while |stack| > 0
      invariant forall i :: 0 <= i < |stack| ==> stack[i] < |adj| && Reachable(adj, from, stack[i])
      invariant forall v :: v in seen ==> v < |adj|
      invariant target !in seen
      invariant from in seen || from in stack
      invariant forall v: nat, w: nat :: v in seen && Edge(adj, v, w) ==> w in seen || w in stack
      decreases |adj| - |seen|, |stack|
    {
      var n := stack[|stack| - 1];
      ghost var before := stack;
      stack := stack[..|stack| - 1];
      assert before == stack + [n];
      if n == target { return true; }
      if n in seen { continue; }
      BoundedSet(seen + {n}, |adj|);
      seen := seen + {n};
      ghost var rest := stack;
      for j := 0 to |adj[n]|
        invariant stack == rest + adj[n][..j]
      {
        PrefixSnoc(adj[n], j);
        stack := stack + [adj[n][j]];
      }
      assert adj[n][..|adj[n]|] == adj[n];
      forall i | 0 <= i < |stack| ensures stack[i] < |adj| && Reachable(adj, from, stack[i]) {
        if i >= |rest| {
          assert stack[i] == adj[n][i - |rest|];
          assert Edge(adj, n, stack[i]);
          ReachSnoc(adj, from, n, stack[i]);
        }
      }
    }
    if Reachable(adj, from, target) {
      var p :| Connects(adj, p, from, target);
      ClosedContainsPath(adj, seen, p);
    }
    found := false;
  }

  // ---- the greedy selection -----------------------------------------------------------------

  /** In range, not a self-link, positive and finite. */
  predicate Usable(n: nat, l: Link)
  {
    && IsInteger(l.source) && IsInteger(l.target)
    && 0.0 <= l.source.value < n as real && 0.0 <= l.target.value < n as real
    && l.source.value != l.target.value
    && l.value.Finite? && l.value.value > 0.0
  }

  function Node(x: Num): nat
    requires IsInteger(x) && x.value >= 0.0
  {
    x.value.Floor
  }

  function AddEdge(adj: Adjacency, v: nat, w: nat): Adjacency
    requires v < |adj|
  {
    adj[v := adj[v] + [w]]
  }

  function Empty(n: nat): Adjacency { seq(n, i => []) }

  /** The graph of a list of usable links. */
  function GraphOf(n: nat, links: seq<Link>): (adj: Adjacency)
    requires forall i :: 0 <= i < |links| ==> Usable(n, links[i])
    ensures |adj| == n && ValidAdjacency(adj)
  {
    if links == [] then Empty(n)
    else
      var l := links[|links| - 1];
      assert Usable(n, l);
      AddEdge(GraphOf(n, links[..|links| - 1]), Node(l.source), Node(l.target))
  }

  /** A link between two nodes, with a finite value. */
  ghost predicate Runs(l: Link, s: nat, t: nat, value: real)
  {
    l == Link(Finite(s as real), Finite(t as real), Finite(value))
  }

  /** Usable are exactly the links with a positive finite value between two different nodes below n. */
  lemma UsableIff(n: nat, l: Link)
    ensures Usable(n, l)
       <==> exists s: nat, t: nat, value :: Runs(l, s, t, value) && s < n && t < n && s != t && value > 0.0
  {
    if Usable(n, l) {
      assert Runs(l, l.source.value.Floor, l.target.value.Floor, l.value.value);
    }
    if s: nat, t: nat, value :| Runs(l, s, t, value) && s < n && t < n && s != t && value > 0.0 {
      assert (s as real).Floor == s && (t as real).Floor == t;
    }
  }

  /** The graph has exactly the edges that the links run along. */
  lemma {:induction false} GraphHolds(n: nat, links: seq<Link>, v: nat, w: nat)
    requires forall i :: 0 <= i < |links| ==> Usable(n, links[i])
    ensures Edge(GraphOf(n, links), v, w) <==> exists i, value :: 0 <= i < |links| && Runs(links[i], v, w, value)
  {
    if links != [] {
      var before, l := links[..|links| - 1], links[|links| - 1];
      assert links == before + [l];
      GraphHolds(n, before, v, w);
      AddedEdge(GraphOf(n, before), Node(l.source), Node(l.target), v, w);
      if i, value :| 0 <= i < |before| && Runs(before[i], v, w, value) { assert Runs(links[i], v, w, value); }
      if Node(l.source) == v && Node(l.target) == w { assert Runs(links[|before|], v, w, l.value.value); }
      if i, value :| 0 <= i < |links| && Runs(links[i], v, w, value) {
        if i < |before| { assert Runs(before[i], v, w, value); }
      }
    }
  }

  /** The link would close a cycle over the links already taken. */
  ghost predicate ClosesCycle(n: nat, taken: seq<Link>, l: Link)
    requires Usable(n, l) && forall i :: 0 <= i < |taken| ==> Usable(n, taken[i])
  {
    Reachable(GraphOf(n, taken), Node(l.target), Node(l.source))
  }

  /** Taking links in order, unless unusable or closing a cycle. */
  ghost function Greedy(n: nat, raw: seq<Link>): (links: seq<Link>)
    ensures forall i :: 0 <= i < |links| ==> Usable(n, links[i])
  {
    if raw == [] then []
    else
      var taken := Greedy(n, raw[..|raw| - 1]);
      var l := raw[|raw| - 1];
      if Usable(n, l) && !ClosesCycle(n, taken, l) then taken + [l] else taken
  }

  lemma AddedEdge(adj: Adjacency, s: nat, t: nat, v: nat, w: nat)
    requires s < |adj| && t < |adj|
    ensures Edge(AddEdge(adj, s, t), v, w) <==> Edge(adj, v, w) || (v == s && w == t)
  {}

  /** A path over one more edge either avoids it or runs through it. */
  lemma {:induction false} PathOverNewEdge(adj: Adjacency, s: nat, t: nat, p: seq<nat>, a: nat, b: nat)
    requires s < |adj| && t < |adj| && Connects(AddEdge(adj, s, t), p, a, b)
    ensures Reachable(adj, a, b) || (Reachable(adj, a, s) && Reachable(adj, t, b))
    decreases |p|
  {
    if |p| == 1 {
      ReachSelf(adj, a);
    } else {
      TailPath(AddEdge(adj, s, t), p);
      PathOverNewEdge(adj, s, t, p[1..], p[1], b);
      AddedEdge(adj, s, t, a, p[1]);
      if Edge(adj, a, p[1]) {
        if Reachable(adj, p[1], b) { ReachCons(adj, a, p[1], b); } else { ReachCons(adj, a, p[1], s); }
      } else {
        ReachSelf(adj, s);
      }
    }
  }

  /** Adding an edge keeps the graph acyclic when its head does not reach its tail. */
  lemma AddKeepsAcyclic(adj: Adjacency, s: nat, t: nat)
    requires Acyclic(adj) && s < |adj| && t < |adj| && !Reachable(adj, t, s)
    ensures Acyclic(AddEdge(adj, s, t))
  {
    var more := AddEdge(adj, s, t);
    forall v: nat, w: nat | Edge(more, v, w) ensures !Reachable(more, w, v) {
      if Reachable(more, w, v) {
        var p :| Connects(more, p, w, v);
        PathOverNewEdge(adj, s, t, p, w, v);
        AddedEdge(adj, s, t, v, w);
        if Edge(adj, v, w) {
          assert Reachable(adj, w, s) && Reachable(adj, t, v);
          ReachCons(adj, v, w, s);
          ReachTransitive(adj, t, v, s);
        }
        assert false;
      }
    }
  }

  lemma {:induction false} GreedyIsAcyclic(n: nat, raw: seq<Link>)
    ensures Acyclic(GraphOf(n, Greedy(n, raw)))
  {
    if raw == [] {
      assert forall v: nat, w: nat :: !Edge(Empty(n), v, w);
    } else {
      var k := |raw| - 1;
      var taken, l := Greedy(n, raw[..k]), raw[k];
      GreedyIsAcyclic(n, raw[..k]);
      if Usable(n, l) && !ClosesCycle(n, taken, l) {
        assert (taken + [l])[..|taken|] == taken;
        AddKeepsAcyclic(GraphOf(n, taken), Node(l.source), Node(l.target));
      }
    }
  }

  lemma MoreEdgesReachMore(adj: Adjacency, s: nat, t: nat, a: nat, b: nat)
    requires s < |adj| && t < |adj| && Reachable(adj, a, b)
    ensures Reachable(AddEdge(adj, s, t), a, b)
  {
    var p :| Connects(adj, p, a, b);
    assert Connects(AddEdge(adj, s, t), p, a, b);
  }

  /** What is taken stays taken: later links only extend the selection. */
  lemma {:induction false} GreedyGrows(n: nat, raw: seq<Link>, k: nat)
    requires k <= |raw|
    ensures Greedy(n, raw[..k]) <= Greedy(n, raw)
  {
    if k == |raw| {
      assert raw[..k] == raw;
    } else {
      var before := raw[..|raw| - 1];
      assert before[..k] == raw[..k];
      GreedyGrows(n, before, k);
    }
  }

  /** More links never lose reachability. */
  lemma {:induction false} MoreLinksReachMore(n: nat, links: seq<Link>, k: nat, a: nat, b: nat)
    requires forall i :: 0 <= i < |links| ==> Usable(n, links[i])
    requires k <= |links| && Reachable(GraphOf(n, links[..k]), a, b)
    ensures Reachable(GraphOf(n, links), a, b)
  {
    if k == |links| {
      assert links[..k] == links;
    } else {
      var before, l := links[..|links| - 1], links[|links| - 1];
      assert before[..k] == links[..k];
      MoreLinksReachMore(n, before, k, a, b);
      MoreEdgesReachMore(GraphOf(n, before), Node(l.source), Node(l.target), a, b);
    }
  }

  /**
   * Maximal: a usable link is taken at its turn, or it would close a cycle with the links of
   * the result.
   */
  lemma RejectedLinkClosesCycle(n: nat, raw: seq<Link>, k: nat)
    requires k < |raw| && Usable(n, raw[k])
    ensures Greedy(n, raw[..k + 1]) == Greedy(n, raw[..k]) + [raw[k]] || ClosesCycle(n, Greedy(n, raw), raw[k])
  {
    assert raw[..k + 1][..k] == raw[..k];
    var taken := Greedy(n, raw[..k]);
    if ClosesCycle(n, taken, raw[k]) {
      GreedyGrows(n, raw, k);
      assert Greedy(n, raw)[..|taken|] == taken;
      MoreLinksReachMore(n, Greedy(n, raw), |taken|, Node(raw[k].target), Node(raw[k].source));
    }
  }

  /** Position at[i] of the input holds link i of the result; positions increase. */
  ghost predicate IsSubsequence(links: seq<Link>, raw: seq<Link>, at: seq<nat>)
  {
    && |at| == |links|
    && (forall i :: 0 <= i < |at| ==> at[i] < |raw| && raw[at[i]] == links[i])
    && forall i, j :: 0 <= i < j < |at| ==> at[i] < at[j]
  }

  lemma SubsequenceSkip(links: seq<Link>, raw: seq<Link>, at: seq<nat>, l: Link)
    requires IsSubsequence(links, raw, at)
    ensures IsSubsequence(links, raw + [l], at)
  {}

  lemma SubsequenceTake(links: seq<Link>, raw: seq<Link>, at: seq<nat>, l: Link)
    requires IsSubsequence(links, raw, at)
    ensures IsSubsequence(links + [l], raw + [l], at + [|raw|])
  {}

  lemma {:induction false} GreedyIsSubsequence(n: nat, raw: seq<Link>) returns (at: seq<nat>)
    ensures IsSubsequence(Greedy(n, raw), raw, at)
  {
    if raw == [] {
      at := [];
    } else {
      var before, l := raw[..|raw| - 1], raw[|raw| - 1];
      assert raw == before + [l];
      at := GreedyIsSubsequence(n, before);
      if Usable(n, l) && !ClosesCycle(n, Greedy(n, before), l) {
        SubsequenceTake(Greedy(n, before), before, at, l);
        at := at + [|before|];
      } else {
        SubsequenceSkip(Greedy(n, before), before, at, l);
      }
    }
  }

  // ---- the longest path ----------------------------------------------------------------------

  ghost predicate PathFrom(adj: Adjacency, p: seq<nat>, v: nat)
  {
    IsPath(adj, p) && p[0] == v
  }

  /** Some path from v has d edges and none has more. */
  ghost predicate IsLongest(adj: Adjacency, v: nat, d: nat)
  {
    HasPath(adj, v, d) && forall p :: PathFrom(adj, p, v) ==> |p| <= d + 1
  }

  ghost predicate HasPath(adj: Adjacency, v: nat, d: nat)
  {
    exists p :: PathFrom(adj, p, v) && |p| == d + 1
  }

  /** A path of at least one edge leads from a to v. */
  ghost predicate Above(adj: Adjacency, a: nat, v: nat)
  {
    exists w: nat :: Edge(adj, a, w) && Reachable(adj, w, v)
  }

  lemma NotAboveItself(adj: Adjacency, v: nat)
    requires Acyclic(adj)
    ensures !Above(adj, v, v)
  {}

  lemma AboveStep(adj: Adjacency, a: nat, v: nat, w: nat)
    requires Edge(adj, v, w) && (a == v || Above(adj, a, v))
    ensures Above(adj, a, w)
  {
    if a == v {
      ReachSelf(adj, w);
    } else {
      var x: nat :| Edge(adj, a, x) && Reachable(adj, x, v);
      ReachSnoc(adj, x, v, w);
    }
  }

  ghost predicate AllAbove(adj: Adjacency, active: set<nat>, v: nat)
  {
    forall a: nat :: a in active ==> a < |adj| && Above(adj, a, v)
  }

  lemma AllAboveStep(adj: Adjacency, active: set<nat>, v: nat, w: nat)
    requires AllAbove(adj, active, v) && v < |adj| && w < |adj| && w in adj[v]
    ensures AllAbove(adj, active + {v}, w)
  {
    forall a: nat | a in active + {v} ensures a < |adj| && Above(adj, a, w) { AboveStep(adj, a, v, w); }
  }

  lemma LongerPath(adj: Adjacency, v: nat, w: nat, d: nat)
    requires Edge(adj, v, w) && HasPath(adj, w, d)
    ensures HasPath(adj, v, d + 1)
  {
    var p :| PathFrom(adj, p, w) && |p| == d + 1;
    var q := [v] + p;
    forall i | 0 <= i < |q| - 1 ensures Edge(adj, q[i], q[i + 1]) {
      if i > 0 { assert Edge(adj, p[i - 1], p[i - 1 + 1]); }
    }
    assert PathFrom(adj, q, v);
  }

  /** The depths of the first successors of v, all below `best`. */
  ghost predicate DepthsBelow(adj: Adjacency, v: nat, depths: seq<nat>, best: nat)
  {
    && v < |adj| && |depths| <= |adj[v]|
    && forall i :: 0 <= i < |depths| ==> IsLongest(adj, adj[v][i], depths[i]) && depths[i] < best
  }

  lemma OneMoreDepth(adj: Adjacency, v: nat, depths: seq<nat>, best: nat, d: nat)
    requires DepthsBelow(adj, v, depths, best) && |depths| < |adj[v]| && HasPath(adj, v, best)
    requires adj[v][|depths|] < |adj| && IsLongest(adj, adj[v][|depths|], d)
    ensures var more := if 1 + d > best then 1 + d else best;
      DepthsBelow(adj, v, depths + [d], more) && HasPath(adj, v, more)
  {
    assert Edge(adj, v, adj[v][|depths|]);
    LongerPath(adj, v, adj[v][|depths|], d);
  }

  /** One edge more than the best successor, and never less. */
  lemma LongestFromSuccessors(adj: Adjacency, v: nat, depths: seq<nat>, best: nat)
    requires DepthsBelow(adj, v, depths, best) && |depths| == |adj[v]| && HasPath(adj, v, best)
    ensures IsLongest(adj, v, best)
  {
    forall p | PathFrom(adj, p, v) ensures |p| <= best + 1 {
      if |p| > 1 {
        TailPath(adj, p);
        var i :| 0 <= i < |adj[v]| && adj[v][i] == p[1];
        assert PathFrom(adj, p[1..], adj[v][i]);
      }
    }
  }

  /** The memo holds longest path lengths, but a placeholder for nodes still being computed. */
  ghost predicate Settled(adj: Adjacency, memo: map<nat, nat>, active: set<nat>)
  {
    forall v: nat :: v in memo && v !in active ==> IsLongest(adj, v, memo[v])
  }

  lemma PlaceholderKeepsSettled(adj: Adjacency, memo: map<nat, nat>, active: set<nat>, v: nat)
    requires Settled(adj, memo, active)
    ensures Settled(adj, memo[v := 0], active + {v})
  {}

  lemma AnswerKeepsSettled(adj: Adjacency, memo: map<nat, nat>, active: set<nat>, v: nat, d: nat)
    requires Settled(adj, memo, active + {v}) && IsLongest(adj, v, d)
    ensures Settled(adj, memo[v := d], active)
  {}

  class PathMemo {
    var memo: map<nat, nat>

    constructor ()
      ensures memo == map[]
    {
      memo := map[];
    }

    /** `active` are the nodes whose computation is under way. */
    method LongestFrom(adj: Adjacency, v: nat, ghost active: set<nat>) returns (best: nat)
      requires ValidAdjacency(adj) && Acyclic(adj) && v < |adj|
      requires AllAbove(adj, active, v) && Settled(adj, memo, active)
      modifies this
      ensures Settled(adj, memo, active) && IsLongest(adj, v, best)
      decreases |adj| - |active|
    {
      NotAboveItself(adj, v);
      if v in memo { return memo[v]; }
      PlaceholderKeepsSettled(adj, memo, active, v);
      memo := memo[v := 0];
      BoundedSet(active + {v}, |adj|);
      ghost var depths: seq<nat> := [];
      best := 0;
      assert PathFrom(adj, [v], v);
      for j := 0 to |adj[v]|
        invariant Settled(adj, memo, active + {v})
        invariant |depths| == j && DepthsBelow(adj, v, depths, best) && HasPath(adj, v, best)
      {
        AllAboveStep(adj, active, v, adj[v][j]);
        var d := LongestFrom(adj, adj[v][j], active + {v});
        OneMoreDepth(adj, v, depths, best, d);
        depths := depths + [d];
        if 1 + d > best { best := 1 + d; }
      }
      LongestFromSuccessors(adj, v, depths, best);
      AnswerKeepsSettled(adj, memo, active, v, best);
      memo := memo[v := best];
    }
  }

  /** No path has more than d edges, and with at least one node some path has exactly d. */
  ghost predicate IsMaxDepth(adj: Adjacency, d: nat)
  {
    && (forall p :: IsPath(adj, p) ==> |p| <= d + 1)
    && if |adj| == 0 then d == 0 else exists p :: IsPath(adj, p) && |p| == d + 1
  }

  /** The whole filter: the greedy links and the exact length of their longest path. */
  method Sanitize(n: nat, raw: seq<Link>) returns (links: seq<Link>, maxDepth: nat)
    ensures links == Greedy(n, raw)
    ensures IsMaxDepth(GraphOf(n, links), maxDepth)
  {
    var adj: Adjacency := Empty(n);
    links := [];
    for k := 0 to |raw|
      invariant links == Greedy(n, raw[..k]) && adj == GraphOf(n, links)
    {
      PrefixSnoc(raw, k);
      assert raw[..k + 1][..k] == raw[..k];
      var l := raw[k];
      if !Usable(n, l) { continue; }
      var cyclic := Reaches(adj, Node(l.target), Node(l.source));
      if cyclic { continue; }
      adj := AddEdge(adj, Node(l.source), Node(l.target));
      assert (links + [l])[..|links|] == links;
      links := links + [l];
    }
    assert raw[..|raw|] == raw;
    GreedyIsAcyclic(n, raw);
    maxDepth := Deepest(adj);
  }

  method Deepest(adj: Adjacency) returns (maxDepth: nat)
    requires ValidAdjacency(adj) && Acyclic(adj)
    ensures IsMaxDepth(adj, maxDepth)
  {
    var paths := new PathMemo();
    maxDepth := 0;
    ghost var longest: seq<nat> := [];
    for v := 0 to |adj|
      invariant Settled(adj, paths.memo, {}) && fresh(paths)
      invariant forall p :: IsPath(adj, p) && p[0] < v ==> |p| <= maxDepth + 1
      invariant if v == 0 then maxDepth == 0 else IsPath(adj, longest) && |longest| == maxDepth + 1
    {
      var d := paths.LongestFrom(adj, v, {});
      forall p | IsPath(adj, p) && p[0] == v ensures |p| <= d + 1 { assert PathFrom(adj, p, v); }
      if d > maxDepth || v == 0 {
        longest :| PathFrom(adj, longest, v) && |longest| == d + 1;
      }
      if d > maxDepth { maxDepth := d; }
    }
  }
}
