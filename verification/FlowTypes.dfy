/** The flow row shared by the collector and the app, and the time grid both sides use. */
module FlowTypes {

  datatype Metric = DataTransferred | Retransmissions | Timeouts | RoundTripTime

  /** Counters add up over time; round-trip time is a gauge. */
  predicate IsCounter(m: Metric) { !m.RoundTripTime? }

  datatype GroupKey = GroupKey(monitor: string, metric: Metric, category: string)

  datatype EdgeKey = EdgeKey(group: GroupKey, edgeHash: string)

  /** `detail` stands for the endpoint, port and traversed-component payload. */
  datatype FlowEdge = FlowEdge(key: EdgeKey, bucket: int, value: real, detail: string)

  // All times are integer milliseconds.
  const FIVE_MIN := 300_000
  const HOUR := 3_600_000
  const DAY := 86_400_000

  /** The 5-minute bucket that contains t. */
  function BucketOf(t: int): (r: int)
    ensures r <= t < r + FIVE_MIN && r % FIVE_MIN == 0
  {
    t / FIVE_MIN * FIVE_MIN
  }

  /** The start of the hour that contains t. */
  function HourOf(t: int): (r: int)
    ensures r <= t < r + HOUR && r % HOUR == 0
  {
    t / HOUR * HOUR
  }

  /** The sum of the values that `edges` holds for one edge. */
  function SumOf(edges: seq<FlowEdge>, k: EdgeKey): real
  {
    if edges == [] then 0.0
    else
      var e := edges[|edges| - 1];
      SumOf(edges[..|edges| - 1], k) + if e.key == k then e.value else 0.0
  }

  /** How many rows `edges` holds for one edge. */
  function CountOf(edges: seq<FlowEdge>, k: EdgeKey): nat
  {
    if edges == [] then 0
    else CountOf(edges[..|edges| - 1], k) + if edges[|edges| - 1].key == k then 1 else 0
  }

  lemma {:induction false} SumOfConcat(xs: seq<FlowEdge>, ys: seq<FlowEdge>, k: EdgeKey)
    ensures SumOf(xs + ys, k) == SumOf(xs, k) + SumOf(ys, k)
  {
    if ys == [] {
      assert xs + ys == xs;
    } else {
      var n := |ys| - 1;
      assert (xs + ys)[..|xs + ys| - 1] == xs + ys[..n];
      SumOfConcat(xs, ys[..n], k);
    }
  }

  lemma {:induction false} CountOfConcat(xs: seq<FlowEdge>, ys: seq<FlowEdge>, k: EdgeKey)
    ensures CountOf(xs + ys, k) == CountOf(xs, k) + CountOf(ys, k)
  {
    if ys == [] {
      assert xs + ys == xs;
    } else {
      var n := |ys| - 1;
      assert (xs + ys)[..|xs + ys| - 1] == xs + ys[..n];
      CountOfConcat(xs, ys[..n], k);
    }
  }

  lemma {:induction false} CountOfAbsent(edges: seq<FlowEdge>, k: EdgeKey)
    ensures CountOf(edges, k) == 0 <==> forall e :: e in edges ==> e.key != k
  {
    if edges != [] {
      var n := |edges| - 1;
      CountOfAbsent(edges[..n], k);
      assert edges == edges[..n] + [edges[n]];
    }
  }

  lemma {:induction false} SumOfAbsent(edges: seq<FlowEdge>, k: EdgeKey)
    requires forall e :: e in edges ==> e.key != k
    ensures SumOf(edges, k) == 0.0
  {
    if edges != [] {
      var n := |edges| - 1;
      assert edges == edges[..n] + [edges[n]];
      SumOfAbsent(edges[..n], k);
    }
  }

  ghost predicate DistinctKeys(edges: seq<FlowEdge>)
  {
    forall i, j :: 0 <= i < j < |edges| ==> edges[i].key != edges[j].key
  }

  /** With distinct keys the sum for an edge is the value of its only row. */
  lemma {:induction false} SumOfDistinct(edges: seq<FlowEdge>, i: nat)
    requires DistinctKeys(edges) && i < |edges|
    ensures SumOf(edges, edges[i].key) == edges[i].value
  {
    var n := |edges| - 1;
    assert edges == edges[..n] + [edges[n]];
    if i == n {
      SumOfAbsent(edges[..n], edges[n].key);
    } else {
      SumOfDistinct(edges[..n], i);
    }
  }

  lemma {:induction false} SumOfNonNegative(edges: seq<FlowEdge>, k: EdgeKey)
    requires forall e :: e in edges ==> e.value >= 0.0
    ensures SumOf(edges, k) >= 0.0
  {
    if edges != [] {
      var n := |edges| - 1;
      assert edges == edges[..n] + [edges[n]];
      SumOfNonNegative(edges[..n], k);
    }
  }

  lemma ProductOrder(x: real, y: real, c: real)
    requires c > 0.0 && x * c >= y * c
    ensures x >= y
  {
    assert (x - y) * c >= 0.0;
  }
}
