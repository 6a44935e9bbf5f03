/**
 * Reliability alerts: breach detection and the edge-triggered ALARM / OK messages across cycles
 * (collector/src/reliability-alert.ts and `publishReliabilityAlerts` in collector/src/handler.ts).
 */
module ReliabilityAlert {
  import opened Collections
  import opened FlowTypes

  // ---- detection ---------------------------------------------------------------------------

  datatype Endpoint = Endpoint(
    ip: Option<string>, podName: Option<string>, podNamespace: Option<string>, serviceName: Option<string>)

  datatype AlertEdge = AlertEdge(metric: Metric, a: Endpoint, b: Endpoint, value: real)

  function Else<T>(x: Option<T>, y: Option<T>): Option<T> { if x.Some? then x else y }

  /** The first name present decides; an empty one makes the entity unknown. */
  function EntityKey(e: Endpoint): string
  {
    match Else(Else(e.serviceName, e.podName), e.ip)
    case None => "unknown"
    case Some(name) =>
      if name == "" then "unknown"
      else (match e.podNamespace case Some(ns) => ns case None => "unknown") + "/" + name
  }

  function KeysOf(e: AlertEdge): set<string> { {EntityKey(e.a), EntityKey(e.b)} }

  function Max(x: real, y: real): real { if x >= y then x else y }

  function RatePerGb(events: real, bytes: real): real
  {
    if bytes == 0.0 then 0.0 else events / Max(bytes / 1_000_000_000.0, 0.000_000_001)
  }

  const RETRANS_THRESHOLD := 10.0
  const TIMEOUT_THRESHOLD := 5.0

  datatype Slot = Slot(bytes: real, retransmissions: real, timeouts: real)

  datatype BreachRow = BreachRow(key: string, retransRate: real, timeoutRate: real)

  function RowOf(key: string, s: Slot): BreachRow
  {
    BreachRow(key, RatePerGb(s.retransmissions, s.bytes), RatePerGb(s.timeouts, s.bytes))
  }

  predicate Exceeds(r: BreachRow) { r.retransRate > RETRANS_THRESHOLD || r.timeoutRate > TIMEOUT_THRESHOLD }

  /** What the edges at one entity add up to; an edge within the entity counts once. */
  function Total(edges: seq<AlertEdge>, key: string, m: Metric): real
  {
    if edges == [] then 0.0
    else
      var e := edges[|edges| - 1];
      Total(edges[..|edges| - 1], key, m) + Part(e, key, m)
  }

  function Part(e: AlertEdge, key: string, m: Metric): real
  {
    if key in KeysOf(e) && e.metric == m then e.value else 0.0
  }

  function SlotOf(edges: seq<AlertEdge>, key: string): Slot
  {
    Slot(Total(edges, key, DataTransferred), Total(edges, key, Retransmissions), Total(edges, key, Timeouts))
  }

  predicate Breaching(edges: seq<AlertEdge>, key: string) { Exceeds(RowOf(key, SlotOf(edges, key))) }

  function AddTo(s: Slot, e: AlertEdge): Slot
  {
    match e.metric
    case DataTransferred => s.(bytes := s.bytes + e.value)
    case Retransmissions => s.(retransmissions := s.retransmissions + e.value)
    case Timeouts => s.(timeouts := s.timeouts + e.value)
    case RoundTripTime => s
  }

  function Get(acc: map<string, Slot>, key: string): Slot
  {
    if key in acc then acc[key] else Slot(0.0, 0.0, 0.0)
  }

  /** The accumulation for one entity of one edge. */
  method Accumulate(acc: map<string, Slot>, order: seq<string>, e: AlertEdge, key: string)
    returns (acc': map<string, Slot>, order': seq<string>)
    requires Distinct(order) && forall k :: k in acc <==> k in order
    ensures Distinct(order') && forall k :: k in acc' <==> k in order'
    ensures acc' == acc[key := AddTo(Get(acc, key), e)]
  {
    order' := if key in acc then order else order + [key];
    acc' := acc[key := AddTo(Get(acc, key), e)];
  }

  lemma SlotStep(edges: seq<AlertEdge>, i: nat, key: string)
    requires i < |edges|
    ensures SlotOf(edges[..i + 1], key)
      == if key in KeysOf(edges[i]) then AddTo(SlotOf(edges[..i], key), edges[i]) else SlotOf(edges[..i], key)
  {
    assert edges[..i + 1][..i] == edges[..i];
  }

  /** The accumulation loop: the totals of every entity. */
  method Totals(edges: seq<AlertEdge>) returns (acc: map<string, Slot>, order: seq<string>)
    ensures Distinct(order) && forall k :: k in acc <==> k in order
    ensures forall key :: Get(acc, key) == SlotOf(edges, key)
  {
    acc, order := map[], [];
    for i := 0 to |edges|
      invariant Distinct(order) && forall k :: k in acc <==> k in order
      invariant forall key :: Get(acc, key) == SlotOf(edges[..i], key)
    {
      var e := edges[i];
      ghost var was := acc;
      if !e.metric.RoundTripTime? {
        var a, b := EntityKey(e.a), EntityKey(e.b);
        acc, order := Accumulate(acc, order, e, a);
        if b != a { acc, order := Accumulate(acc, order, e, b); }
      }
      forall key ensures Get(acc, key) == SlotOf(edges[..i + 1], key) {
        SlotStep(edges, i, key);
        assert Get(was, key) == SlotOf(edges[..i], key);
      }
    }
    assert edges[..|edges|] == edges;
  }

  /** One row per breaching entity, and no other. */
  method DetectReliabilityBreaches(edges: seq<AlertEdge>) returns (rows: seq<BreachRow>)
    ensures Distinct(KeysOfRows(rows))
    ensures forall i :: 0 <= i < |rows| ==> rows[i] == RowOf(rows[i].key, SlotOf(edges, rows[i].key))
    ensures forall key :: key in KeysOfRows(rows) <==> Breaching(edges, key)
  {
    var acc, order := Totals(edges);
    rows := [];
    for i := 0 to |order|
      invariant Distinct(KeysOfRows(rows))
      invariant forall j :: 0 <= j < |rows| ==> rows[j] == RowOf(rows[j].key, SlotOf(edges, rows[j].key))
      invariant forall key :: key in KeysOfRows(rows) <==> key in order[..i] && Breaching(edges, key)
    {
      PrefixSnoc(order, i);
      DistinctPrefix(order, i);
      var row := RowOf(order[i], acc[order[i]]);
      assert Get(acc, order[i]) == SlotOf(edges, order[i]);
      if Exceeds(row) {
        assert KeysOfRows(rows + [row]) == KeysOfRows(rows) + [row.key];
        DistinctSnoc(KeysOfRows(rows), row.key);
        rows := rows + [row];
      }
    }
    assert order[..|order|] == order;
    forall key | Breaching(edges, key) ensures key in order {
      assert Get(acc, key) == SlotOf(edges, key);
    }
  }

  function KeysOfRows(rows: seq<BreachRow>): seq<string>
  {
    seq(|rows|, i requires 0 <= i < |rows| => rows[i].key)
  }

  // ---- the order of the edges does not matter ------------------------------------------------

  lemma {:induction false} TotalConcat(xs: seq<AlertEdge>, ys: seq<AlertEdge>, key: string, m: Metric)
    ensures Total(xs + ys, key, m) == Total(xs, key, m) + Total(ys, key, m)
  {
    if ys == [] {
      assert xs + ys == xs;
    } else {
      var n := |ys| - 1;
      assert (xs + ys)[..|xs + ys| - 1] == xs + ys[..n];
      TotalConcat(xs, ys[..n], key, m);
    }
  }

  lemma TotalWithout(edges: seq<AlertEdge>, i: nat, key: string, m: Metric)
    requires i < |edges|
    ensures Total(edges, key, m) == Total(edges[..i] + edges[i + 1..], key, m) + Part(edges[i], key, m)
  {
    assert edges == edges[..i + 1] + edges[i + 1..];
    assert edges[..i + 1][..i] == edges[..i];
    TotalConcat(edges[..i + 1], edges[i + 1..], key, m);
    TotalConcat(edges[..i], edges[i + 1..], key, m);
  }

  lemma {:induction false} TotalIgnoresOrder(xs: seq<AlertEdge>, ys: seq<AlertEdge>, key: string, m: Metric)
    requires multiset(xs) == multiset(ys)
    ensures Total(xs, key, m) == Total(ys, key, m)
    decreases |xs|
  {
    if xs == [] {
      assert |multiset(ys)| == 0;
    } else {
      var n := |xs| - 1;
      assert xs[n] in xs;
      var i := MemberIndex(xs, ys, xs[n]);
      SameRemoved(xs, ys, i);
      TotalIgnoresOrder(xs[..n], ys[..i] + ys[i + 1..], key, m);
      TotalWithout(ys, i, key, m);
    }
  }

  /** Which entities breach does not depend on the order of the edges. */
  lemma BreachesIgnoreOrder(xs: seq<AlertEdge>, ys: seq<AlertEdge>, key: string)
    requires multiset(xs) == multiset(ys)
    ensures Breaching(xs, key) <==> Breaching(ys, key)
  {
    TotalIgnoresOrder(xs, ys, key, DataTransferred);
    TotalIgnoresOrder(xs, ys, key, Retransmissions);
    TotalIgnoresOrder(xs, ys, key, Timeouts);
  }

  // ---- what a breach is, in terms of the edges -------------------------------------------------

  /** The first name present of service, pod and address is this one. */
  ghost predicate NamedBy(e: Endpoint, name: string)
  {
    || e.serviceName == Some(name)
    || (e.serviceName.None? && (e.podName == Some(name) || (e.podName.None? && e.ip == Some(name))))
  }

  /** An entity with a name is called namespace/name; one without a name, or with an empty one, is unknown. */
  lemma EntityKeyIs(e: Endpoint, name: string)
    ensures NamedBy(e, name) && name != "" ==>
      EntityKey(e) == (if e.podNamespace.Some? then e.podNamespace.value else "unknown") + "/" + name
    ensures EntityKey(e) == "unknown" <==> NamedBy(e, "") || forall n: string :: !NamedBy(e, n)
  {
    var first := if e.serviceName.Some? then e.serviceName else if e.podName.Some? then e.podName else e.ip;
    if first.Some? {
      assert NamedBy(e, first.value);
      if first.value != "" {
        var ns := match e.podNamespace case Some(ns) => ns case None => "unknown";
        assert EntityKey(e) == ns + "/" + first.value;
        assert EntityKey(e)[|ns|] == '/';
        assert "unknown"[0] != '/' && "unknown"[1] != '/' && "unknown"[2] != '/' && "unknown"[3] != '/'
            && "unknown"[4] != '/' && "unknown"[5] != '/' && "unknown"[6] != '/';
      }
    }
  }

  /** Edge j, where it is of the metric and has the entity at an end, or at both. */
  ghost function ValueAt(edges: seq<AlertEdge>, key: string, m: Metric): nat -> real
  {
    (j: nat) =>
      if j < |edges| && edges[j].metric == m && (EntityKey(edges[j].a) == key || EntityKey(edges[j].b) == key)
      then edges[j].value else 0.0
  }

  lemma TotalIsSum(edges: seq<AlertEdge>, key: string, m: Metric)
    ensures Total(edges, key, m) == SumBelow(|edges|, ValueAt(edges, key, m))
  {
    var f := (i: nat) => if i <= |edges| then Total(edges[..i], key, m) else 0.0;
    forall i: nat | i < |edges| ensures f(i + 1) == f(i) + ValueAt(edges, key, m)(i) {
      assert edges[..i + 1][..i] == edges[..i];
    }
    GrowsBy(|edges|, f, ValueAt(edges, key, m));
    assert edges[..|edges|] == edges;
  }

  /** What the edges at the entity add up to. */
  ghost predicate Totalling(edges: seq<AlertEdge>, key: string, bytes: real, retrans: real, timeouts: real)
  {
    && bytes == SumBelow(|edges|, ValueAt(edges, key, DataTransferred))
    && retrans == SumBelow(|edges|, ValueAt(edges, key, Retransmissions))
    && timeouts == SumBelow(|edges|, ValueAt(edges, key, Timeouts))
  }

  lemma SlotTotals(edges: seq<AlertEdge>, key: string, bytes: real, retrans: real, timeouts: real)
    requires Totalling(edges, key, bytes, retrans, timeouts)
    ensures SlotOf(edges, key) == Slot(bytes, retrans, timeouts)
  {
    TotalIsSum(edges, key, DataTransferred);
    TotalIsSum(edges, key, Retransmissions);
    TotalIsSum(edges, key, Timeouts);
  }

  /** Events per 10^9 bytes; none without bytes, and below one byte as for one byte. */
  ghost predicate IsRate(rate: real, events: real, bytes: real)
  {
    && (bytes == 0.0 ==> rate == 0.0)
    && (bytes >= 1.0 ==> rate * bytes == 1_000_000_000.0 * events)
    && (bytes < 1.0 && bytes != 0.0 ==> rate == 1_000_000_000.0 * events)
  }

  lemma RateIsRate(events: real, bytes: real)
    ensures IsRate(RatePerGb(events, bytes), events, bytes)
  {
    if bytes >= 1.0 {
      var q := bytes / 1_000_000_000.0;
      assert q * 1_000_000_000.0 == bytes && q >= 0.000_000_001;
      var rate := events / q;
      assert rate * q == events;
      assert rate * bytes == rate * q * 1_000_000_000.0;
    }
  }

  /** The rates of a row are those of everything that the edges at its entity carry. */
  lemma RowRates(edges: seq<AlertEdge>, key: string, bytes: real, retrans: real, timeouts: real)
    requires Totalling(edges, key, bytes, retrans, timeouts)
    ensures var row := RowOf(key, SlotOf(edges, key));
      row.key == key && IsRate(row.retransRate, retrans, bytes) && IsRate(row.timeoutRate, timeouts, bytes)
  {
    SlotTotals(edges, key, bytes, retrans, timeouts);
    RateIsRate(retrans, bytes);
    RateIsRate(timeouts, bytes);
  }

  lemma RateExceeds(rate: real, events: real, bytes: real, threshold: real)
    requires IsRate(rate, events, bytes) && bytes >= 1.0
    ensures rate > threshold <==> 1_000_000_000.0 * events > threshold * bytes
  {
    assert (rate - threshold) * bytes == 1_000_000_000.0 * events - threshold * bytes;
    assert rate > threshold ==> (rate - threshold) * bytes > 0.0;
    assert rate <= threshold ==> (rate - threshold) * bytes <= 0.0;
  }

  /** Breaching: more than 10 retransmissions or more than 5 timeouts per 10^9 bytes. */
  lemma BreachingIff(edges: seq<AlertEdge>, key: string, bytes: real, retrans: real, timeouts: real)
    requires Totalling(edges, key, bytes, retrans, timeouts)
    ensures bytes == 0.0 ==> !Breaching(edges, key)
    ensures bytes >= 1.0 ==>
      (Breaching(edges, key) <==>
         1_000_000_000.0 * retrans > 10.0 * bytes || 1_000_000_000.0 * timeouts > 5.0 * bytes)
    ensures bytes < 1.0 && bytes != 0.0 ==>
      (Breaching(edges, key) <==> 1_000_000_000.0 * retrans > 10.0 || 1_000_000_000.0 * timeouts > 5.0)
  {
    var row := RowOf(key, SlotOf(edges, key));
    RowRates(edges, key, bytes, retrans, timeouts);
    if bytes >= 1.0 {
      RateExceeds(row.retransRate, retrans, bytes, 10.0);
      RateExceeds(row.timeoutRate, timeouts, bytes, 5.0);
    }
  }

  // ---- messages ----------------------------------------------------------------------------------

  datatype Message = Message(key: string, alarm: bool)

  function NotIn(xs: seq<string>, ys: seq<string>): seq<string>
  {
    if xs == [] then []
    else
      var before, x := NotIn(xs[..|xs| - 1], ys), xs[|xs| - 1];
      if x in ys then before else before + [x]
  }

  function Messages(keys: seq<string>, alarm: bool): seq<Message>
  {
    seq(|keys|, i requires 0 <= i < |keys| => Message(keys[i], alarm))
  }

  /** Onsets first, then recoveries. */
  function Transitions(current: seq<string>, prior: seq<string>): seq<Message>
  {
    Messages(NotIn(current, prior), true) + Messages(NotIn(prior, current), false)
  }

  /** The last message for the key is an ALARM. */
  predicate Open(sent: seq<Message>, key: string)
  {
    sent != [] &&
    if sent[|sent| - 1].key == key then sent[|sent| - 1].alarm else Open(sent[..|sent| - 1], key)
  }

  /** Per key the messages alternate ALARM, OK, starting with ALARM. */
  predicate Alternates(sent: seq<Message>)
  {
    sent == [] ||
    (Alternates(sent[..|sent| - 1]) && sent[|sent| - 1].alarm == !Open(sent[..|sent| - 1], sent[|sent| - 1].key))
  }

  ghost predicate OneEach(msgs: seq<Message>)
  {
    forall i, j :: 0 <= i < j < |msgs| ==> msgs[i].key != msgs[j].key
  }

  /** Every message announces a change with respect to `sent`. */
  ghost predicate Changes(msgs: seq<Message>, sent: seq<Message>)
  {
    forall i :: 0 <= i < |msgs| ==> msgs[i].alarm == !Open(sent, msgs[i].key)
  }

  lemma {:induction false} OpenAfter(sent: seq<Message>, msgs: seq<Message>, key: string)
    requires OneEach(msgs)
    ensures forall i :: 0 <= i < |msgs| && msgs[i].key == key ==> Open(sent + msgs, key) == msgs[i].alarm
    ensures (forall i :: 0 <= i < |msgs| ==> msgs[i].key != key) ==> Open(sent + msgs, key) == Open(sent, key)
    decreases |msgs|
  {
    if msgs == [] {
      assert sent + msgs == sent;
    } else {
      var n := |msgs| - 1;
      assert (sent + msgs)[..|sent + msgs| - 1] == sent + msgs[..n];
      OpenAfter(sent, msgs[..n], key);
      assert forall i :: 0 <= i < n ==> msgs[..n][i] == msgs[i];
    }
  }

  lemma {:induction false} AlternatesAfter(sent: seq<Message>, msgs: seq<Message>)
    requires Alternates(sent) && OneEach(msgs) && Changes(msgs, sent)
    ensures Alternates(sent + msgs)
    decreases |msgs|
  {
    if msgs == [] {
      assert sent + msgs == sent;
    } else {
      var n := |msgs| - 1;
      assert (sent + msgs)[..|sent + msgs| - 1] == sent + msgs[..n];
      AlternatesAfter(sent, msgs[..n]);
      OpenAfter(sent, msgs[..n], msgs[n].key);
    }
  }

  lemma {:induction false} NotInMembers(xs: seq<string>, ys: seq<string>, x: string)
    requires Distinct(xs)
    ensures Distinct(NotIn(xs, ys))
    ensures x in NotIn(xs, ys) <==> x in xs && x !in ys
  {
    if xs != [] {
      var n := |xs| - 1;
      assert xs == xs[..n] + [xs[n]];
      NotInMembers(xs[..n], ys, x);
      NotInMembers(xs[..n], ys, xs[n]);
    }
  }

  // ---- cycles --------------------------------------------------------------------------------------

  /** The stored keys and every message ever delivered. */
  datatype Alerts = Alerts(keys: seq<string>, sent: seq<Message>) {
    ghost predicate Inv()
    {
      Distinct(keys) && Alternates(sent) && forall key :: Open(sent, key) <==> key in keys
    }
  }

  /** One cycle: what breaches, which publishes are delivered, and whether the keys are stored. */
  datatype Cycle = Cycle(current: seq<string>, delivered: set<nat>, wrote: bool)

  ghost function Delivered(msgs: seq<Message>, which: set<nat>): seq<Message>
  {
    if msgs == [] then []
    else
      var before, n := Delivered(msgs[..|msgs| - 1], which), |msgs| - 1;
      if n in which then before + [msgs[n]] else before
  }

  ghost predicate AllDelivered(a: Alerts, c: Cycle)
  {
    forall i: nat :: i < |Transitions(c.current, a.keys)| ==> i in c.delivered
  }

  /** The keys are stored only after every publish came back. */
  ghost predicate Possible(a: Alerts, c: Cycle) { Distinct(c.current) && (c.wrote ==> AllDelivered(a, c)) }

  ghost function SentBy(a: Alerts, c: Cycle): seq<Message>
  {
    Delivered(Transitions(c.current, a.keys), c.delivered)
  }

  ghost function Next(a: Alerts, c: Cycle): Alerts
  {
    Alerts(if c.wrote then c.current else a.keys, a.sent + SentBy(a, c))
  }

  lemma {:induction false} DeliveredIsPart(msgs: seq<Message>, which: set<nat>, i: nat) returns (k: nat)
    requires i < |Delivered(msgs, which)|
    ensures k < |msgs| && k in which && Delivered(msgs, which)[i] == msgs[k]
  {
    var n := |msgs| - 1;
    if i < |Delivered(msgs[..n], which)| { k := DeliveredIsPart(msgs[..n], which, i); } else { k := n; }
  }

  lemma {:induction false} DeliveredOneEach(msgs: seq<Message>, which: set<nat>)
    requires OneEach(msgs)
    ensures OneEach(Delivered(msgs, which))
  {
    if msgs != [] {
      var n := |msgs| - 1;
      DeliveredOneEach(msgs[..n], which);
      var before := Delivered(msgs[..n], which);
      forall i | 0 <= i < |before| ensures before[i].key != msgs[n].key {
        var k := DeliveredIsPart(msgs[..n], which, i);
        assert msgs[k].key != msgs[n].key;
      }
    }
  }

  lemma {:induction false} DeliveredAll(msgs: seq<Message>, which: set<nat>)
    requires forall i: nat :: i < |msgs| ==> i in which
    ensures Delivered(msgs, which) == msgs
  {
    if msgs != [] {
      var n := |msgs| - 1;
      DeliveredAll(msgs[..n], which);
      assert msgs == msgs[..n] + [msgs[n]];
    }
  }

  /** In a consistent state the transitions are at most one change per key. */
  lemma TransitionsAreChanges(a: Alerts, current: seq<string>)
    requires a.Inv() && Distinct(current)
    ensures OneEach(Transitions(current, a.keys)) && Changes(Transitions(current, a.keys), a.sent)
  {
    var started, resolved := NotIn(current, a.keys), NotIn(a.keys, current);
    var msgs := Transitions(current, a.keys);
    forall i | 0 <= i < |msgs| ensures msgs[i].alarm == !Open(a.sent, msgs[i].key) {
      TransitionAt(a, current, i);
    }
    NotInMembers(current, a.keys, "");
    NotInMembers(a.keys, current, "");
    forall i, j | 0 <= i < j < |msgs| ensures msgs[i].key != msgs[j].key {
      TransitionAt(a, current, i);
      TransitionAt(a, current, j);
    }
  }

  lemma TransitionAt(a: Alerts, current: seq<string>, i: nat)
    requires a.Inv() && Distinct(current) && i < |Transitions(current, a.keys)|
    ensures var x := Transitions(current, a.keys)[i];
      && x.alarm == (i < |NotIn(current, a.keys)|)
      && (if x.alarm then x.key in current && x.key !in a.keys else x.key in a.keys && x.key !in current)
      && x.key == if x.alarm then NotIn(current, a.keys)[i] else NotIn(a.keys, current)[i - |NotIn(current, a.keys)|]
  {
    var x := Transitions(current, a.keys)[i];
    NotInMembers(current, a.keys, x.key);
    NotInMembers(a.keys, current, x.key);
    if x.alarm { assert x.key in NotIn(current, a.keys); } else { assert x.key in NotIn(a.keys, current); }
  }

  lemma TransitionFor(a: Alerts, current: seq<string>, key: string) returns (i: nat)
    requires a.Inv() && Distinct(current) && (key in current) != (key in a.keys)
    ensures i < |Transitions(current, a.keys)| && Transitions(current, a.keys)[i] == Message(key, key in current)
  {
    NotInMembers(current, a.keys, key);
    NotInMembers(a.keys, current, key);
    var started, resolved := NotIn(current, a.keys), NotIn(a.keys, current);
    if key in current {
      i :| 0 <= i < |started| && started[i] == key;
    } else {
      var k :| 0 <= k < |resolved| && resolved[k] == key;
      i := |started| + k;
    }
  }

  /** Whatever part of a cycle's messages is delivered, the messages keep alternating. */
  lemma CycleAlternates(a: Alerts, c: Cycle)
    requires a.Inv() && Possible(a, c)
    ensures Alternates(Next(a, c).sent)
  {
    var msgs := Transitions(c.current, a.keys);
    TransitionsAreChanges(a, c.current);
    DeliveredOneEach(msgs, c.delivered);
    var sent := SentBy(a, c);
    forall i | 0 <= i < |sent| ensures sent[i].alarm == !Open(a.sent, sent[i].key) {
      var k := DeliveredIsPart(msgs, c.delivered, i);
    }
    AlternatesAfter(a.sent, sent);
  }

  /** A completed cycle leaves open exactly the keys it found breaching. */
  lemma CompletedCycleOpens(a: Alerts, c: Cycle, key: string)
    requires a.Inv() && Possible(a, c) && c.wrote
    ensures Open(Next(a, c).sent, key) <==> key in c.current
  {
    var msgs := Transitions(c.current, a.keys);
    TransitionsAreChanges(a, c.current);
    DeliveredAll(msgs, c.delivered);
    OpenAfter(a.sent, msgs, key);
    if (key in c.current) != (key in a.keys) {
      var i := TransitionFor(a, c.current, key);
    } else {
      forall i | 0 <= i < |msgs| ensures msgs[i].key != key { TransitionAt(a, c.current, i); }
    }
  }

  /** A cycle that stores nothing is harmless exactly when it also sent nothing. */
  lemma CutCycleIsHarmlessIff(a: Alerts, c: Cycle)
    requires a.Inv() && Possible(a, c) && !c.wrote
    ensures Next(a, c).Inv() <==> SentBy(a, c) == []
  {
    var sent := SentBy(a, c);
    if sent == [] {
      assert a.sent + sent == a.sent;
    } else {
      var msgs := Transitions(c.current, a.keys);
      TransitionsAreChanges(a, c.current);
      DeliveredOneEach(msgs, c.delivered);
      var k := DeliveredIsPart(msgs, c.delivered, 0);
      TransitionAt(a, c.current, k);
      OpenAfter(a.sent, sent, sent[0].key);
    }
  }

  /**
   * After a cycle that sent a message for the key but stored nothing, the next completed cycle
   * either repeats the message or leaves the key announced wrongly.
   */
  lemma CutCycleShows(a: Alerts, c: Cycle, d: Cycle, key: string, i: nat)
    requires a.Inv() && Possible(a, c) && !c.wrote && i < |SentBy(a, c)| && SentBy(a, c)[i].key == key
    requires Possible(Next(a, c), d) && d.wrote
    ensures var z := Next(Next(a, c), d);
      !Alternates(z.sent) || (Open(z.sent, key) <==> key !in d.current)
  {
    var msgs := Transitions(c.current, a.keys);
    TransitionsAreChanges(a, c.current);
    DeliveredOneEach(msgs, c.delivered);
    var k := DeliveredIsPart(msgs, c.delivered, i);
    TransitionAt(a, c.current, k);
    OpenAfter(a.sent, SentBy(a, c), key);
    var b := Next(a, c);
    assert Open(b.sent, key) <==> key !in a.keys;
    var more := Transitions(d.current, a.keys);
    DeliveredAll(more, d.delivered);
    TransitionsAreChanges(a, d.current);
    if (key in d.current) == (key in a.keys) {
      forall j | 0 <= j < |more| ensures more[j].key != key { TransitionAt(a, d.current, j); }
      OpenAfter(b.sent, more, key);
    } else {
      var j := TransitionFor(a, d.current, key);
      RepeatBreaks(b.sent, more, j);
    }
  }

  lemma {:induction false} RepeatBreaks(sent: seq<Message>, msgs: seq<Message>, j: nat)
    requires OneEach(msgs) && j < |msgs| && msgs[j].alarm == Open(sent, msgs[j].key)
    ensures !Alternates(sent + msgs)
    decreases |msgs|
  {
    var n := |msgs| - 1;
    assert (sent + msgs)[..|sent + msgs| - 1] == sent + msgs[..n];
    if j < n {
      RepeatBreaks(sent, msgs[..n], j);
    } else {
      OpenAfter(sent, msgs[..n], msgs[n].key);
    }
  }

  // ---- runs -----------------------------------------------------------------------------------------

  /** Publishes and the state write either all happen or none do. */
  ghost predicate AllOrNothing(a: Alerts, c: Cycle)
  {
    Possible(a, c) && (c.wrote || SentBy(a, c) == [])
  }

  ghost predicate CleanRun(a: Alerts, run: seq<Cycle>)
    decreases |run|
  {
    run == [] || (AllOrNothing(a, run[0]) && CleanRun(Next(a, run[0]), run[1..]))
  }

  ghost function After(a: Alerts, run: seq<Cycle>): Alerts
    decreases |run|
  {
    if run == [] then a else After(Next(a, run[0]), run[1..])
  }

  lemma CycleKeepsInv(a: Alerts, c: Cycle)
    requires a.Inv() && AllOrNothing(a, c)
    ensures Next(a, c).Inv()
  {
    if c.wrote {
      CycleAlternates(a, c);
      forall key ensures Open(Next(a, c).sent, key) <==> key in c.current { CompletedCycleOpens(a, c, key); }
    } else {
      CutCycleIsHarmlessIff(a, c);
    }
  }

  /** Over every clean run messages alternate, and the open keys are exactly the stored ones. */
  lemma {:induction false} AlertsAlternate(a: Alerts, run: seq<Cycle>)
    requires a.Inv() && CleanRun(a, run)
    ensures After(a, run).Inv()
    decreases |run|
  {
    if run != [] {
      CycleKeepsInv(a, run[0]);
      AlertsAlternate(Next(a, run[0]), run[1..]);
    }
  }

  // ---- the handler ------------------------------------------------------------------------------------

  class AlertState {
    /** The item ALERTSTATE#reliability; None before the first write. */
    var item: Option<seq<string>>
    ghost var sent: seq<Message>

    ghost function View(): Alerts
      reads this
    {
      Alerts(if item.Some? then item.value else [], sent)
    }

    constructor ()
      ensures View() == Alerts([], []) && View().Inv()
    {
      item, sent := None, [];
    }

    /** Every message is tried, whatever became of the others. */
    method Publish(publishes: seq<Message>, delivered: set<nat>) returns (failed: bool)
      modifies this`sent
      ensures sent == old(sent) + Delivered(publishes, delivered)
      ensures failed <==> exists k: nat :: k < |publishes| && k !in delivered
    {
      failed := false;
      for i := 0 to |publishes|
        invariant sent == old(sent) + Delivered(publishes[..i], delivered)
        invariant failed <==> exists k: nat :: k < i && k !in delivered
      {
        assert publishes[..i + 1][..i] == publishes[..i];
        if i in delivered { sent := sent + [publishes[i]]; } else { failed := true; }
      }
      assert publishes[..|publishes|] == publishes;
    }

    /** Publishes that fail and a failing write end the step with an error. */
    method PublishReliabilityAlerts(edges: seq<AlertEdge>, hasTopic: bool, delivered: set<nat>, writes: bool)
      returns (ok: bool, ghost c: Cycle)
      modifies this
      ensures !hasTopic ==> ok && View() == old(View())
      ensures hasTopic ==> View() == Next(old(View()), c) && ok == c.wrote
      ensures hasTopic ==> Possible(old(View()), c) && forall key :: key in c.current <==> Breaching(edges, key)
      ensures hasTopic ==> c.delivered == delivered && (c.wrote <==> writes && AllDelivered(old(View()), c))
    {
      c := Cycle([], {}, false);
      if !hasTopic { return true, c; }
      var rows := DetectReliabilityBreaches(edges);
      var current := KeysOfRows(rows);
      var prior := if item.Some? then item.value else [];
      var publishes := Transitions(current, prior);
      var failed := Publish(publishes, delivered);
      c := Cycle(current, delivered, !failed && writes);
      ok := !failed && writes;
      if ok { item := Some(current); }
    }
  }
}
