/** Merging one hour of 5-minute rows, and choosing the hours to merge (collector/src/rollup.ts). */
module Rollup {
  import opened Collections
  import opened FlowTypes

  const CAP_PER_GROUP := 200

  // ---- what one merged row is -------------------------------------------------

  /** The row that names an edge's endpoints: its latest bucket, the earliest row among equals. */
  function LatestOf(raw: seq<FlowEdge>, k: EdgeKey): (r: FlowEdge)
    requires CountOf(raw, k) > 0
    ensures r in raw && r.key == k
  {
    var n := |raw| - 1;
    assert raw == raw[..n] + [raw[n]];
    if raw[n].key != k then LatestOf(raw[..n], k)
    else if CountOf(raw[..n], k) == 0 then raw[n]
    else
      var prev := LatestOf(raw[..n], k);
      if raw[n].bucket > prev.bucket then raw[n] else prev
  }

  /** The hourly row of edge `k`: counters are summed, round-trip times are averaged. */
  function MergedEdge(raw: seq<FlowEdge>, k: EdgeKey, hour: int): (r: FlowEdge)
    requires CountOf(raw, k) > 0
    ensures r.key == k
  {
    var value := if k.group.metric.RoundTripTime? then SumOf(raw, k) / CountOf(raw, k) as real
                 else SumOf(raw, k);
    FlowEdge(k, hour, value, LatestOf(raw, k).detail)
  }

  /** Edges in the order of their first row: the iteration order of the accumulator map. */
  function EdgesOf(raw: seq<FlowEdge>): (ks: seq<EdgeKey>)
    ensures forall k :: k in ks <==> CountOf(raw, k) > 0
    ensures Distinct(ks)
  {
    if raw == [] then []
    else
      var n := |raw| - 1;
      var ks := EdgesOf(raw[..n]);
      if raw[n].key in ks then ks else ks + [raw[n].key]
  }

  /** Groups in the order of their first edge. */
  function GroupsOf(ks: seq<EdgeKey>): (gs: seq<GroupKey>)
    ensures forall g :: g in gs <==> exists k :: k in ks && k.group == g
    ensures Distinct(gs)
  {
    if ks == [] then []
    else
      var n := |ks| - 1;
      assert ks == ks[..n] + [ks[n]];
      var gs := GroupsOf(ks[..n]);
      if ks[n].group in gs then gs else gs + [ks[n].group]
  }

  function KeysOfGroup(ks: seq<EdgeKey>, g: GroupKey): (r: seq<EdgeKey>)
    ensures forall k :: k in r <==> k in ks && k.group == g
  {
    if ks == [] then []
    else
      var n := |ks| - 1;
      assert ks == ks[..n] + [ks[n]];
      KeysOfGroup(ks[..n], g) + if ks[n].group == g then [ks[n]] else []
  }

  /** The merged rows of the given edges, in order. */
  function MergedRows(raw: seq<FlowEdge>, ks: seq<EdgeKey>, hour: int): (r: seq<FlowEdge>)
    requires forall k :: k in ks ==> CountOf(raw, k) > 0
    ensures |r| == |ks| && forall i :: 0 <= i < |ks| ==> r[i] == MergedEdge(raw, ks[i], hour)
  {
    seq(|ks|, i requires 0 <= i < |ks| => MergedEdge(raw, ks[i], hour))
  }

  function GroupRows(raw: seq<FlowEdge>, g: GroupKey, hour: int): seq<FlowEdge>
  {
    MergedRows(raw, KeysOfGroup(EdgesOf(raw), g), hour)
  }

  // ---- the cap ----------------------------------------------------------------

  /** Stable insertion: `e` goes behind every row that is at least as large. */
  function Insert(sorted: seq<FlowEdge>, e: FlowEdge): seq<FlowEdge>
  {
    if sorted == [] then [e]
    else
      var n := |sorted| - 1;
      if sorted[n].value >= e.value then sorted + [e]
      else Insert(sorted[..n], e) + [sorted[n]]
  }

  /** `Array.prototype.sort` with the comparison `y.value - x.value`: stable, largest first. */
  function SortDesc(rows: seq<FlowEdge>): seq<FlowEdge>
  {
    if rows == [] then []
    else Insert(SortDesc(rows[..|rows| - 1]), rows[|rows| - 1])
  }

  function Take<T>(s: seq<T>, n: nat): (r: seq<T>)
    ensures |r| == if n < |s| then n else |s|
    ensures r <= s
  {
    if n < |s| then s[..n] else s
  }

  function TopRows(raw: seq<FlowEdge>, g: GroupKey, hour: int, cap: nat): seq<FlowEdge>
  {
    Take(SortDesc(GroupRows(raw, g, hour)), cap)
  }

  function TopOfGroups(raw: seq<FlowEdge>, gs: seq<GroupKey>, hour: int, cap: nat): seq<FlowEdge>
  {
    if gs == [] then []
    else
      var n := |gs| - 1;
      TopOfGroups(raw, gs[..n], hour, cap) + TopRows(raw, gs[n], hour, cap)
  }

  /** The hourly rows of an hour, as a function of its raw rows. */
  function MergeHour(raw: seq<FlowEdge>, hour: int, cap: nat := CAP_PER_GROUP): seq<FlowEdge>
  {
    TopOfGroups(raw, GroupsOf(EdgesOf(raw)), hour, cap)
  }

  ghost predicate SortedDesc(s: seq<FlowEdge>)
  {
    forall i, j :: 0 <= i < j < |s| ==> s[i].value >= s[j].value
  }

  lemma {:induction false} InsertMultiset(s: seq<FlowEdge>, e: FlowEdge)
    ensures multiset(Insert(s, e)) == multiset(s) + multiset{e}
  {
    if s != [] {
      var n := |s| - 1;
      assert s == s[..n] + [s[n]];
      if s[n].value < e.value { InsertMultiset(s[..n], e); }
    }
  }

  lemma {:induction false} InsertSorted(s: seq<FlowEdge>, e: FlowEdge)
    requires SortedDesc(s)
    ensures SortedDesc(Insert(s, e))
  {
    if s != [] {
      var n := |s| - 1;
      if s[n].value < e.value {
        InsertSorted(s[..n], e);
        var t := Insert(s[..n], e);
        InsertMultiset(s[..n], e);
        forall i | 0 <= i < |t| ensures t[i].value >= s[n].value {
          assert t[i] in multiset(t);
        }
      }
    }
  }

  lemma {:induction false} SortProperties(rows: seq<FlowEdge>)
    ensures SortedDesc(SortDesc(rows)) && multiset(SortDesc(rows)) == multiset(rows)
  {
    if rows != [] {
      var n := |rows| - 1;
      assert rows == rows[..n] + [rows[n]];
      SortProperties(rows[..n]);
      InsertSorted(SortDesc(rows[..n]), rows[n]);
      InsertMultiset(SortDesc(rows[..n]), rows[n]);
    }
  }

  lemma SameMultisetSameMembers(xs: seq<FlowEdge>, ys: seq<FlowEdge>)
    requires multiset(xs) == multiset(ys)
    ensures |xs| == |ys| && forall e :: e in xs <==> e in ys
  {
    assert |multiset(xs)| == |multiset(ys)|;
    forall e ensures e in xs <==> e in ys {
      assert e in multiset(xs) <==> e in multiset(ys);
    }
  }

  /** Reordering rows cannot introduce a duplicate key. */
  lemma DistinctUnderPermutation(xs: seq<FlowEdge>, ys: seq<FlowEdge>)
    requires DistinctKeys(xs) && multiset(xs) == multiset(ys)
    ensures DistinctKeys(ys)
  {
    forall i, j | 0 <= i < j < |ys| ensures ys[i].key != ys[j].key {
      SameMultisetSameMembers(xs, ys);
      assert ys[i] in xs && ys[j] in xs;
      if ys[i].key == ys[j].key {
        assert ys[i] == ys[j];
        assert ys == ys[..i] + [ys[i]] + ys[i + 1..j] + [ys[j]] + ys[j + 1..];
        assert multiset(ys)[ys[i]] >= 2;
        AtMostOnce(xs, ys[i]);
      }
    }
  }

  lemma {:induction false} AtMostOnce(xs: seq<FlowEdge>, e: FlowEdge)
    requires DistinctKeys(xs)
    ensures multiset(xs)[e] <= 1
  {
    if xs != [] {
      var n := |xs| - 1;
      assert xs == xs[..n] + [xs[n]];
      AtMostOnce(xs[..n], e);
      assert e in multiset(xs[..n]) <==> e in xs[..n];
    }
  }

  /** Within a group the kept rows are merged rows of that group, distinct, and the largest ones. */
  lemma TopRowsProperties(raw: seq<FlowEdge>, g: GroupKey, hour: int, cap: nat)
    ensures var top := TopRows(raw, g, hour, cap);
            && DistinctKeys(top)
            && (forall e :: e in top ==> e.key.group == g && CountOf(raw, e.key) > 0
                                         && e == MergedEdge(raw, e.key, hour))
            && |top| <= cap
            && (forall k: EdgeKey :: k.group == g && CountOf(raw, k) > 0 && MergedEdge(raw, k, hour) !in top ==>
                  |top| == cap && forall e :: e in top ==> e.value >= MergedEdge(raw, k, hour).value)
  {
    var rows, sorted := GroupRows(raw, g, hour), SortDesc(GroupRows(raw, g, hour));
    GroupRowsProperties(raw, g, hour);
    SortProperties(rows);
    SameMultisetSameMembers(rows, sorted);
    DistinctUnderPermutation(rows, sorted);
    var top := TopRows(raw, g, hour, cap);
    forall k: EdgeKey | k.group == g && CountOf(raw, k) > 0 && MergedEdge(raw, k, hour) !in top
      ensures |top| == cap && forall e :: e in top ==> e.value >= MergedEdge(raw, k, hour).value
    {
      var m := MergedEdge(raw, k, hour);
      assert m in sorted;
      LeftOutIsSmaller(sorted, cap, m);
    }
  }

  lemma LeftOutIsSmaller(sorted: seq<FlowEdge>, cap: nat, m: FlowEdge)
    requires SortedDesc(sorted) && m in sorted && m !in Take(sorted, cap)
    ensures |Take(sorted, cap)| == cap && forall e :: e in Take(sorted, cap) ==> e.value >= m.value
  {
    var j :| 0 <= j < |sorted| && sorted[j] == m;
    assert Take(sorted, cap) == sorted[..|Take(sorted, cap)|];
    assert j >= |Take(sorted, cap)|;
  }

  lemma MergedRowsProperties(raw: seq<FlowEdge>, ks: seq<EdgeKey>, hour: int)
    requires forall k :: k in ks ==> CountOf(raw, k) > 0
    requires Distinct(ks)
    ensures var rows := MergedRows(raw, ks, hour);
            && DistinctKeys(rows)
            && (forall e :: e in rows ==> e.key in ks && e == MergedEdge(raw, e.key, hour))
            && (forall k :: k in ks ==> MergedEdge(raw, k, hour) in rows)
  {
    var rows := MergedRows(raw, ks, hour);
    forall k | k in ks ensures MergedEdge(raw, k, hour) in rows {
      var i :| 0 <= i < |ks| && ks[i] == k;
      assert rows[i] == MergedEdge(raw, k, hour);
    }
  }

  lemma GroupRowsProperties(raw: seq<FlowEdge>, g: GroupKey, hour: int)
    ensures var rows := GroupRows(raw, g, hour);
            && DistinctKeys(rows)
            && (forall e :: e in rows ==> e.key.group == g && CountOf(raw, e.key) > 0
                                          && e == MergedEdge(raw, e.key, hour))
            && (forall k: EdgeKey :: k.group == g && CountOf(raw, k) > 0 ==> MergedEdge(raw, k, hour) in rows)
  {
    KeysOfGroupDistinct(EdgesOf(raw), g);
    MergedRowsProperties(raw, KeysOfGroup(EdgesOf(raw), g), hour);
  }

  lemma {:induction false} KeysOfGroupDistinct(ks: seq<EdgeKey>, g: GroupKey)
    requires Distinct(ks)
    ensures Distinct(KeysOfGroup(ks, g))
  {
    if ks != [] {
      var n := |ks| - 1;
      KeysOfGroupDistinct(ks[..n], g);
      assert forall k :: k in KeysOfGroup(ks[..n], g) ==> k in ks[..n];
    }
  }

  // ---- properties of the merge ------------------------------------------------

  /** How many of the hourly rows belong to group `g`. */
  function RowsInGroup(rows: seq<FlowEdge>, g: GroupKey): nat
  {
    if rows == [] then 0
    else RowsInGroup(rows[..|rows| - 1], g) + if rows[|rows| - 1].key.group == g then 1 else 0
  }

  lemma {:induction false} RowsInGroupConcat(xs: seq<FlowEdge>, ys: seq<FlowEdge>, g: GroupKey)
    ensures RowsInGroup(xs + ys, g) == RowsInGroup(xs, g) + RowsInGroup(ys, g)
  {
    if ys == [] {
      assert xs + ys == xs;
    } else {
      var n := |ys| - 1;
      assert (xs + ys)[..|xs + ys| - 1] == xs + ys[..n];
      RowsInGroupConcat(xs, ys[..n], g);
    }
  }

  lemma {:induction false} RowsInGroupUniform(rows: seq<FlowEdge>, g: GroupKey, h: GroupKey)
    requires forall e :: e in rows ==> e.key.group == h
    ensures RowsInGroup(rows, g) == if g == h then |rows| else 0
  {
    if rows != [] {
      var n := |rows| - 1;
      assert rows == rows[..n] + [rows[n]];
      RowsInGroupUniform(rows[..n], g, h);
    }
  }

  /**
   * What the hourly rows are, edge by edge: at most one row per edge, each the merged row of
   * its edge, at most `cap` per group; an edge is left out only when its group is full of
   * rows that are at least as large.
   */
  ghost predicate IsTopMerge(raw: seq<FlowEdge>, rows: seq<FlowEdge>, gs: seq<GroupKey>, hour: int, cap: nat)
  {
    && DistinctKeys(rows)
    && (forall e :: e in rows ==> e.key.group in gs && CountOf(raw, e.key) > 0
                                  && e == MergedEdge(raw, e.key, hour))
    && (forall g :: RowsInGroup(rows, g) <= cap)
    && (forall k: EdgeKey :: k.group in gs && CountOf(raw, k) > 0 && MergedEdge(raw, k, hour) !in rows ==>
          && RowsInGroup(rows, k.group) == cap
          && forall e :: e in rows && e.key.group == k.group ==> e.value >= MergedEdge(raw, k, hour).value)
  }

  lemma {:induction false} TopOfGroupsProperties(raw: seq<FlowEdge>, gs: seq<GroupKey>, hour: int, cap: nat)
    requires Distinct(gs)
    ensures IsTopMerge(raw, TopOfGroups(raw, gs, hour, cap), gs, hour, cap)
  {
    if gs != [] {
      var n := |gs| - 1;
      var g := gs[n];
      assert gs == gs[..n] + [g];
      TopOfGroupsProperties(raw, gs[..n], hour, cap);
      TopRowsProperties(raw, g, hour, cap);
      ExtendByGroup(raw, TopOfGroups(raw, gs[..n], hour, cap), gs[..n], g, hour, cap);
    }
  }

  lemma ExtendByGroup(raw: seq<FlowEdge>, left: seq<FlowEdge>, gs: seq<GroupKey>, g: GroupKey, hour: int, cap: nat)
    requires g !in gs && IsTopMerge(raw, left, gs, hour, cap)
    ensures IsTopMerge(raw, left + TopRows(raw, g, hour, cap), gs + [g], hour, cap)
  {
    var top := TopRows(raw, g, hour, cap);
    var rows := left + top;
    TopRowsProperties(raw, g, hour, cap);
    forall h
      ensures RowsInGroup(rows, h) == if h == g then |top| else RowsInGroup(left, h)
    {
      RowsInGroupConcat(left, top, h);
      RowsInGroupUniform(top, h, g);
      if h == g { RowsInGroupAbsent(left, h); }
    }
    forall k: EdgeKey | k.group in gs + [g] && CountOf(raw, k) > 0 && MergedEdge(raw, k, hour) !in rows
      ensures RowsInGroup(rows, k.group) == cap
      ensures forall e :: e in rows && e.key.group == k.group ==> e.value >= MergedEdge(raw, k, hour).value
    {
      if k.group == g {
        assert MergedEdge(raw, k, hour) !in top;
      } else {
        assert MergedEdge(raw, k, hour) !in left;
      }
    }
  }

  lemma {:induction false} RowsInGroupAbsent(rows: seq<FlowEdge>, g: GroupKey)
    requires forall e :: e in rows ==> e.key.group != g
    ensures RowsInGroup(rows, g) == 0
  {
    if rows != [] {
      var n := |rows| - 1;
      assert rows == rows[..n] + [rows[n]];
      RowsInGroupAbsent(rows[..n], g);
    }
  }

  /** The merge meets its declarative description, whatever raw rows it is given. */
  lemma MergeHourIsTopMerge(raw: seq<FlowEdge>, hour: int, cap: nat)
    ensures IsTopMerge(raw, MergeHour(raw, hour, cap), GroupsOf(EdgesOf(raw)), hour, cap)
  {
    TopOfGroupsProperties(raw, GroupsOf(EdgesOf(raw)), hour, cap);
  }

  /** Row i has the latest bucket of its edge, and is the first of its rows with that bucket. */
  ghost predicate FirstOfLatest(raw: seq<FlowEdge>, i: nat)
    requires i < |raw|
  {
    forall j :: 0 <= j < |raw| && raw[j].key == raw[i].key ==>
      raw[j].bucket < raw[i].bucket || (raw[j].bucket == raw[i].bucket && i <= j)
  }

  lemma {:induction false} LatestIsFirstOfLatest(raw: seq<FlowEdge>, k: EdgeKey) returns (i: nat)
    requires CountOf(raw, k) > 0
    ensures i < |raw| && raw[i] == LatestOf(raw, k) && raw[i].key == k && FirstOfLatest(raw, i)
  {
    var n := |raw| - 1;
    assert raw == raw[..n] + [raw[n]];
    if CountOf(raw[..n], k) == 0 {
      CountOfAbsent(raw[..n], k);
      i := n;
      forall j | 0 <= j < n ensures raw[j].key != k { assert raw[j] in raw[..n]; }
    } else {
      i := LatestIsFirstOfLatest(raw[..n], k);
      assert forall j :: 0 <= j < n ==> raw[j] == raw[..n][j];
      if raw[n].key == k && raw[n].bucket > raw[i].bucket { i := n; }
    }
  }

  lemma DividedTimes(m: real, s: real, c: nat)
    requires c > 0 && m == s / c as real
    ensures m * c as real == s
  {}

  lemma RowIsMerged(raw: seq<FlowEdge>, hour: int, cap: nat, e: FlowEdge)
    requires e in MergeHour(raw, hour, cap)
    ensures CountOf(raw, e.key) > 0 && e == MergedEdge(raw, e.key, hour)
  {
    MergeHourIsTopMerge(raw, hour, cap);
  }

  lemma MeanValue(raw: seq<FlowEdge>, k: EdgeKey, hour: int, c: nat)
    requires k.group.metric.RoundTripTime? && c == CountOf(raw, k) > 0
    ensures MergedEdge(raw, k, hour).value == SumOf(raw, k) / c as real
  {}

  lemma MergedIsMean(raw: seq<FlowEdge>, e: FlowEdge, hour: int, c: nat)
    requires c == CountOf(raw, e.key) > 0 && e == MergedEdge(raw, e.key, hour) && e.key.group.metric.RoundTripTime?
    ensures e.value * c as real == SumOf(raw, e.key)
  {
    MeanValue(raw, e.key, hour, c);
    DividedTimes(e.value, SumOf(raw, e.key), c);
  }

  /**
   * What an hourly row holds, in terms of the raw rows alone: of a counter the sum, and the payload
   * of the first row with the edge's latest bucket.
   */
  lemma MergedRowHolds(raw: seq<FlowEdge>, hour: int, cap: nat, e: FlowEdge)
    requires e in MergeHour(raw, hour, cap)
    ensures e.bucket == hour && CountOf(raw, e.key) > 0
    ensures IsCounter(e.key.group.metric) ==> e.value == SumOf(raw, e.key)
    ensures exists i :: 0 <= i < |raw| && raw[i].key == e.key && e.detail == raw[i].detail && FirstOfLatest(raw, i)
  {
    RowIsMerged(raw, hour, cap, e);
    var i := LatestIsFirstOfLatest(raw, e.key);
  }

  /** An hourly round-trip time is the mean of the c raw rows of its edge. */
  lemma MergedRowIsMean(raw: seq<FlowEdge>, hour: int, cap: nat, e: FlowEdge, c: nat)
    requires e in MergeHour(raw, hour, cap) && e.key.group.metric.RoundTripTime? && c == CountOf(raw, e.key)
    ensures c > 0 && e.value * c as real == SumOf(raw, e.key)
  {
    RowIsMerged(raw, hour, cap, e);
    MergedIsMean(raw, e, hour, c);
  }

  /** A group has no more edges than the cap keeps. */
  ghost predicate FitsCap(raw: seq<FlowEdge>, g: GroupKey, cap: nat)
  {
    |KeysOfGroup(EdgesOf(raw), g)| <= cap
  }

  lemma {:induction false} TopOfGroupsCount(raw: seq<FlowEdge>, gs: seq<GroupKey>, g: GroupKey, hour: int, cap: nat)
    requires Distinct(gs)
    requires FitsCap(raw, g, cap) && g in gs
    ensures forall k: EdgeKey ::
      k.group == g && CountOf(raw, k) > 0 ==> MergedEdge(raw, k, hour) in TopOfGroups(raw, gs, hour, cap)
  {
    var n := |gs| - 1;
    assert gs == gs[..n] + [gs[n]];
    if g == gs[n] {
      var rows := GroupRows(raw, g, hour);
      GroupRowsProperties(raw, g, hour);
      SortProperties(rows);
      SameMultisetSameMembers(rows, SortDesc(rows));
    } else {
      TopOfGroupsCount(raw, gs[..n], g, hour, cap);
    }
  }

  /**
   * Conservation: while its group fits the cap a counter keeps its exact hourly total;
   * beyond the cap, non-negative counters are never overstated.
   */
  lemma MergeConservesCounters(raw: seq<FlowEdge>, hour: int, cap: nat, k: EdgeKey)
    requires IsCounter(k.group.metric)
    ensures FitsCap(raw, k.group, cap) ==> SumOf(MergeHour(raw, hour, cap), k) == SumOf(raw, k)
    ensures (forall e :: e in raw ==> e.value >= 0.0) ==> SumOf(MergeHour(raw, hour, cap), k) <= SumOf(raw, k)
  {
    var rows := MergeHour(raw, hour, cap);
    var gs := GroupsOf(EdgesOf(raw));
    MergeHourIsTopMerge(raw, hour, cap);
    if CountOf(raw, k) == 0 {
      CountOfAbsent(raw, k);
      SumOfAbsent(raw, k);
      SumOfAbsent(rows, k);
    } else {
      var m := MergedEdge(raw, k, hour);
      assert k in EdgesOf(raw);
      assert k.group in gs;
      if m in rows {
        var i :| 0 <= i < |rows| && rows[i] == m;
        SumOfDistinct(rows, i);
      } else {
        SumOfAbsent(rows, k);
        if FitsCap(raw, k.group, cap) {
          TopOfGroupsCount(raw, gs, k.group, hour, cap);
          assert false;
        }
        if forall e :: e in raw ==> e.value >= 0.0 { SumOfNonNegative(raw, k); }
      }
    }
  }

  /** `x` added up `c` times. */
  function Times(c: nat, x: real): real
  {
    if c == 0 then 0.0 else Times(c - 1, x) + x
  }

  lemma OneMore(c: nat, x: real)
    ensures (c + 1) as real * x == c as real * x + x
  {
    assert (c + 1) as real == c as real + 1.0;
  }

  lemma {:induction false} TimesIsProduct(c: nat, x: real)
    ensures Times(c, x) == c as real * x
  {
    if c > 0 {
      TimesIsProduct(c - 1, x);
      OneMore(c - 1, x);
    }
  }

  lemma {:induction false} SumBetween(raw: seq<FlowEdge>, k: EdgeKey, lo: real, hi: real)
    requires forall e :: e in raw && e.key == k ==> lo <= e.value <= hi
    ensures Times(CountOf(raw, k), lo) <= SumOf(raw, k) <= Times(CountOf(raw, k), hi)
  {
    if raw != [] {
      var n := |raw| - 1;
      assert raw == raw[..n] + [raw[n]];
      SumBetween(raw[..n], k, lo, hi);
    }
  }

  /** A merged round-trip time lies between the smallest and the largest of its inputs. */
  lemma MergedRttIsBetween(raw: seq<FlowEdge>, k: EdgeKey, hour: int, lo: real, hi: real)
    requires k.group.metric.RoundTripTime? && CountOf(raw, k) > 0
    requires forall e :: e in raw && e.key == k ==> lo <= e.value <= hi
    ensures lo <= MergedEdge(raw, k, hour).value <= hi
  {
    SumBetween(raw, k, lo, hi);
    MeanBetween(SumOf(raw, k), CountOf(raw, k), lo, hi);
  }

  lemma MeanBetween(s: real, c: nat, lo: real, hi: real)
    requires c > 0 && Times(c, lo) <= s <= Times(c, hi)
    ensures lo <= s / c as real <= hi
  {
    TimesIsProduct(c, lo);
    TimesIsProduct(c, hi);
    ProductOrder(s / c as real, lo, c as real);
    ProductOrder(hi, s / c as real, c as real);
  }

  // ---- the loops --------------------------------------------------------------

  datatype Acc = Acc(edge: FlowEdge, sum: real, count: nat, latestBucket: int)

  ghost predicate AccMatches(acc: map<EdgeKey, Acc>, order: seq<EdgeKey>, raw: seq<FlowEdge>)
  {
    && order == EdgesOf(raw)
    && (forall k :: k in acc <==> k in order)
    && forall k :: k in acc ==>
         CountOf(raw, k) > 0
         && acc[k] == Acc(LatestOf(raw, k), SumOf(raw, k), CountOf(raw, k), LatestOf(raw, k).bucket)
  }

  /** The merged rows of one group, edge by edge. */
  ghost function RowsOfGroup(raw: seq<FlowEdge>, ks: seq<EdgeKey>, g: GroupKey, hour: int): seq<FlowEdge>
  {
    if ks == [] then []
    else
      var before, k := RowsOfGroup(raw, ks[..|ks| - 1], g, hour), ks[|ks| - 1];
      if k.group == g && CountOf(raw, k) > 0 then before + [MergedEdge(raw, k, hour)] else before
  }

  lemma {:induction false} RowsOfGroupAreMerged(raw: seq<FlowEdge>, ks: seq<EdgeKey>, g: GroupKey, hour: int)
    requires forall k :: k in ks ==> CountOf(raw, k) > 0
    ensures RowsOfGroup(raw, ks, g, hour) == MergedRows(raw, KeysOfGroup(ks, g), hour)
  {
    if ks != [] {
      var before, k := ks[..|ks| - 1], ks[|ks| - 1];
      assert ks == before + [k];
      RowsOfGroupAreMerged(raw, before, g, hour);
      if k.group == g { MergedRowsSnoc(raw, KeysOfGroup(before, g), k, hour); }
    }
  }

  ghost predicate GroupsMatch(groups: map<GroupKey, seq<FlowEdge>>, order: seq<GroupKey>,
                              raw: seq<FlowEdge>, ks: seq<EdgeKey>, hour: int)
  {
    && order == GroupsOf(ks)
    && (forall g :: g in groups <==> g in order)
    && forall g :: g in groups ==> groups[g] == RowsOfGroup(raw, ks, g, hour)
  }

  lemma AccNew(acc: map<EdgeKey, Acc>, order: seq<EdgeKey>, raw: seq<FlowEdge>, e: FlowEdge)
    requires AccMatches(acc, order, raw) && e.key !in acc
    ensures AccMatches(acc[e.key := Acc(e, e.value, 1, e.bucket)], order + [e.key], raw + [e])
  {
    AccPrefix(raw, e);
    CountOfAbsent(raw, e.key);
    SumOfAbsent(raw, e.key);
  }

  lemma AccMore(acc: map<EdgeKey, Acc>, order: seq<EdgeKey>, raw: seq<FlowEdge>, e: FlowEdge, cur: Acc)
    requires AccMatches(acc, order, raw) && e.key in acc
    requires var prev := acc[e.key];
             var later := e.bucket > prev.latestBucket;
             cur == Acc(if later then e else prev.edge, prev.sum + e.value, prev.count + 1,
                        if later then e.bucket else prev.latestBucket)
    ensures AccMatches(acc[e.key := cur], order, raw + [e])
  {
    AccPrefix(raw, e);
  }

  lemma AccPrefix(raw: seq<FlowEdge>, e: FlowEdge)
    ensures (raw + [e])[..|raw|] == raw && (raw + [e])[|raw|] == e
  {}

  lemma GroupsStep(groups: map<GroupKey, seq<FlowEdge>>, order: seq<GroupKey>,
                   raw: seq<FlowEdge>, ks: seq<EdgeKey>, k: EdgeKey, hour: int,
                   next: map<GroupKey, seq<FlowEdge>>, norder: seq<GroupKey>)
    requires CountOf(raw, k) > 0 && GroupsMatch(groups, order, raw, ks, hour)
    requires next == groups[k.group := (if k.group in groups then groups[k.group] else []) + [MergedEdge(raw, k, hour)]]
    requires norder == if k.group in groups then order else order + [k.group]
    ensures GroupsMatch(next, norder, raw, ks + [k], hour)
  {
    GroupsOfSnoc(ks, k);
    assert k.group in groups <==> k.group in order;
    InsertedKeys(groups, order, k.group, next[k.group]);
    forall h | h in next ensures next[h] == RowsOfGroup(raw, ks + [k], h, hour) {
      GroupStep(groups, order, raw, ks, k, hour, h);
    }
  }

  lemma GroupStep(groups: map<GroupKey, seq<FlowEdge>>, order: seq<GroupKey>,
                  raw: seq<FlowEdge>, ks: seq<EdgeKey>, k: EdgeKey, hour: int, h: GroupKey)
    requires CountOf(raw, k) > 0 && GroupsMatch(groups, order, raw, ks, hour) && (h in groups || h == k.group)
    ensures RowsOfGroup(raw, ks + [k], h, hour)
      == (if h in groups then groups[h] else []) + if h == k.group then [MergedEdge(raw, k, hour)] else []
  {
    RowsOfGroupSnoc(raw, ks, k, h, hour);
    if h !in groups { NoRowsOfGroup(raw, ks, h, hour); }
  }

  lemma GroupsOfSnoc(ks: seq<EdgeKey>, k: EdgeKey)
    ensures GroupsOf(ks + [k]) == if k.group in GroupsOf(ks) then GroupsOf(ks) else GroupsOf(ks) + [k.group]
  {
    assert (ks + [k])[..|ks|] == ks;
  }

  lemma RowsOfGroupSnoc(raw: seq<FlowEdge>, ks: seq<EdgeKey>, k: EdgeKey, g: GroupKey, hour: int)
    requires CountOf(raw, k) > 0
    ensures RowsOfGroup(raw, ks + [k], g, hour)
      == RowsOfGroup(raw, ks, g, hour) + if k.group == g then [MergedEdge(raw, k, hour)] else []
  {
    assert (ks + [k])[..|ks|] == ks;
  }

  /** A map and its insertion order stay in step when one key is set. */
  lemma InsertedKeys<K, V>(m: map<K, V>, order: seq<K>, k: K, v: V)
    requires forall x :: x in m <==> x in order
    ensures k in m ==> forall x :: x in m[k := v] <==> x in order
    ensures k !in m ==> forall x :: x in m[k := v] <==> x in order + [k]
  {}

  lemma {:induction false} NoRowsOfGroup(raw: seq<FlowEdge>, ks: seq<EdgeKey>, g: GroupKey, hour: int)
    requires g !in GroupsOf(ks)
    ensures RowsOfGroup(raw, ks, g, hour) == []
  {
    if ks != [] { NoRowsOfGroup(raw, ks[..|ks| - 1], g, hour); }
  }

  lemma MergedRowsSnoc(raw: seq<FlowEdge>, ks: seq<EdgeKey>, k: EdgeKey, hour: int)
    requires (forall x :: x in ks ==> CountOf(raw, x) > 0) && CountOf(raw, k) > 0
    ensures MergedRows(raw, ks + [k], hour) == MergedRows(raw, ks, hour) + [MergedEdge(raw, k, hour)]
  {}

  /** One accumulator per edge, then one list per group; both maps iterate in insertion order. */
  method MergeHourEdges(raw: seq<FlowEdge>, hour: int, cap: nat) returns (out: seq<FlowEdge>)
    ensures out == MergeHour(raw, hour, cap)
  {
    var order, acc := Accumulate(raw);
    var gorder, groups := GroupMerged(raw, order, acc, hour);
    out := [];
    for j := 0 to |gorder|
      invariant out == TopOfGroups(raw, gorder[..j], hour, cap)
    {
      PrefixSnoc(gorder, j);
      out := out + Take(SortDesc(groups[gorder[j]]), cap);
    }
    assert gorder[..|gorder|] == gorder;
  }

  method Accumulate(raw: seq<FlowEdge>) returns (order: seq<EdgeKey>, acc: map<EdgeKey, Acc>)
    ensures AccMatches(acc, order, raw)
  {
    order, acc := [], map[];
    for i := 0 to |raw|
      invariant AccMatches(acc, order, raw[..i])
    {
      var e := raw[i];
      PrefixSnoc(raw, i);
      if e.key !in acc {
        AccNew(acc, order, raw[..i], e);
        order, acc := order + [e.key], acc[e.key := Acc(e, e.value, 1, e.bucket)];
      } else {
        var cur := acc[e.key];
        cur := cur.(sum := cur.sum + e.value, count := cur.count + 1);
        if e.bucket > cur.latestBucket { cur := cur.(edge := e, latestBucket := e.bucket); }
        AccMore(acc, order, raw[..i], e, cur);
        acc := acc[e.key := cur];
      }
    }
    assert raw[..|raw|] == raw;
  }

  method GroupMerged(ghost raw: seq<FlowEdge>, order: seq<EdgeKey>, acc: map<EdgeKey, Acc>, hour: int)
    returns (gorder: seq<GroupKey>, groups: map<GroupKey, seq<FlowEdge>>)
    requires AccMatches(acc, order, raw)
    ensures gorder == GroupsOf(EdgesOf(raw)) && forall g :: g in gorder ==> g in groups
    ensures forall g :: g in groups ==> groups[g] == GroupRows(raw, g, hour)
  {
    gorder, groups := [], map[];
    for j := 0 to |order|
      invariant GroupsMatch(groups, gorder, raw, order[..j], hour)
    {
      var a := acc[order[j]];
      var merged := a.edge.(bucket := hour,
        value := if a.edge.key.group.metric.RoundTripTime? then a.sum / a.count as real else a.sum);
      assert merged == MergedEdge(raw, order[j], hour);
      var g := a.edge.key.group;
      PrefixSnoc(order, j);
      ghost var before, border := groups, gorder;
      if g !in groups { gorder := gorder + [g]; }
      groups := groups[g := (if g in groups then groups[g] else []) + [merged]];
      GroupsStep(before, border, raw, order[..j], order[j], hour, groups, gorder);
    }
    assert order[..|order|] == order;
    forall g | g in groups ensures groups[g] == GroupRows(raw, g, hour) { RowsOfGroupAreMerged(raw, order, g, hour); }
  }
}
