/**
 * The two-grain store refines the one-grain store: what the app reads through a window plan
 * is what the raw 5-minute rows of the same interval would give.
 */
module RollupRefinement {
  import opened Collections
  import opened FlowTypes
  import opened Rollup
  import opened Backfill
  import opened WindowPlanning
  import opened CollectorProtocol

  /** One edge's total over everything ever written for the bucket, all monitors. */
  ghost function BucketTotal(s: State, k: EdgeKey, b: int): real
  {
    SumOf(ReadAll(s.history, BucketPartitions(s.monitors, b)), k)
  }

  ghost function BucketTotals(s: State, k: EdgeKey): int -> real
  {
    b => BucketTotal(s, k, b)
  }

  /** What one edge contributes when `HFLOW#hour#monitor` is queried for each listed monitor. */
  function ReadHourly(s: State, monitors: seq<string>, k: EdgeKey, hour: int): real
  {
    if monitors == [] then 0.0
    else
      var n := |monitors| - 1;
      ReadHourly(s, monitors[..n], k, hour)
      + if monitors[n] == k.group.monitor && HourlyKey(hour, k) in s.hourly then
          s.hourly[HourlyKey(hour, k)].value
        else 0.0
  }

  /** What one edge sums to in the rows the app gets for one part of a plan. */
  function ReadPart(s: State, k: EdgeKey, p: Part): real
  {
    if p.Raw? then SumOf(ReadAll(s.raw, BucketPartitions(s.monitors, p.bucket)), k)
    else ReadHourly(s, s.monitors, k, p.bucket)
  }

  function ReadParts(s: State, k: EdgeKey, parts: seq<Part>): real
  {
    SumParts(p => ReadPart(s, k, p), parts)
  }

  lemma {:induction false} HourlySame(s: State, t: State, monitors: seq<string>, k: EdgeKey, hour: int)
    requires s.hourly == t.hourly
    ensures ReadHourly(s, monitors, k, hour) == ReadHourly(t, monitors, k, hour)
  {
    if monitors != [] { HourlySame(s, t, monitors[..|monitors| - 1], k, hour); }
  }

  /** What is read depends on the stored rows only. */
  lemma ReadsStoredRows(s: State, t: State, k: EdgeKey, p: Part)
    requires s.raw == t.raw && s.hourly == t.hourly && s.monitors == t.monitors
    ensures ReadPart(s, k, p) == ReadPart(t, k, p)
  {
    if p.Hourly? { HourlySame(s, t, s.monitors, k, p.bucket); }
  }

  // ---- one part -----------------------------------------------------------------

  lemma {:induction false} ReadAllConcat(t: Flows, a: seq<Partition>, b: seq<Partition>)
    ensures ReadAll(t, a + b) == ReadAll(t, a) + ReadAll(t, b)
  {
    if a == [] {
      assert a + b == b;
    } else {
      assert (a + b)[1..] == a[1..] + b;
      ReadAllConcat(t, a[1..], b);
    }
  }

  lemma FirstBucketTotal(s: State, k: EdgeKey, buckets: seq<int>)
    requires buckets != []
    ensures SumOf(ReadAll(s.history, PartitionsFor(s.monitors, buckets)), k)
         == BucketTotal(s, k, buckets[0]) + SumOf(ReadAll(s.history, PartitionsFor(s.monitors, buckets[1..])), k)
  {
    var first, rest := BucketPartitions(s.monitors, buckets[0]), PartitionsFor(s.monitors, buckets[1..]);
    ReadAllConcat(s.history, first, rest);
    SumOfConcat(ReadAll(s.history, first), ReadAll(s.history, rest), k);
  }

  ghost predicate Consecutive(buckets: seq<int>, b: int)
  {
    forall i :: 0 <= i < |buckets| ==> buckets[i] == b + i * FIVE_MIN
  }

  lemma ConsecutiveTail(buckets: seq<int>, b: int)
    requires Consecutive(buckets, b) && buckets != []
    ensures buckets[0] == b && Consecutive(buckets[1..], b + FIVE_MIN)
    ensures b + FIVE_MIN + |buckets[1..]| * FIVE_MIN == b + |buckets| * FIVE_MIN
  {}

  /** Any total that adds up bucket by bucket is the sum over consecutive buckets. */
  lemma {:induction false} ConsecutiveSum(f: seq<int> -> real, r: int -> real, b: int, buckets: seq<int>)
    requires Consecutive(buckets, b) && f([]) == 0.0
    requires forall bs: seq<int> :: bs != [] ==> f(bs) == r(bs[0]) + f(bs[1..])
    ensures f(buckets) == SumBack(r, b + |buckets| * FIVE_MIN, |buckets|)
    decreases |buckets|
  {
    if buckets != [] {
      ConsecutiveTail(buckets, b);
      ConsecutiveSum(f, r, b + FIVE_MIN, buckets[1..]);
      SumBackGrows(r, b, |buckets|, b + |buckets| * FIVE_MIN);
    }
  }

  /** The rows of consecutive buckets sum to the buckets' totals. */
  lemma BucketsTotal(s: State, k: EdgeKey, b: int, buckets: seq<int>)
    requires Consecutive(buckets, b)
    ensures SumOf(ReadAll(s.history, PartitionsFor(s.monitors, buckets)), k)
         == SumBack(BucketTotals(s, k), b + |buckets| * FIVE_MIN, |buckets|)
  {
    var f := (bs: seq<int>) => SumOf(ReadAll(s.history, PartitionsFor(s.monitors, bs)), k);
    forall bs: seq<int> | bs != [] ensures f(bs) == BucketTotals(s, k)(bs[0]) + f(bs[1..]) {
      FirstBucketTotal(s, k, bs);
    }
    ConsecutiveSum(f, BucketTotals(s, k), b, buckets);
  }

  lemma SumBackGrows(r: int -> real, b: int, n: nat, end: int)
    requires n > 0 && end == b + n * FIVE_MIN
    ensures SumBack(r, end, n) == r(b) + SumBack(r, end, n - 1)
  {
    SumBackLast(r, b, n);
  }

  /** The oldest of n buckets, split off the sum. */
  lemma SumBackLast(r: int -> real, b: int, n: nat)
    requires n > 0
    ensures SumBack(r, b + n * FIVE_MIN, n) == SumBack(r, b + n * FIVE_MIN, n - 1) + r(b)
  {
    SumBackSplit(r, b + n * FIVE_MIN, n - 1, 1);
    assert SumBack(r, b + FIVE_MIN, 1) == r(b) + SumBack(r, b, 0);
  }

  lemma HourTotal(s: State, k: EdgeKey, p: Part)
    requires p.Hourly?
    ensures SumOf(HourRows(s.history, s.monitors, p.bucket), k) == PartTotal(BucketTotals(s, k), p)
  {
    HourTotalOf(s, k, p, FiveMinBucketsOfHour(p.bucket));
  }

  lemma HourTotalOf(s: State, k: EdgeKey, p: Part, buckets: seq<int>)
    requires p.Hourly? && |buckets| == Width(p) && Consecutive(buckets, p.bucket)
    ensures SumOf(ReadAll(s.history, PartitionsFor(s.monitors, buckets)), k) == PartTotal(BucketTotals(s, k), p)
  {
    BucketsTotal(s, k, p.bucket, buckets);
    PartTotalIs(BucketTotals(s, k), p, p.bucket + |buckets| * FIVE_MIN, |buckets|);
  }

  lemma PartTotalIs(r: int -> real, p: Part, end: int, n: nat)
    requires n == Width(p) && end == p.bucket + n * FIVE_MIN
    ensures PartTotal(r, p) == SumBack(r, end, n)
  {}

  lemma {:induction false} ReadHourlyOnce(s: State, monitors: seq<string>, k: EdgeKey, hour: int)
    requires Distinct(monitors)
    ensures ReadHourly(s, monitors, k, hour) ==
            if k.group.monitor in monitors && HourlyKey(hour, k) in s.hourly then
              s.hourly[HourlyKey(hour, k)].value
            else 0.0
  {
    if monitors != [] {
      var n := |monitors| - 1;
      assert monitors == monitors[..n] + [monitors[n]];
      ReadHourlyOnce(s, monitors[..n], k, hour);
      assert monitors[n] !in monitors[..n];
    }
  }

  /** Reading a completely rolled up hour gives the sum of its merged rows. */
  lemma HourlyReadIsMergedSum(s: State, k: EdgeKey, h: int)
    requires Distinct(s.monitors) && k.group.monitor in s.monitors && StoredExactly(s, h)
    ensures ReadHourly(s, s.monitors, k, h) == SumOf(Merged(s, h), k)
  {
    var rows := Merged(s, h);
    ReadHourlyOnce(s, s.monitors, k, h);
    MergeHourIsTopMerge(HourRows(s.history, s.monitors, h), h, CAP_PER_GROUP);
    if HourlyKey(h, k) in s.hourly {
      var r := s.hourly[HourlyKey(h, k)];
      var i :| 0 <= i < |rows| && rows[i] == r;
      SumOfDistinct(rows, i);
    } else {
      SumOfAbsent(rows, k);
    }
  }

  /** The plan can rely on hour `h`: it is marked, was read in time, and its rows have not expired. */
  ghost predicate HourReady(s: State, h: int)
  {
    h in s.marks && RolledUpInTime(s, h) && s.clock < EarliestExpiry(h)
  }

  ghost predicate PlanReady(s: State, parts: seq<Part>)
  {
    forall p :: p in parts ==>
      if p.Raw? then s.clock < p.bucket + RAW_TTL else HourReady(s, p.bucket)
  }

  ghost predicate NonNegativeHistory(s: State)
  {
    forall p: Partition, e :: e in RowsOf(s.history, p) ==> e.value >= 0.0
  }

  lemma RawPartExact(s: State, k: EdgeKey, p: Part)
    requires RawOk(s) && p.Raw? && s.clock < p.bucket + RAW_TTL
    ensures ReadPart(s, k, p) == BucketTotal(s, k, p.bucket)
  {
    ReadAllSame(s.raw, s.history, BucketPartitions(s.monitors, p.bucket));
  }

  lemma {:induction false} ReadAllNonNegative(s: State, ps: seq<Partition>)
    requires NonNegativeHistory(s)
    ensures forall e :: e in ReadAll(s.history, ps) ==> e.value >= 0.0
  {
    if ps != [] { ReadAllNonNegative(s, ps[1..]); }
  }

  /** An hourly part is the sum of its twelve buckets; past the cap it is never larger. */
  lemma HourlyPartExact(states: seq<State>, i: nat, k: EdgeKey, p: Part)
    requires IsRun(states) && i < |states| && p.Hourly? && HourReady(states[i], p.bucket)
    requires Distinct(states[i].monitors) && k.group.monitor in states[i].monitors && IsCounter(k.group.metric)
    ensures var s := states[i]; var total := PartTotal(BucketTotals(s, k), p);
            && (FitsCap(HourRows(s.history, s.monitors, p.bucket), k.group, 200)
              ==> ReadPart(s, k, p) == total)
            && (NonNegativeHistory(s) ==> ReadPart(s, k, p) <= total)
  {
    var s := states[i];
    InvHolds(states, i);
    MarkedHourIsComplete(states, i, p.bucket);
    HourlyReadIsMergedSum(s, k, p.bucket);
    MergeConservesCounters(HourRows(s.history, s.monitors, p.bucket), p.bucket, CAP_PER_GROUP, k);
    HourTotal(s, k, p);
    if NonNegativeHistory(s) { ReadAllNonNegative(s, PartitionsOf(s.monitors, p.bucket)); }
  }

  // ---- whole plans ----------------------------------------------------------------

  /** No hour of the plan holds more edges of the group than the cap keeps. */
  ghost predicate UnderCap(s: State, parts: seq<Part>, g: GroupKey)
  {
    parts != [] ==>
      && (parts[0].Hourly? ==> FitsCap(HourRows(s.history, s.monitors, parts[0].bucket), g, 200))
      && UnderCap(s, parts[1..], g)
  }

  lemma {:induction false} UnderCapPart(s: State, parts: seq<Part>, g: GroupKey, p: Part)
    requires UnderCap(s, parts, g) && p in parts && p.Hourly?
    ensures FitsCap(HourRows(s.history, s.monitors, p.bucket), g, 200)
  {
    if p != parts[0] { UnderCapPart(s, parts[1..], g, p); }
  }

  /**
   * What the app reads for one edge: exactly the total of the m buckets that end at `end`
   * while no hour of the plan overflows the cap, and never more.
   */
  ghost predicate ReadsTotal(s: State, k: EdgeKey, parts: seq<Part>, end: int, m: nat)
  {
    var total := SumBack(BucketTotals(s, k), end, m);
    && (UnderCap(s, parts, k.group) ==> ReadParts(s, k, parts) == total)
    && (NonNegativeHistory(s) ==> ReadParts(s, k, parts) <= total)
  }

  /** Any tiling plan whose hours are ready reads what the raw rows of the interval sum to. */
  lemma PlanReadIsExact(states: seq<State>, i: nat, k: EdgeKey, parts: seq<Part>, end: int, m: nat)
    requires IsRun(states) && i < |states| && PlanReady(states[i], parts)
    requires Tiles(parts, end) && TotalSpan(parts) == m * FIVE_MIN
    requires Distinct(states[i].monitors) && k.group.monitor in states[i].monitors && IsCounter(k.group.metric)
    ensures ReadsTotal(states[i], k, parts, end, m)
  {
    if UnderCap(states[i], parts, k.group) { PlanReadExact(states, i, k, parts, end, m); }
    if NonNegativeHistory(states[i]) { PlanReadAtMost(states, i, k, parts, end, m); }
  }

  lemma SpanCounts(m: nat)
    ensures m * FIVE_MIN / FIVE_MIN == m
  {}

  lemma PlanReadExact(states: seq<State>, i: nat, k: EdgeKey, parts: seq<Part>, end: int, m: nat)
    requires IsRun(states) && i < |states| && PlanReady(states[i], parts) && Tiles(parts, end)
    requires Distinct(states[i].monitors) && k.group.monitor in states[i].monitors && IsCounter(k.group.metric)
    requires UnderCap(states[i], parts, k.group) && TotalSpan(parts) == m * FIVE_MIN
    ensures ReadParts(states[i], k, parts) == SumBack(BucketTotals(states[i], k), end, m)
  {
    var s := states[i];
    InvHolds(states, i);
    var q, r := p => ReadPart(s, k, p), BucketTotals(s, k);
    forall p | p in parts ensures q(p) == PartTotal(r, p) {
      if p.Raw? {
        RawPartExact(s, k, p);
        RawPartTotal(r, p);
      } else {
        UnderCapPart(s, parts, k.group, p);
        HourlyPartExact(states, i, k, p);
      }
    }
    SumOverTiling(q, r, parts, end);
    SpanCounts(m);
  }

  lemma PlanReadAtMost(states: seq<State>, i: nat, k: EdgeKey, parts: seq<Part>, end: int, m: nat)
    requires IsRun(states) && i < |states| && PlanReady(states[i], parts) && Tiles(parts, end)
    requires Distinct(states[i].monitors) && k.group.monitor in states[i].monitors && IsCounter(k.group.metric)
    requires NonNegativeHistory(states[i]) && TotalSpan(parts) == m * FIVE_MIN
    ensures ReadParts(states[i], k, parts) <= SumBack(BucketTotals(states[i], k), end, m)
  {
    var s := states[i];
    InvHolds(states, i);
    var q, r := p => ReadPart(s, k, p), BucketTotals(s, k);
    forall p | p in parts ensures q(p) <= PartTotal(r, p) {
      if p.Raw? {
        RawPartExact(s, k, p);
        RawPartTotal(r, p);
      } else {
        HourlyPartExact(states, i, k, p);
      }
    }
    SumOverTilingAtMost(q, r, parts, end);
    SpanCounts(m);
  }

  /** Every hourly part of a plan was marked, and in time. */
  ghost predicate HoursRolledUp(s: State, parts: seq<Part>)
  {
    forall p :: p in parts && p.Hourly? ==> p.bucket in s.marks && RolledUpInTime(s, p.bucket)
  }

  lemma WindowReady(s: State, n: nat)
    requires n <= 2016 && HoursRolledUp(s, WindowPlan(n, s.clock).parts)
    ensures PlanReady(s, WindowPlan(n, s.clock).parts)
  {
    var plan := WindowPlan(n, s.clock);
    WindowRowsReadable(n, s.clock);
    forall p | p in plan.parts ensures if p.Raw? then s.clock < p.bucket + RAW_TTL else HourReady(s, p.bucket) {
      if n > GRAIN_SWITCH_BUCKETS { WindowPlanParts(n, s.clock, p); }
    }
  }

  /** Where the current half of a pair plan ends. */
  function PairEnd(n: nat, now: int): int
  {
    if n <= 36 then WindowEnd(now) else HourOf(now) - HOUR
  }

  /** Both halves of a pair plan tile m buckets each, one after the other, and can be relied on. */
  lemma PairFacts(s: State, n: nat, plan: PairPlan, m: nat)
    requires n <= 2016 && plan == WindowPairPlan(n, s.clock) && plan.windowSeconds == m * 300
    requires HoursRolledUp(s, plan.current + plan.prior)
    ensures Tiles(plan.current, PairEnd(n, s.clock)) && Tiles(plan.prior, PairEnd(n, s.clock) - m * FIVE_MIN)
    ensures TotalSpan(plan.current) == TotalSpan(plan.prior) == m * FIVE_MIN
    ensures PlanReady(s, plan.current) && PlanReady(s, plan.prior)
  {
    PairPlanTiles(n, s.clock);
    if n <= GRAIN_SWITCH_BUCKETS { RawPairReady(s, n); } else { PairReady(s, n); }
  }

  /** A raw pair plan reaches back six hours at most. */
  lemma RawPairReady(s: State, n: nat)
    requires n <= GRAIN_SWITCH_BUCKETS
    ensures var p := WindowPairPlan(n, s.clock); PlanReady(s, p.current) && PlanReady(s, p.prior)
  {
    var p, buckets := WindowPairPlan(n, s.clock), RecentBuckets(2 * n, s.clock);
    forall x | x in p.current || x in p.prior ensures x.Raw? && s.clock < x.bucket + RAW_TTL {
      if x in p.current {
        var i :| 0 <= i < |p.current| && p.current[i] == x;
        assert x == Raw(buckets[i]);
      } else {
        var i :| 0 <= i < |p.prior| && p.prior[i] == x;
        assert x == Raw(buckets[n + i]);
      }
    }
  }

  lemma PairReady(s: State, n: nat)
    requires GRAIN_SWITCH_BUCKETS < n <= 2016
    requires var p := WindowPairPlan(n, s.clock); HoursRolledUp(s, p.current + p.prior)
    ensures var p := WindowPairPlan(n, s.clock); PlanReady(s, p.current) && PlanReady(s, p.prior)
  {
    var p := WindowPairPlan(n, s.clock);
    PairRowsReadable(n);
    assert RowsReadable(p.current + p.prior, s.clock);
    forall x | x in p.current || x in p.prior ensures x.Hourly? && HourReady(s, x.bucket) {
      assert x in p.current + p.prior;
    }
  }

  /**
   * How many buckets a window of n reads: n of them, or beyond three hours all from the nearest
   * whole number h of hours before the open hour on.
   */
  ghost predicate WindowLength(n: nat, now: int, h: nat, m: nat)
  {
    if n <= 36 then m == n else NearestHours(n, h) && m * FIVE_MIN == WindowEnd(now) - HourOf(now) + h * HOUR
  }

  lemma WindowLengthIs(n: nat, now: int, h: nat, m: nat)
    requires WindowLength(n, now, h, m)
    ensures WindowPlan(n, now).windowSeconds == m * 300
  {
    if n <= 36 { ShortWindowReads(n, now); } else { LongWindowReads(n, now, h); }
  }

  /**
   * At any moment of any run of overlapping, crashing collectors, a window of up to seven
   * days whose hours were rolled up in time gives each counter of each edge the total of the
   * raw 5-minute rows of the m buckets up to now.
   */
  lemma WindowReadRefinesRaw(states: seq<State>, i: nat, n: nat, k: EdgeKey, plan: Plan, h: nat, m: nat)
    requires IsRun(states) && i < |states| && n <= 2016
    requires Distinct(states[i].monitors) && k.group.monitor in states[i].monitors && IsCounter(k.group.metric)
    requires plan == WindowPlan(n, states[i].clock) && WindowLength(n, states[i].clock, h, m)
    requires HoursRolledUp(states[i], plan.parts)
    ensures ReadsTotal(states[i], k, plan.parts, WindowEnd(states[i].clock), m)
  {
    WindowPlanTiles(n, states[i].clock);
    WindowLengthIs(n, states[i].clock, h, m);
    WindowReady(states[i], n);
    PlanReadIsExact(states, i, k, plan.parts, WindowEnd(states[i].clock), m);
  }

  /** How many buckets each half of a pair plan reads. */
  ghost predicate PairLength(n: nat, h: nat, m: nat)
  {
    if n <= 36 then m == n else NearestHours(n, h) && m == 12 * h
  }

  lemma PairLengthIs(n: nat, now: int, h: nat, m: nat)
    requires PairLength(n, h, m)
    ensures WindowPairPlan(n, now).windowSeconds == m * 300
  {
    if n <= 36 { ShortPairReads(n, now); } else { LongPairReads(n, now, h); }
  }

  /**
   * The same for the two halves of a pair plan of any length, m buckets each: n, or beyond three
   * hours the nearest whole number of hours. The prior half ends where the current one begins;
   * over more than three hours the current half ends one hour before the open hour.
   */
  lemma PairReadRefinesRaw(states: seq<State>, i: nat, n: nat, k: EdgeKey, plan: PairPlan, h: nat, m: nat)
    requires IsRun(states) && i < |states| && n <= 2016
    requires Distinct(states[i].monitors) && k.group.monitor in states[i].monitors && IsCounter(k.group.metric)
    requires plan == WindowPairPlan(n, states[i].clock)
    requires PairLength(n, h, m)
    requires HoursRolledUp(states[i], plan.current + plan.prior)
    ensures ReadsTotal(states[i], k, plan.current, PairEnd(n, states[i].clock), m)
    ensures ReadsTotal(states[i], k, plan.prior, PairEnd(n, states[i].clock) - m * FIVE_MIN, m)
  {
    PairLengthIs(n, states[i].clock, h, m);
    PairReadExactly(states, i, n, k, plan, m);
  }

  lemma PairReadExactly(states: seq<State>, i: nat, n: nat, k: EdgeKey, plan: PairPlan, m: nat)
    requires IsRun(states) && i < |states| && n <= 2016
    requires Distinct(states[i].monitors) && k.group.monitor in states[i].monitors && IsCounter(k.group.metric)
    requires plan == WindowPairPlan(n, states[i].clock) && plan.windowSeconds == m * 300
    requires HoursRolledUp(states[i], plan.current + plan.prior)
    ensures ReadsTotal(states[i], k, plan.current, PairEnd(n, states[i].clock), m)
    ensures ReadsTotal(states[i], k, plan.prior, PairEnd(n, states[i].clock) - m * FIVE_MIN, m)
  {
    PairFacts(states[i], n, plan, m);
    HalvesReadExactly(states, i, k, plan.current, plan.prior, PairEnd(n, states[i].clock), m);
  }

  lemma HalvesReadExactly(
      states: seq<State>, i: nat, k: EdgeKey, current: seq<Part>, prior: seq<Part>, end: int, m: nat)
    requires IsRun(states) && i < |states| && PlanReady(states[i], current) && PlanReady(states[i], prior)
    requires Tiles(current, end) && Tiles(prior, end - m * FIVE_MIN)
    requires TotalSpan(current) == TotalSpan(prior) == m * FIVE_MIN
    requires Distinct(states[i].monitors) && k.group.monitor in states[i].monitors && IsCounter(k.group.metric)
    ensures ReadsTotal(states[i], k, current, end, m)
    ensures ReadsTotal(states[i], k, prior, end - m * FIVE_MIN, m)
  {
    PlanReadIsExact(states, i, k, current, end, m);
    PlanReadIsExact(states, i, k, prior, end - m * FIVE_MIN, m);
  }
}
