/** Which rows a time window reads: raw 5-minute rows, hourly rows, or both (app/src/lib/ddb.ts). */
module WindowPlanning {
  import opened Backfill
  import opened FlowTypes

  datatype Part = Raw(bucket: int) | Hourly(bucket: int)

  datatype Plan = Plan(parts: seq<Part>, buckets: seq<int>, windowSeconds: int)

  datatype PairPlan = PairPlan(current: seq<Part>, prior: seq<Part>, windowSeconds: int)

  const GRAIN_SWITCH_BUCKETS := 36

  /** The n most recent 5-minute buckets, newest first. */
  function RecentBuckets(n: nat, now: int): seq<int>
  {
    seq(n, i => BucketOf(now) - i * FIVE_MIN)
  }

  /** Closed hours, newest first, the first one ending at `openHourStart`. */
  function ClosedHourBuckets(hoursBack: nat, openHourStart: int): seq<int>
  {
    seq(hoursBack, i => openHourStart - (i + 1) * HOUR)
  }

  function RawParts(buckets: seq<int>): seq<Part>
  {
    seq(|buckets|, i requires 0 <= i < |buckets| => Raw(buckets[i]))
  }

  function HourlyParts(buckets: seq<int>): (ps: seq<Part>)
    ensures forall p :: p in ps ==> p.Hourly?
  {
    seq(|buckets|, i requires 0 <= i < |buckets| => Hourly(buckets[i]))
  }

  function BucketsOf(parts: seq<Part>): seq<int>
  {
    seq(|parts|, i requires 0 <= i < |parts| => parts[i].bucket)
  }

  /** `Math.round(n / 12)`: halves round up. */
  function HoursFor(n: nat): nat { (n + 6) / 12 }

  function TailCount(now: int): int { (BucketOf(now) - HourOf(now)) / FIVE_MIN + 1 }

  function WindowPlan(n: nat, now: int): Plan
  {
    if n <= GRAIN_SWITCH_BUCKETS then
      var buckets := RecentBuckets(n, now);
      Plan(RawParts(buckets), buckets, n * 300)
    else
      var h := HoursFor(n);
      var openHourStart := HourOf(now);
      var tailCount := TailCount(now);
      var tail := RecentBuckets(tailCount + 12, now);
      var hours := ClosedHourBuckets(h - 1, openHourStart - HOUR);
      var parts := RawParts(tail) + HourlyParts(hours);
      Plan(parts, BucketsOf(parts), (h - 1) * 3600 + (tailCount + 12) * 300)
  }

  function WindowPairPlan(n: nat, now: int): PairPlan
  {
    if n <= GRAIN_SWITCH_BUCKETS then
      var buckets := RecentBuckets(2 * n, now);
      PairPlan(RawParts(buckets[..n]), RawParts(buckets[n..]), n * 300)
    else
      var h := HoursFor(n);
      var hours := ClosedHourBuckets(2 * h, HourOf(now) - HOUR);
      PairPlan(HourlyParts(hours[..h]), HourlyParts(hours[h..]), h * 3600)
  }

  // ---- tiling -----------------------------------------------------------------

  function Span(p: Part): int { if p.Raw? then FIVE_MIN else HOUR }

  function TotalSpan(parts: seq<Part>): int
  {
    if parts == [] then 0 else Span(parts[0]) + TotalSpan(parts[1..])
  }

  /**
   * Newest first, each part ending exactly where its predecessor begins, the first one
   * ending at `end`: no gap and no overlap.
   */
  ghost predicate Tiles(parts: seq<Part>, end: int)
  {
    parts != [] ==>
      && parts[0].bucket % FIVE_MIN == 0
      && parts[0].bucket + Span(parts[0]) == end
      && Tiles(parts[1..], parts[0].bucket)
  }

  predicate Covers(p: Part, t: int) { p.bucket <= t < p.bucket + Span(p) }

  /** Tiling means that every instant of the window is read by exactly one part, and no other instant is. */
  lemma {:induction false} TilesPartition(parts: seq<Part>, end: int, t: int)
    requires Tiles(parts, end)
    ensures end - TotalSpan(parts) <= t < end <==> exists i :: 0 <= i < |parts| && Covers(parts[i], t)
    ensures forall i, j :: 0 <= i < j < |parts| && Covers(parts[i], t) ==> !Covers(parts[j], t)
  {
    if parts != [] {
      TotalSpanNonNegative(parts[1..]);
      TilesPartition(parts[1..], parts[0].bucket, t);
      if exists i :: 0 <= i < |parts[1..]| && Covers(parts[1..][i], t) {
        var i :| 0 <= i < |parts[1..]| && Covers(parts[1..][i], t);
        assert Covers(parts[i + 1], t);
      }
      if exists i :: 0 <= i < |parts| && Covers(parts[i], t) {
        var i :| 0 <= i < |parts| && Covers(parts[i], t);
        if i > 0 { assert Covers(parts[1..][i - 1], t); }
      }
      forall i, j | 0 <= i < j < |parts| && Covers(parts[i], t) ensures !Covers(parts[j], t) {
        assert parts[j] == parts[1..][j - 1];
        if i > 0 { assert parts[i] == parts[1..][i - 1]; }
      }
    }
  }

  lemma {:induction false} TotalSpanNonNegative(parts: seq<Part>)
    ensures TotalSpan(parts) >= 0
  {
    if parts != [] { TotalSpanNonNegative(parts[1..]); }
  }

  lemma {:induction false} RawRunTiles(n: nat, newest: int, s: seq<int>)
    requires |s| == n && newest % FIVE_MIN == 0
    requires forall i :: 0 <= i < n ==> s[i] == newest - i * FIVE_MIN
    ensures Tiles(RawParts(s), newest + FIVE_MIN) && TotalSpan(RawParts(s)) == n * FIVE_MIN
    decreases n
  {
    if n > 0 {
      RawRunTiles(n - 1, newest - FIVE_MIN, s[1..]);
      assert RawParts(s)[1..] == RawParts(s[1..]);
    }
  }

  lemma HourOnGrid(h: int)
    requires h % HOUR == 0
    ensures h % FIVE_MIN == 0
  {
    assert h == h / HOUR * (HOUR / FIVE_MIN) * FIVE_MIN;
  }

  lemma {:induction false} HourlyRunTiles(n: nat, end: int, s: seq<int>)
    requires |s| == n && end % HOUR == 0
    requires forall i :: 0 <= i < n ==> s[i] == end - (i + 1) * HOUR
    ensures Tiles(HourlyParts(s), end) && TotalSpan(HourlyParts(s)) == n * HOUR
    decreases n
  {
    if n > 0 {
      HourOnGrid(end - HOUR);
      HourlyRunTiles(n - 1, end - HOUR, s[1..]);
      assert HourlyParts(s)[1..] == HourlyParts(s[1..]);
    }
  }

  lemma {:induction false} TilesConcat(a: seq<Part>, b: seq<Part>, end: int)
    requires Tiles(a, end) && Tiles(b, end - TotalSpan(a))
    ensures Tiles(a + b, end) && TotalSpan(a + b) == TotalSpan(a) + TotalSpan(b)
  {
    if a == [] {
      assert a + b == b;
    } else {
      assert (a + b)[1..] == a[1..] + b;
      TilesConcat(a[1..], b, a[0].bucket);
    }
  }

  /** The first instant after the newest bucket. */
  function WindowEnd(now: int): int { BucketOf(now) + FIVE_MIN }

  lemma TailReachesHourBoundary(now: int)
    ensures TailCount(now) >= 1 && WindowEnd(now) - TailCount(now) * FIVE_MIN == HourOf(now)
  {
    assert HourOf(now) % FIVE_MIN == 0;
    assert BucketOf(now) >= HourOf(now);
  }

  /** A window plan tiles exactly the time it claims to cover, ending with the current bucket. */
  lemma WindowPlanTiles(n: nat, now: int)
    ensures var p := WindowPlan(n, now);
            && Tiles(p.parts, WindowEnd(now))
            && TotalSpan(p.parts) == p.windowSeconds * 1000
            && p.buckets == BucketsOf(p.parts)
  {
    if n <= GRAIN_SWITCH_BUCKETS {
      RawRunTiles(n, BucketOf(now), RecentBuckets(n, now));
      assert BucketsOf(RawParts(RecentBuckets(n, now))) == RecentBuckets(n, now);
    } else {
      var tail := RecentBuckets(TailCount(now) + 12, now);
      var hours := ClosedHourBuckets(HoursFor(n) - 1, HourOf(now) - HOUR);
      TailReachesHourBoundary(now);
      RawRunTiles(TailCount(now) + 12, BucketOf(now), tail);
      HourlyRunTiles(HoursFor(n) - 1, HourOf(now) - HOUR, hours);
      TilesConcat(RawParts(tail), HourlyParts(hours), WindowEnd(now));
    }
  }

  /** The n / 12 hours of n buckets, to the nearest hour; half an hour rounds up. */
  ghost predicate NearestHours(n: nat, h: nat) { 12 * h - 6 <= n < 12 * h + 6 }

  lemma HoursAreNearest(n: nat, h: nat)
    ensures NearestHours(n, h) <==> h == HoursFor(n)
  {}

  /** Up to three hours a plan reads exactly the n newest buckets, each as a raw row. */
  lemma ShortWindowReads(n: nat, now: int)
    requires n <= 36
    ensures var p := WindowPlan(n, now);
            && p.windowSeconds == 300 * n && |p.parts| == n
            && forall i :: 0 <= i < n ==> p.parts[i] == Raw(BucketOf(now) - i * FIVE_MIN)
  {}

  /**
   * Beyond three hours a plan reads from the nearest whole number of hours before the open hour
   * up to now: the open hour and the one before it raw, all others as hourly rows.
   */
  lemma LongWindowReads(n: nat, now: int, h: nat)
    requires n > 36 && NearestHours(n, h)
    ensures var p := WindowPlan(n, now);
            && Tiles(p.parts, WindowEnd(now)) && TotalSpan(p.parts) == WindowEnd(now) - HourOf(now) + h * HOUR
            && p.windowSeconds * 1000 == TotalSpan(p.parts)
            && forall x :: x in p.parts ==> (x.Raw? <==> HourOf(now) - HOUR <= x.bucket)
  {
    HoursAreNearest(n, h);
    WindowPlanTiles(n, now);
    TailReachesHourBoundary(now);
    forall x | x in WindowPlan(n, now).parts ensures x.Raw? <==> HourOf(now) - HOUR <= x.bucket {
      WindowPlanParts(n, now, x);
    }
  }

  /** The two halves of a pair plan are equally long and adjacent, the current one newer. */
  lemma PairPlanTiles(n: nat, now: int)
    ensures var p := WindowPairPlan(n, now);
            var end := if n <= GRAIN_SWITCH_BUCKETS then WindowEnd(now) else HourOf(now) - HOUR;
            && TotalSpan(p.current) == TotalSpan(p.prior) == p.windowSeconds * 1000
            && Tiles(p.current, end)
            && Tiles(p.prior, end - p.windowSeconds * 1000)
            && Tiles(p.current + p.prior, end)
  {
    var p := WindowPairPlan(n, now);
    if n <= GRAIN_SWITCH_BUCKETS {
      RawHalvesTile(n, BucketOf(now), RecentBuckets(2 * n, now));
      TilesConcat(p.current, p.prior, WindowEnd(now));
    } else {
      var h := HoursFor(n);
      HourlyHalvesTile(h, HourOf(now) - HOUR, ClosedHourBuckets(2 * h, HourOf(now) - HOUR));
      TilesConcat(p.current, p.prior, HourOf(now) - HOUR);
    }
  }

  /** Up to three hours the two halves are the n newest buckets and the n before them, all raw. */
  lemma ShortPairReads(n: nat, now: int)
    requires n <= 36
    ensures var p := WindowPairPlan(n, now);
            && p.windowSeconds == 300 * n && |p.current| == |p.prior| == n
            && forall i :: 0 <= i < n ==>
                 && p.current[i] == Raw(BucketOf(now) - i * FIVE_MIN)
                 && p.prior[i] == Raw(BucketOf(now) - (n + i) * FIVE_MIN)
  {
    var p, buckets := WindowPairPlan(n, now), RecentBuckets(2 * n, now);
    forall i | 0 <= i < n
      ensures p.current[i] == Raw(BucketOf(now) - i * FIVE_MIN)
      ensures p.prior[i] == Raw(BucketOf(now) - (n + i) * FIVE_MIN)
    {
      assert p.current[i] == Raw(buckets[i]) && p.prior[i] == Raw(buckets[n + i]);
    }
  }

  /**
   * Beyond three hours each half is the nearest whole number of hours, read as hourly rows, and
   * the current half ends one hour before the open hour.
   */
  lemma LongPairReads(n: nat, now: int, h: nat)
    requires n > 36 && NearestHours(n, h)
    ensures var p := WindowPairPlan(n, now);
            && p.windowSeconds == 3600 * h && |p.current| == |p.prior| == h
            && forall i :: 0 <= i < h ==>
                 && p.current[i] == Hourly(HourOf(now) - HOUR - (i + 1) * HOUR)
                 && p.prior[i] == Hourly(HourOf(now) - HOUR - (h + i + 1) * HOUR)
  {
    HoursAreNearest(n, h);
    var p, hours := WindowPairPlan(n, now), ClosedHourBuckets(2 * h, HourOf(now) - HOUR);
    forall i | 0 <= i < h
      ensures p.current[i] == Hourly(HourOf(now) - HOUR - (i + 1) * HOUR)
      ensures p.prior[i] == Hourly(HourOf(now) - HOUR - (h + i + 1) * HOUR)
    {
      assert p.current[i] == Hourly(hours[i]) && p.prior[i] == Hourly(hours[h + i]);
    }
  }

  lemma RawHalvesTile(n: nat, newest: int, s: seq<int>)
    requires |s| == 2 * n && newest % FIVE_MIN == 0
    requires forall i :: 0 <= i < |s| ==> s[i] == newest - i * FIVE_MIN
    ensures Tiles(RawParts(s[..n]), newest + FIVE_MIN) && TotalSpan(RawParts(s[..n])) == n * FIVE_MIN
    ensures Tiles(RawParts(s[n..]), newest + FIVE_MIN - n * FIVE_MIN) && TotalSpan(RawParts(s[n..])) == n * FIVE_MIN
  {
    RawRunTiles(n, newest, s[..n]);
    GridBack(newest / FIVE_MIN, n, FIVE_MIN);
    RawRunTiles(n, newest - n * FIVE_MIN, s[n..]);
  }

  lemma HourlyHalvesTile(h: nat, end: int, s: seq<int>)
    requires |s| == 2 * h && end % HOUR == 0
    requires forall i :: 0 <= i < |s| ==> s[i] == end - (i + 1) * HOUR
    ensures Tiles(HourlyParts(s[..h]), end) && TotalSpan(HourlyParts(s[..h])) == h * HOUR
    ensures Tiles(HourlyParts(s[h..]), end - h * HOUR) && TotalSpan(HourlyParts(s[h..])) == h * HOUR
  {
    HourlyRunTiles(h, end, s[..h]);
    GridBack(end / HOUR, h, HOUR);
    HourlyRunTiles(h, end - h * HOUR, s[h..]);
  }

  /** Whole steps back from a grid point stay on the grid. */
  lemma GridBack(q: int, n: nat, step: int)
    requires step == FIVE_MIN || step == HOUR
    ensures (q * step - n * step) % step == 0
  {
    assert q * step - n * step == (q - n) * step;
  }

  // ---- hourly rows are there when they are read ---------------------------------

  ghost predicate RowsReadable(parts: seq<Part>, now: int)
  {
    forall p :: p in parts && p.Hourly? ==> EligibleAt(p.bucket) + 55 * 60_000 <= now < EarliestExpiry(p.bucket)
  }

  lemma WindowPlanParts(n: nat, now: int, p: Part)
    requires n > GRAIN_SWITCH_BUCKETS && p in WindowPlan(n, now).parts
    ensures p.Hourly? ==> p.bucket % HOUR == 0
                          && HourOf(now) - HoursFor(n) * HOUR <= p.bucket <= HourOf(now) - 2 * HOUR
    ensures p.Raw? ==> p.bucket % FIVE_MIN == 0 && HourOf(now) - HOUR <= p.bucket <= now
  {
    var tail := RecentBuckets(TailCount(now) + 12, now);
    var hours := ClosedHourBuckets(HoursFor(n) - 1, HourOf(now) - HOUR);
    var parts := RawParts(tail) + HourlyParts(hours);
    var i :| 0 <= i < |parts| && parts[i] == p;
    if i < |tail| {
      assert parts[i] == Raw(tail[i]);
      TailBucket(now, i);
    } else {
      assert parts[i] == Hourly(hours[i - |tail|]);
      ClosedHour(now, HoursFor(n), i - |tail|);
    }
  }

  lemma TailBucket(now: int, i: nat)
    requires i < TailCount(now) + 12
    ensures (BucketOf(now) - i * FIVE_MIN) % FIVE_MIN == 0
    ensures HourOf(now) - HOUR <= BucketOf(now) - i * FIVE_MIN <= now
  {
    TailReachesHourBoundary(now);
    GridBack(now / FIVE_MIN, i, FIVE_MIN);
  }

  lemma ClosedHour(now: int, h: nat, i: nat)
    requires i < h - 1
    ensures (HourOf(now) - HOUR - (i + 1) * HOUR) % HOUR == 0
    ensures HourOf(now) - h * HOUR <= HourOf(now) - HOUR - (i + 1) * HOUR <= HourOf(now) - 2 * HOUR
  {
    GridBack(now / HOUR, i + 2, HOUR);
  }

  /** Up to seven days every hourly part has been eligible for 55 minutes and cannot have expired. */
  lemma WindowRowsReadable(n: nat, now: int)
    requires n <= 2016
    ensures RowsReadable(WindowPlan(n, now).parts, now)
  {
    forall p | p in WindowPlan(n, now).parts && p.Hourly?
      ensures EligibleAt(p.bucket) + 55 * 60_000 <= now < EarliestExpiry(p.bucket)
    {
      if n > GRAIN_SWITCH_BUCKETS { WindowPlanParts(n, now, p); }
    }
  }

  /**
   * A pair plan reads twice as far back. Its hourly rows are guaranteed to be readable at
   * every moment exactly up to 2153 buckets, 179 hours a half; seven days are 2016.
   */
  lemma PairRowsReadable(n: nat)
    requires n > GRAIN_SWITCH_BUCKETS
    ensures n <= 2153 <==> forall now ::
              RowsReadable(WindowPairPlan(n, now).current + WindowPairPlan(n, now).prior, now)
  {
    var h := HoursFor(n);
    HoursAreNearest(n, h);
    forall now
      ensures var p := WindowPairPlan(n, now);
        p.current + p.prior == HourlyParts(ClosedHourBuckets(2 * h, HourOf(now) - HOUR))
    {
    }
    if h <= 179 {
      forall now, p | p in HourlyParts(ClosedHourBuckets(2 * h, HourOf(now) - HOUR))
        ensures EligibleAt(p.bucket) + 55 * 60_000 <= now < EarliestExpiry(p.bucket)
      {
        var s := ClosedHourBuckets(2 * h, HourOf(now) - HOUR);
        var i :| 0 <= i < |s| && HourlyParts(s)[i] == p;
        assert p.bucket == HourOf(now) - HOUR - (i + 1) * HOUR;
      }
    } else {
      var now := HOUR - 1;
      var s := ClosedHourBuckets(2 * h, HourOf(now) - HOUR);
      var last := Hourly(s[2 * h - 1]);
      assert HourlyParts(s)[2 * h - 1] == last;
      assert last in HourlyParts(s);
      assert !(now < EarliestExpiry(last.bucket));
      assert !RowsReadable(WindowPairPlan(n, now).current + WindowPairPlan(n, now).prior, now);
    }
  }

  // ---- sums over a plan ---------------------------------------------------------

  /** The sum of a per-bucket quantity over the m buckets that end at `end`. */
  function SumBack(r: int -> real, end: int, m: nat): real
    decreases m
  {
    if m == 0 then 0.0 else r(end - FIVE_MIN) + SumBack(r, end - FIVE_MIN, m - 1)
  }

  lemma {:induction false} SumBackSplit(r: int -> real, end: int, a: nat, b: nat)
    ensures SumBack(r, end, a + b) == SumBack(r, end, a) + SumBack(r, end - a * FIVE_MIN, b)
    decreases a
  {
    if a > 0 { SumBackSplit(r, end - FIVE_MIN, a - 1, b); }
  }

  function SumParts(q: Part -> real, parts: seq<Part>): real
  {
    if parts == [] then 0.0 else q(parts[0]) + SumParts(q, parts[1..])
  }

  /** How many buckets a part covers. */
  function Width(p: Part): (n: nat)
    ensures n * FIVE_MIN == Span(p)
  {
    if p.Raw? then 1 else |FiveMinBucketsOfHour(p.bucket)|
  }

  /** The sum of a per-bucket quantity over the buckets of one part: one, or the twelve of an hour. */
  function PartTotal(r: int -> real, p: Part): real
  {
    SumBack(r, p.bucket + Span(p), Width(p))
  }

  lemma RawPartTotal(r: int -> real, p: Part)
    requires p.Raw?
    ensures PartTotal(r, p) == r(p.bucket)
  {
    assert SumBack(r, p.bucket + FIVE_MIN, 1) == r(p.bucket) + SumBack(r, p.bucket, 0);
  }

  /** If every part answers with its own total, a tiling plan answers with the total of the window. */
  lemma {:induction false} SumOverTiling(q: Part -> real, r: int -> real, parts: seq<Part>, end: int)
    requires Tiles(parts, end)
    requires forall p :: p in parts ==> q(p) == PartTotal(r, p)
    ensures TotalSpan(parts) >= 0 && TotalSpan(parts) % FIVE_MIN == 0
    ensures SumParts(q, parts) == SumBack(r, end, TotalSpan(parts) / FIVE_MIN)
  {
    if parts != [] {
      var p := parts[0];
      SumOverTiling(q, r, parts[1..], p.bucket);
      SumBackSplit(r, end, Width(p), TotalSpan(parts[1..]) / FIVE_MIN);
    }
  }

  lemma {:induction false} SumPartsMonotone(q: Part -> real, q': Part -> real, parts: seq<Part>)
    requires forall p :: p in parts ==> q(p) <= q'(p)
    ensures SumParts(q, parts) <= SumParts(q', parts)
  {
    if parts != [] {
      SumPartsMonotone(q, q', parts[1..]);
    }
  }

  /** The same with an upper bound in place of equality. */
  lemma SumOverTilingAtMost(q: Part -> real, r: int -> real, parts: seq<Part>, end: int)
    requires Tiles(parts, end)
    requires forall p :: p in parts ==> q(p) <= PartTotal(r, p)
    ensures TotalSpan(parts) >= 0 && SumParts(q, parts) <= SumBack(r, end, TotalSpan(parts) / FIVE_MIN)
  {
    var exact := p => PartTotal(r, p);
    SumOverTiling(exact, r, parts, end);
    SumPartsMonotone(q, exact, parts);
  }
}
