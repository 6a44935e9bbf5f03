/**
 * Overlapping collector cycles against the shared tables: raw writes, the hour-close rollup
 * with its marker-last rule, crashes, lost batch items and time-to-live expiry
 * (collector/src/handler.ts, rollup-store.ts, storage.ts).
 */
module CollectorProtocol {
  import opened Collections
  import opened FlowTypes
  import opened Rollup
  import opened Backfill

  const COLLECTOR_TIMEOUT := 270_000
  const RAW_TTL := 7 * DAY

  /** The partition of raw rows `FLOW#bucket#monitor`. */
  datatype Partition = Partition(bucket: int, monitor: string)

  type Flows = map<Partition, seq<FlowEdge>>

  function RowsOf(t: Flows, p: Partition): seq<FlowEdge> { if p in t then t[p] else [] }

  /** Writing an item replaces the item that has the same sort key. */
  function Upsert(rows: seq<FlowEdge>, e: FlowEdge): seq<FlowEdge>
  {
    if rows == [] then [e]
    else
      var n := |rows| - 1;
      if rows[n].key == e.key then rows[..n] + [e] else Upsert(rows[..n], e) + [rows[n]]
  }

  /** A written row is there, in place of the one with its key; all others stay, and no key gets a second row. */
  lemma {:induction false} UpsertIs(rows: seq<FlowEdge>, e: FlowEdge)
    requires DistinctKeys(rows)
    ensures DistinctKeys(Upsert(rows, e))
    ensures forall x :: x in Upsert(rows, e) <==> x == e || (x in rows && x.key != e.key)
  {
    if rows != [] {
      var n := |rows| - 1;
      assert rows == rows[..n] + [rows[n]];
      UpsertIs(rows[..n], e);
      if rows[n].key != e.key {
        var before := Upsert(rows[..n], e);
        forall i | 0 <= i < |before| ensures before[i].key != rows[n].key { assert before[i] in before; }
      }
    }
  }

  function PartitionOf(e: FlowEdge): Partition { Partition(e.bucket, e.key.group.monitor) }

  function PutRaw(t: Flows, e: FlowEdge): Flows
  {
    t[PartitionOf(e) := Upsert(RowsOf(t, PartitionOf(e)), e)]
  }

  function BucketPartitions(monitors: seq<string>, b: int): seq<Partition>
  {
    seq(|monitors|, i requires 0 <= i < |monitors| => Partition(b, monitors[i]))
  }

  function PartitionsFor(monitors: seq<string>, buckets: seq<int>): (ps: seq<Partition>)
    ensures forall p :: p in ps ==> p.bucket in buckets
  {
    if buckets == [] then []
    else BucketPartitions(monitors, buckets[0]) + PartitionsFor(monitors, buckets[1..])
  }

  /** The 12 buckets of an hour times the monitors, in the order they are queried. */
  function PartitionsOf(monitors: seq<string>, hour: int): seq<Partition>
  {
    PartitionsFor(monitors, FiveMinBucketsOfHour(hour))
  }

  function ReadAll(t: Flows, ps: seq<Partition>): seq<FlowEdge>
  {
    if ps == [] then [] else RowsOf(t, ps[0]) + ReadAll(t, ps[1..])
  }

  function HourRows(t: Flows, monitors: seq<string>, hour: int): seq<FlowEdge>
  {
    ReadAll(t, PartitionsOf(monitors, hour))
  }

  lemma {:induction false} ReadAllSame(a: Flows, b: Flows, ps: seq<Partition>)
    requires forall p :: p in ps ==> RowsOf(a, p) == RowsOf(b, p)
    ensures ReadAll(a, ps) == ReadAll(b, ps)
  {
    if ps != [] { ReadAllSame(a, b, ps[1..]); }
  }

  // ---- the machine ------------------------------------------------------------

  /**
   * One invocation: it first writes raw rows, then works through its list of hours, reading
   * an hour's partitions one by one, writing the merged rows one by one, and the marker last.
   */
  datatype Phase =
    | Collecting
    | Reading(hours: seq<int>, got: Flows)
    | Writing(hours: seq<int>, read: Flows, rows: seq<FlowEdge>, landed: set<nat>)

  datatype Cycle = Cycle(now: int, phase: Phase)

  datatype HourlyKey = HourlyKey(hour: int, edge: EdgeKey)

  datatype RawKey = RawKey(part: Partition, edge: EdgeKey)

  /** What some cycle read of an hour when it merged it. */
  datatype Attempt = Attempt(hour: int, read: Flows)

  /**
   * `expires` holds the time-to-live of the raw rows. `history` (raw rows without expiry),
   * `markedAt` (first marking), `merges` (every merge made) and `markedRead` (what the latest
   * marking cycle had read) only serve the statements.
   */
  datatype State = State(
    clock: int,
    monitors: seq<string>,
    raw: Flows,
    expires: map<RawKey, int>,
    history: Flows,
    hourly: map<HourlyKey, FlowEdge>,
    marks: set<int>,
    markedAt: map<int, int>,
    merges: set<Attempt>,
    markedRead: map<int, Flows>,
    cycles: map<nat, Cycle>)

  datatype Event =
    | Tick(to: int)
    | Start(id: nat)
    | WriteRaw(id: nat, edge: FlowEdge)
    | BeginRollup(id: nat, hours: seq<int>)
    | ReadPartition(id: nat, part: Partition)
    | Merge(id: nat)
    | PutRow(id: nat, row: nat)
    | GiveUpHour(id: nat)
    | Mark(id: nat)
    | Crash(id: nat)
    | ExpireRaw(part: Partition, at: nat)
    | ExpireRow(key: HourlyKey)
    | ExpireMark(hour: int)

  ghost predicate Init(s: State)
  {
    && s.raw == map[] && s.expires == map[] && s.history == map[] && s.hourly == map[] && s.marks == {}
    && s.markedAt == map[] && s.merges == {} && s.markedRead == map[] && s.cycles == map[]
  }

  /** A cycle acts only until the timeout kills it. */
  predicate Alive(s: State, id: nat)
  {
    id in s.cycles && s.clock <= s.cycles[id].now + COLLECTOR_TIMEOUT
  }

  predicate InPhase(s: State, id: nat, reading: bool)
  {
    && Alive(s, id)
    && var ph := s.cycles[id].phase;
       if reading then ph.Reading? && ph.hours != [] else ph.Writing? && ph.hours != []
  }

  ghost predicate Enabled(s: State, ev: Event)
  {
    match ev
    case Tick(t) => s.clock <= t
    case Start(id) => id !in s.cycles
    case WriteRaw(id, e) =>
      && Alive(s, id) && s.cycles[id].phase.Collecting?
      && e.bucket == BucketOf(s.cycles[id].now) && e.key.group.monitor in s.monitors
    case BeginRollup(id, hours) =>
      && Alive(s, id) && s.cycles[id].phase.Collecting?
      && IsEligibleChoice(s.cycles[id].now, s.marks, MAX_PER_CYCLE, hours)
    case ReadPartition(id, p) =>
      InPhase(s, id, true) && p in PartitionsOf(s.monitors, s.cycles[id].phase.hours[0])
    case Merge(id) =>
      && InPhase(s, id, true)
      && forall p :: p in PartitionsOf(s.monitors, s.cycles[id].phase.hours[0]) ==> p in s.cycles[id].phase.got
    case PutRow(id, i) => InPhase(s, id, false) && i < |s.cycles[id].phase.rows|
    case GiveUpHour(id) => InPhase(s, id, false)
    case Mark(id) =>
      // batchWriteAll returned 0: every row landed
      InPhase(s, id, false) && forall i :: 0 <= i < |s.cycles[id].phase.rows| ==> i in s.cycles[id].phase.landed
    case Crash(id) => id in s.cycles
    case ExpireRaw(p, i) =>
      && p in s.raw && i < |s.raw[p]|
      && var k := RawKey(p, s.raw[p][i].key); k in s.expires && s.expires[k] <= s.clock
    case ExpireRow(k) => k in s.hourly && EarliestExpiry(k.hour) <= s.clock
    case ExpireMark(h) => h in s.marks && EarliestExpiry(h) <= s.clock
  }

  /** The hourly rows that a cycle makes of what it read. */
  function MergedRead(s: State, h: int, read: Flows): seq<FlowEdge>
  {
    MergeHour(HourRows(read, s.monitors, h), h)
  }

  function Go(s: State, id: nat, ph: Phase): State
    requires id in s.cycles
  {
    s.(cycles := s.cycles[id := s.cycles[id].(phase := ph)])
  }

  ghost function Apply(s: State, ev: Event): State
    requires Enabled(s, ev)
  {
    match ev
    case Tick(t) => s.(clock := t)
    case Start(id) => s.(cycles := s.cycles[id := Cycle(s.clock, Collecting)])
    case WriteRaw(id, e) =>
      s.(raw := PutRaw(s.raw, e), history := PutRaw(s.history, e),
         expires := s.expires[RawKey(PartitionOf(e), e.key) := s.clock / 1000 * 1000 + RAW_TTL])
    case BeginRollup(id, hours) => Go(s, id, Reading(hours, map[]))
    case ReadPartition(id, p) =>
      var ph := s.cycles[id].phase;
      Go(s, id, ph.(got := ph.got[p := RowsOf(s.raw, p)]))
    case Merge(id) =>
      var ph := s.cycles[id].phase;
      Go(s.(merges := s.merges + {Attempt(ph.hours[0], ph.got)}), id,
         Writing(ph.hours, ph.got, MergedRead(s, ph.hours[0], ph.got), {}))
    case PutRow(id, i) =>
      var ph := s.cycles[id].phase;
      Go(s.(hourly := s.hourly[HourlyKey(ph.hours[0], ph.rows[i].key) := ph.rows[i]]), id,
        ph.(landed := ph.landed + {i}))
    case GiveUpHour(id) => Go(s, id, Reading(s.cycles[id].phase.hours[1..], map[]))
    case Mark(id) =>
      var h := s.cycles[id].phase.hours[0];
      Go(s.(marks := s.marks + {h}, markedAt := if h in s.markedAt then s.markedAt else s.markedAt[h := s.clock],
            markedRead := s.markedRead[h := s.cycles[id].phase.read]),
         id, Reading(s.cycles[id].phase.hours[1..], map[]))
    case Crash(id) => s.(cycles := s.cycles - {id})
    case ExpireRaw(p, i) => s.(raw := s.raw[p := s.raw[p][..i] + s.raw[p][i + 1..]])
    case ExpireRow(k) => s.(hourly := s.hourly - {k})
    case ExpireMark(h) => s.(marks := s.marks - {h})
  }

  /** No cycle does anything later than 270 seconds after its start, but that it may crash at any time. */
  lemma ActsInTime(s: State, ev: Event, id: nat)
    requires Enabled(s, ev)
    requires (ev.WriteRaw? || ev.BeginRollup? || ev.ReadPartition? || ev.Merge? || ev.PutRow? || ev.GiveUpHour?
              || ev.Mark?) && ev.id == id
    ensures id in s.cycles && s.clock - s.cycles[id].now <= 270_000
    ensures ev.WriteRaw? ==> ev.edge.bucket == s.cycles[id].now / 300_000 * 300_000
  {}

  /** Within that time it can write a row of its own bucket. */
  lemma CanWriteInTime(s: State, id: nat, e: FlowEdge)
    requires id in s.cycles && s.cycles[id].phase.Collecting? && s.clock - s.cycles[id].now <= 270_000
    requires e.bucket == s.cycles[id].now / 300_000 * 300_000 && e.key.group.monitor in s.monitors
    ensures Enabled(s, WriteRaw(id, e))
  {}

  /** Raw rows live for seven days from their write; rows and markers of an hour go when their time is over. */
  lemma ExpiryRemoves(s: State, ev: Event)
    requires Enabled(s, ev)
    ensures ev.WriteRaw? ==>
      Apply(s, ev).expires[RawKey(PartitionOf(ev.edge), ev.edge.key)] == s.clock / 1000 * 1000 + 604_800_000
    ensures ev.ExpireMark? ==> Apply(s, ev) == s.(marks := Apply(s, ev).marks) && ev.hour !in Apply(s, ev).marks
                               && Apply(s, ev).marks + {ev.hour} == s.marks
    ensures ev.ExpireRow? ==> Apply(s, ev) == s.(hourly := Apply(s, ev).hourly) && ev.key !in Apply(s, ev).hourly
                              && Apply(s, ev).hourly[ev.key := s.hourly[ev.key]] == s.hourly
    ensures ev.ExpireRaw? ==> Apply(s, ev) == s.(raw := Apply(s, ev).raw)
                              && |Apply(s, ev).raw[ev.part]| + 1 == |s.raw[ev.part]|
    ensures ev.Crash? ==> Apply(s, ev) == s.(cycles := Apply(s, ev).cycles) && ev.id !in Apply(s, ev).cycles
  {}

  /** The states of a run: an initial state followed by any interleaving of enabled events. */
  ghost predicate IsRun(states: seq<State>)
  {
    && states != [] && Init(states[0])
    && forall i :: 0 <= i < |states| - 1 ==> StepAt(states, i)
  }

  ghost predicate StepAt(states: seq<State>, i: nat)
  {
    i + 1 < |states| && Steps(states[i], states[i + 1])
  }

  ghost predicate Steps(s: State, s': State)
  {
    exists ev :: Enabled(s, ev) && s' == Apply(s, ev)
  }

  // ---- the invariant ----------------------------------------------------------

  /** The hourly rows that hour `h` should have. */
  function Merged(s: State, h: int): seq<FlowEdge> { MergedRead(s, h, s.history) }

  /** Everything cycle `c` reads of hour `h` is read before the hour's raw rows can expire. */
  predicate ReadsInTime(c: Cycle, h: int) { c.now + COLLECTOR_TIMEOUT < h + RAW_TTL }

  /** Every cycle that has written rows of `h` so far has read them in time. */
  predicate RolledUpInTime(s: State, h: int)
  {
    (if h in s.markedAt then s.markedAt[h] else s.clock) + COLLECTOR_TIMEOUT < h + RAW_TTL
  }

  ghost predicate TimesOk(s: State)
  {
    && (forall id :: id in s.cycles ==> s.cycles[id].now <= s.clock)
    && (forall h :: h in s.marks ==> h in s.markedAt)
    && (forall h :: h in s.markedAt ==> h % HOUR == 0 && EligibleAt(h) <= s.markedAt[h] <= s.clock)
    && (forall h :: h in s.markedAt && h !in s.marks ==> EarliestExpiry(h) <= s.clock)
    && (forall k :: k in s.hourly ==> k.hour % HOUR == 0 && EligibleAt(k.hour) <= s.clock)
    && (forall k :: k in s.expires ==> k.part.bucket + RAW_TTL <= s.expires[k])
  }

  ghost predicate RawOk(s: State)
  {
    forall p: Partition :: s.clock < p.bucket + RAW_TTL ==> RowsOf(s.raw, p) == RowsOf(s.history, p)
  }

  ghost predicate HoursOk(s: State, c: Cycle, hours: seq<int>)
  {
    forall h :: h in hours ==> InLookback(c.now, h) && (h in s.markedAt ==> c.now <= s.markedAt[h])
  }

  ghost predicate CycleOk(s: State, c: Cycle)
  {
    match c.phase
    case Collecting => true
    case Reading(hours, got) =>
      && HoursOk(s, c, hours)
      && (hours != [] && ReadsInTime(c, hours[0]) ==> GotIsHistory(s, hours[0], got))
    case Writing(hours, read, rows, landed) =>
      && hours != [] && HoursOk(s, c, hours)
      && (ReadsInTime(c, hours[0]) ==> rows == Merged(s, hours[0]))
      && (s.clock <= c.now + COLLECTOR_TIMEOUT ==>
            forall i :: i in landed ==> i < |rows| && HourlyKey(hours[0], rows[i].key) in s.hourly)
  }

  /** Only merged rows are stored for the hour. */
  ghost predicate OnlyMergedStored(s: State, h: int)
  {
    forall k :: k in s.hourly && k.hour == h ==> s.hourly[k].key == k.edge && s.hourly[k] in Merged(s, h)
  }

  /** All merged rows are stored for the hour. */
  ghost predicate AllMergedStored(s: State, h: int)
  {
    forall r :: r in Merged(s, h) ==> HourlyKey(h, r.key) in s.hourly
  }

  ghost predicate StoreOk(s: State)
  {
    forall h :: RolledUpInTime(s, h) ==>
      && OnlyMergedStored(s, h)
      && (h in s.marks && s.clock < EarliestExpiry(h) ==> AllMergedStored(s, h))
  }

  ghost predicate Inv(s: State)
  {
    && TimesOk(s) && RawOk(s) && StoreOk(s)
    && forall id :: id in s.cycles ==> CycleOk(s, s.cycles[id])
  }

  // ---- preservation, event by event ---------------------------------------------

  lemma PartitionsInHour(monitors: seq<string>, h: int)
    requires h % HOUR == 0
    ensures forall p :: p in PartitionsOf(monitors, h) ==> h <= p.bucket < h + HOUR && p.bucket % FIVE_MIN == 0
  {
    forall b | b in FiveMinBucketsOfHour(h) ensures h <= b < h + HOUR && b % FIVE_MIN == 0 {
      var i :| 0 <= i < |FiveMinBucketsOfHour(h)| && FiveMinBucketsOfHour(h)[i] == b;
      BucketInHour(h, i);
    }
  }

  lemma BucketInHour(h: int, i: int)
    requires h % HOUR == 0 && 0 <= i < |FiveMinBucketsOfHour(h)|
    ensures h <= h + i * FIVE_MIN < h + HOUR && (h + i * FIVE_MIN) % FIVE_MIN == 0
  {
    assert h + i * FIVE_MIN == (h / HOUR * (HOUR / FIVE_MIN) + i) * FIVE_MIN;
  }

  /** A raw write by a living cycle never falls into an hour that has become eligible. */
  lemma LateWriteMisses(s: State, id: nat, h: int)
    requires TimesOk(s) && Alive(s, id)
    requires h % HOUR == 0 && EligibleAt(h) <= s.clock
    ensures forall p :: p in PartitionsOf(s.monitors, h) ==> p.bucket != BucketOf(s.cycles[id].now)
  {
    PartitionsInHour(s.monitors, h);
  }

  lemma WriteRawKeepsHour(s: State, ev: Event, h: int)
    requires TimesOk(s) && ev.WriteRaw? && Enabled(s, ev)
    requires h % HOUR == 0 && EligibleAt(h) <= s.clock
    ensures forall p :: p in PartitionsOf(s.monitors, h) ==> RowsOf(Apply(s, ev).history, p) == RowsOf(s.history, p)
    ensures Merged(Apply(s, ev), h) == Merged(s, h)
  {
    LateWriteMisses(s, ev.id, h);
    ReadAllSame(Apply(s, ev).history, s.history, PartitionsOf(s.monitors, h));
  }

  /** A row lives at least seven days counted from its bucket. */
  lemma LivesFromBucket(s: State, id: nat)
    requires TimesOk(s) && Alive(s, id)
    ensures BucketOf(s.cycles[id].now) <= s.clock / 1000 * 1000
  {
    FloorKeepsGrid(BucketOf(s.cycles[id].now), s.clock);
  }

  /** Rounding down to whole seconds does not pass a bucket boundary. */
  lemma FloorKeepsGrid(b: int, t: int)
    requires b % FIVE_MIN == 0 && b <= t
    ensures b <= t / 1000 * 1000
  {
    var q := b / FIVE_MIN * 300;
    assert b == q * 1000;
    assert t / 1000 >= q;
  }

  lemma InvWriteRaw(s: State, ev: Event)
    requires Inv(s) && ev.WriteRaw? && Enabled(s, ev)
    ensures Inv(Apply(s, ev))
  {
    var s' := Apply(s, ev);
    LivesFromBucket(s, ev.id);
    forall p: Partition | s.clock < p.bucket + RAW_TTL ensures RowsOf(s'.raw, p) == RowsOf(s'.history, p) {
      assert RowsOf(s.raw, p) == RowsOf(s.history, p);
    }
    forall id | id in s'.cycles ensures CycleOk(s', s'.cycles[id]) {
      var c := s.cycles[id];
      assert CycleOk(s, c);
      if !c.phase.Collecting? && c.phase.hours != [] {
        assert c.phase.hours[0] in c.phase.hours;
        LookbackMeaning(c.now, c.phase.hours[0]);
        WriteRawKeepsHour(s, ev, c.phase.hours[0]);
      }
    }
    forall h | RolledUpInTime(s', h)
      ensures OnlyMergedStored(s', h) && (h in s'.marks && s'.clock < EarliestExpiry(h) ==> AllMergedStored(s', h))
    {
      assert RolledUpInTime(s, h);
      if h % HOUR == 0 && EligibleAt(h) <= s.clock { WriteRawKeepsHour(s, ev, h); }
    }
  }

  lemma InvTick(s: State, ev: Event)
    requires Inv(s) && ev.Tick? && Enabled(s, ev)
    ensures Inv(Apply(s, ev))
  {
    var s' := Apply(s, ev);
    forall id | id in s'.cycles ensures CycleOk(s', s'.cycles[id]) {
      assert CycleOk(s, s.cycles[id]);
    }
    forall h | RolledUpInTime(s', h)
      ensures OnlyMergedStored(s', h) && (h in s'.marks && s'.clock < EarliestExpiry(h) ==> AllMergedStored(s', h))
    {
      assert RolledUpInTime(s, h);
    }
  }

  /** Events that only touch one cycle leave the tables' part of the invariant alone. */
  lemma InvCycleOnly(s: State, s': State, id: nat)
    requires Inv(s)
    requires s' == s.(cycles := s'.cycles)
    requires forall i :: i in s'.cycles && i != id ==> i in s.cycles && s'.cycles[i] == s.cycles[i]
    requires id in s'.cycles ==> s'.cycles[id].now <= s.clock && CycleOk(s, s'.cycles[id])
    ensures Inv(s')
  {
    forall i | i in s'.cycles ensures CycleOk(s', s'.cycles[i]) && s'.cycles[i].now <= s.clock {
      if i != id { assert CycleOk(s, s.cycles[i]); }
    }
    forall h | RolledUpInTime(s', h)
      ensures OnlyMergedStored(s', h) && (h in s'.marks && s'.clock < EarliestExpiry(h) ==> AllMergedStored(s', h))
    {
      assert RolledUpInTime(s, h);
    }
  }

  lemma InvBeginRollup(s: State, ev: Event)
    requires Inv(s) && ev.BeginRollup? && Enabled(s, ev)
    ensures Inv(Apply(s, ev))
  {
    var c := s.cycles[ev.id];
    forall h | h in ev.hours ensures InLookback(c.now, h) && (h in s.markedAt ==> c.now <= s.markedAt[h]) {
      LookbackMeaning(c.now, h);
      assert h !in s.marks;
    }
    InvCycleOnly(s, Apply(s, ev), ev.id);
  }

  /** Reading in time reads everything written. */
  /** A read in time sees every row that was written. */
  lemma ReadSeesHistory(s: State, id: nat, p: Partition)
    requires Inv(s) && Enabled(s, ReadPartition(id, p)) && ReadsInTime(s.cycles[id], s.cycles[id].phase.hours[0])
    ensures RowsOf(s.raw, p) == RowsOf(s.history, p)
  {
    var c := s.cycles[id];
    assert CycleOk(s, c);
    assert c.phase.hours[0] in c.phase.hours;
    PartitionsInHour(s.monitors, c.phase.hours[0]);
  }

  ghost predicate GotIsHistory(s: State, h: int, got: Flows)
  {
    forall p :: p in got && p in PartitionsOf(s.monitors, h) ==> got[p] == RowsOf(s.history, p)
  }

  lemma GotOneMore(s: State, h: int, got: Flows, p: Partition, rows: seq<FlowEdge>)
    requires GotIsHistory(s, h, got) && rows == RowsOf(s.history, p)
    ensures GotIsHistory(s, h, got[p := rows])
  {}

  lemma ReadIsOk(s: State, id: nat, p: Partition)
    requires Inv(s) && Enabled(s, ReadPartition(id, p))
    ensures CycleOk(s, Apply(s, ReadPartition(id, p)).cycles[id])
  {
    var c := s.cycles[id];
    assert CycleOk(s, c);
    var h := c.phase.hours[0];
    if ReadsInTime(c, h) {
      ReadSeesHistory(s, id, p);
      GotOneMore(s, h, c.phase.got, p, RowsOf(s.raw, p));
    }
  }

  lemma InvReadPartition(s: State, ev: Event)
    requires Inv(s) && ev.ReadPartition? && Enabled(s, ev)
    ensures Inv(Apply(s, ev))
  {
    ReadIsOk(s, ev.id, ev.part);
    InvCycleOnly(s, Apply(s, ev), ev.id);
  }

  /** The notes about merges matter to nothing else. */
  lemma InvNotes(s: State, s': State)
    requires Inv(s) && s' == s.(merges := s'.merges)
    ensures Inv(s')
  {
    forall i | i in s'.cycles ensures CycleOk(s', s'.cycles[i]) { assert CycleOk(s, s.cycles[i]); }
    forall h | RolledUpInTime(s', h)
      ensures OnlyMergedStored(s', h) && (h in s'.marks && s'.clock < EarliestExpiry(h) ==> AllMergedStored(s', h))
    {
      assert RolledUpInTime(s, h);
    }
  }

  /** A merge of what was read in time is the merge of everything written. */
  lemma MergeIsOk(s: State, id: nat)
    requires Inv(s) && Enabled(s, Merge(id))
    ensures CycleOk(s, Apply(s, Merge(id)).cycles[id])
  {
    var c := s.cycles[id];
    assert CycleOk(s, c);
    var h := c.phase.hours[0];
    if ReadsInTime(c, h) {
      ReadAllSame(c.phase.got, s.history, PartitionsOf(s.monitors, h));
    }
  }

  lemma InvMerge(s: State, ev: Event)
    requires Inv(s) && ev.Merge? && Enabled(s, ev)
    ensures Inv(Apply(s, ev))
  {
    var s' := Apply(s, ev);
    MergeIsOk(s, ev.id);
    InvNotes(s, s.(merges := s'.merges));
    InvCycleOnly(s.(merges := s'.merges), s', ev.id);
  }

  lemma InvGiveUpHour(s: State, ev: Event)
    requires Inv(s) && ev.GiveUpHour? && Enabled(s, ev)
    ensures Inv(Apply(s, ev))
  {
    assert CycleOk(s, s.cycles[ev.id]);
    InvCycleOnly(s, Apply(s, ev), ev.id);
  }

  /** A cycle that works on `h` read it in time whenever all of the hour's writers did. */
  lemma InTimeCovers(s: State, c: Cycle, h: int)
    requires RolledUpInTime(s, h) && c.now <= s.clock && (h in s.markedAt ==> c.now <= s.markedAt[h])
    ensures ReadsInTime(c, h)
  {}

  /** What writing or marking hour `h` needs to know about the cycle doing it. */
  lemma WriterFacts(s: State, id: nat)
    requires Inv(s) && InPhase(s, id, false)
    ensures var c := s.cycles[id]; var h := c.phase.hours[0];
            && CycleOk(s, c) && h % HOUR == 0 && EligibleAt(h) <= c.now <= s.clock
            && s.clock < EarliestExpiry(h)
            && (RolledUpInTime(s, h) ==> c.phase.rows == Merged(s, h))
  {
    var c := s.cycles[id];
    assert CycleOk(s, c);
    var h := c.phase.hours[0];
    assert h in c.phase.hours;
    LookbackMeaning(c.now, h);
    if RolledUpInTime(s, h) { InTimeCovers(s, c, h); }
  }

  lemma CyclesAfterWrite(s: State, s': State, c: Cycle)
    requires CycleOk(s, c) && s' == s.(hourly := s'.hourly, marks := s'.marks, markedAt := s'.markedAt,
                                      markedRead := s'.markedRead, cycles := s'.cycles)
    requires forall k :: k in s.hourly ==> k in s'.hourly
    requires c.now <= s.clock
    requires forall h :: h in s'.markedAt ==> s'.markedAt[h] == if h in s.markedAt then s.markedAt[h] else s.clock
    ensures CycleOk(s', c)
  {}

  lemma StoreAfterPutRow(s: State, ev: Event)
    requires Inv(s) && ev.PutRow? && Enabled(s, ev)
    ensures StoreOk(Apply(s, ev))
  {
    var s' := Apply(s, ev);
    WriterFacts(s, ev.id);
    var ph := s.cycles[ev.id].phase;
    var h, r := ph.hours[0], ph.rows[ev.row];
    forall g | RolledUpInTime(s', g)
      ensures OnlyMergedStored(s', g) && (g in s'.marks && s'.clock < EarliestExpiry(g) ==> AllMergedStored(s', g))
    {
      assert RolledUpInTime(s, g);
      assert Merged(s', g) == Merged(s, g);
      if g == h { assert r in Merged(s, h); }
    }
  }

  lemma InvPutRow(s: State, ev: Event)
    requires Inv(s) && ev.PutRow? && Enabled(s, ev)
    ensures Inv(Apply(s, ev))
  {
    var s' := Apply(s, ev);
    WriterFacts(s, ev.id);
    StoreAfterPutRow(s, ev);
    forall i | i in s'.cycles ensures CycleOk(s', s'.cycles[i]) {
      CyclesAfterWrite(s, s', s.cycles[i]);
    }
  }

  /** Before its marker a cycle has every row it merged in the table. */
  lemma LandedRow(s: State, id: nat, r: FlowEdge)
    requires Inv(s) && Enabled(s, Mark(id)) && r in s.cycles[id].phase.rows
    ensures HourlyKey(s.cycles[id].phase.hours[0], r.key) in s.hourly
  {
    var ph := s.cycles[id].phase;
    assert CycleOk(s, s.cycles[id]);
    var i :| 0 <= i < |ph.rows| && ph.rows[i] == r;
    assert i in ph.landed;
  }

  lemma StoreAfterMark(s: State, ev: Event)
    requires Inv(s) && ev.Mark? && Enabled(s, ev)
    ensures StoreOk(Apply(s, ev))
  {
    var s' := Apply(s, ev);
    WriterFacts(s, ev.id);
    var ph := s.cycles[ev.id].phase;
    var h := ph.hours[0];
    forall g | RolledUpInTime(s', g)
      ensures OnlyMergedStored(s', g) && (g in s'.marks && s'.clock < EarliestExpiry(g) ==> AllMergedStored(s', g))
    {
      assert RolledUpInTime(s, g);
      assert Merged(s', g) == Merged(s, g);
      if g == h {
        forall r | r in Merged(s, h) ensures HourlyKey(h, r.key) in s.hourly { LandedRow(s, ev.id, r); }
      }
    }
  }

  lemma InvMark(s: State, ev: Event)
    requires Inv(s) && ev.Mark? && Enabled(s, ev)
    ensures Inv(Apply(s, ev))
  {
    var s' := Apply(s, ev);
    WriterFacts(s, ev.id);
    StoreAfterMark(s, ev);
    forall i | i in s'.cycles ensures CycleOk(s', s'.cycles[i]) {
      CyclesAfterWrite(s, s', s.cycles[i]);
    }
  }

  lemma InvExpireRaw(s: State, ev: Event)
    requires Inv(s) && ev.ExpireRaw? && Enabled(s, ev)
    ensures Inv(Apply(s, ev))
  {
    var s' := Apply(s, ev);
    CyclesAfterExpiry(s, s');
    forall g | RolledUpInTime(s', g)
      ensures OnlyMergedStored(s', g) && (g in s'.marks && s'.clock < EarliestExpiry(g) ==> AllMergedStored(s', g))
    {
      assert RolledUpInTime(s, g);
    }
  }

  lemma InvExpireRow(s: State, ev: Event)
    requires Inv(s) && ev.ExpireRow? && Enabled(s, ev)
    ensures Inv(Apply(s, ev))
  {
    var s' := Apply(s, ev);
    CyclesAfterExpiry(s, s');
    forall g | RolledUpInTime(s', g)
      ensures OnlyMergedStored(s', g) && (g in s'.marks && s'.clock < EarliestExpiry(g) ==> AllMergedStored(s', g))
    {
      assert RolledUpInTime(s, g);
    }
  }

  lemma InvExpireMark(s: State, ev: Event)
    requires Inv(s) && ev.ExpireMark? && Enabled(s, ev)
    ensures Inv(Apply(s, ev))
  {
    var s' := Apply(s, ev);
    CyclesAfterExpiry(s, s');
    forall g | RolledUpInTime(s', g)
      ensures OnlyMergedStored(s', g) && (g in s'.marks && s'.clock < EarliestExpiry(g) ==> AllMergedStored(s', g))
    {
      assert RolledUpInTime(s, g);
    }
  }

  /** A living cycle's rows are too young to expire. */
  lemma CyclesAfterExpiry(s: State, s': State)
    requires Inv(s) && s' == s.(raw := s'.raw, hourly := s'.hourly, marks := s'.marks)
    requires forall k :: k in s.hourly && k !in s'.hourly ==> EarliestExpiry(k.hour) <= s.clock
    ensures forall i :: i in s'.cycles ==> CycleOk(s', s'.cycles[i])
  {
    forall i | i in s'.cycles ensures CycleOk(s', s'.cycles[i]) {
      var c := s.cycles[i];
      assert CycleOk(s, c);
      if c.phase.Writing? {
        assert c.phase.hours[0] in c.phase.hours;
        LookbackMeaning(c.now, c.phase.hours[0]);
      }
    }
  }

  /** Every event keeps the invariant. */
  lemma InvPreserved(s: State, ev: Event)
    requires Inv(s) && Enabled(s, ev)
    ensures Inv(Apply(s, ev))
  {
    match ev
    case Tick(_) => InvTick(s, ev);
    case Start(id) => InvCycleOnly(s, Apply(s, ev), id);
    case WriteRaw(_, _) => InvWriteRaw(s, ev);
    case BeginRollup(_, _) => InvBeginRollup(s, ev);
    case ReadPartition(_, _) => InvReadPartition(s, ev);
    case Merge(_) => InvMerge(s, ev);
    case PutRow(_, _) => InvPutRow(s, ev);
    case GiveUpHour(_) => InvGiveUpHour(s, ev);
    case Mark(_) => InvMark(s, ev);
    case Crash(id) => InvCycleOnly(s, Apply(s, ev), id);
    case ExpireRaw(_, _) => InvExpireRaw(s, ev);
    case ExpireRow(_) => InvExpireRow(s, ev);
    case ExpireMark(_) => InvExpireMark(s, ev);
  }

  lemma {:induction false} InvHolds(states: seq<State>, i: nat)
    requires IsRun(states) && i < |states|
    ensures Inv(states[i])
  {
    if i > 0 {
      InvHolds(states, i - 1);
      assert StepAt(states, i - 1);
      var ev :| Enabled(states[i - 1], ev) && states[i] == Apply(states[i - 1], ev);
      InvPreserved(states[i - 1], ev);
    }
  }

  // ---- closed hours -------------------------------------------------------------

  /** Hour `h` is stored exactly: one row per merged edge, and nothing else. */
  ghost predicate StoredExactly(s: State, h: int)
  {
    && (forall r :: r in Merged(s, h) ==> HourlyKey(h, r.key) in s.hourly && s.hourly[HourlyKey(h, r.key)] == r)
    && (forall k :: k in s.hourly && k.hour == h ==> s.hourly[k].key == k.edge && s.hourly[k] in Merged(s, h))
  }

  /**
   * Complete: at every moment of every run, a marked hour that was rolled up while its raw
   * rows could not yet expire is stored exactly as the merge of everything ever written for
   * it, until its own rows expire.
   */
  lemma MarkedHourIsComplete(states: seq<State>, i: nat, h: int)
    requires IsRun(states) && i < |states|
    requires h in states[i].marks && states[i].clock < EarliestExpiry(h)
    requires h in states[i].markedAt && states[i].markedAt[h] + 270_000 < h + 604_800_000
    ensures StoredExactly(states[i], h)
  {
    var s := states[i];
    InvHolds(states, i);
    assert OnlyMergedStored(s, h) && AllMergedStored(s, h);
    forall r | r in Merged(s, h) ensures s.hourly[HourlyKey(h, r.key)] == r {
      MergeHourIsTopMerge(HourRows(s.history, s.monitors, h), h, CAP_PER_GROUP);
    }
  }

  lemma EventKeepsHour(s: State, ev: Event, h: int)
    requires Inv(s) && Enabled(s, ev)
    requires h % HOUR == 0 && EligibleAt(h) <= s.clock
    ensures Apply(s, ev).clock >= s.clock && Apply(s, ev).monitors == s.monitors
    ensures SameHour(s, Apply(s, ev), h)
    ensures h in s.markedAt ==> h in Apply(s, ev).markedAt && Apply(s, ev).markedAt[h] == s.markedAt[h]
  {
    if ev.WriteRaw? {
      WriteRawKeepsHour(s, ev, h);
    } else {
      assert Apply(s, ev).history == s.history;
    }
  }

  /** The raw rows ever written for hour `h` are the same in both states. */
  ghost predicate SameHour(s: State, s': State, h: int)
  {
    forall p :: p in PartitionsOf(s.monitors, h) ==> RowsOf(s'.history, p) == RowsOf(s.history, p)
  }

  lemma StepKeepsHour(states: seq<State>, j: nat, h: int)
    requires IsRun(states) && j + 1 < |states|
    requires h % HOUR == 0 && EligibleAt(h) <= states[j].clock
    ensures KeepsHour(states[j], states[j + 1], h)
  {
    InvHolds(states, j);
    assert StepAt(states, j);
    var ev :| Enabled(states[j], ev) && states[j + 1] == Apply(states[j], ev);
    EventKeepsHour(states[j], ev, h);
  }

  /** From s to s' hour `h` received no raw row and kept the time of its first marking. */
  ghost predicate KeepsHour(s: State, s': State, h: int)
  {
    && s'.clock >= s.clock && s'.monitors == s.monitors
    && SameHour(s, s', h)
    && (h in s.markedAt ==> h in s'.markedAt && s'.markedAt[h] == s.markedAt[h])
  }

  /**
   * Frozen: once an hour is eligible, and so once it is marked, no later step of any run
   * writes a raw row into it, whatever cycles are still running.
   */
  lemma {:induction false} ClosedHourIsFrozen(states: seq<State>, i: nat, j: nat, h: int)
    requires IsRun(states) && i <= j < |states|
    requires h % HOUR == 0 && EligibleAt(h) <= states[i].clock
    ensures KeepsHour(states[i], states[j], h)
    decreases j
  {
    if i < j {
      ClosedHourIsFrozen(states, i, j - 1, h);
      StepKeepsHour(states, j - 1, h);
      KeepsHourTransitive(states[i], states[j - 1], states[j], h);
    }
  }

  lemma KeepsHourTransitive(a: State, b: State, c: State, h: int)
    requires KeepsHour(a, b, h) && KeepsHour(b, c, h)
    ensures KeepsHour(a, c, h)
  {}

  lemma MarkedHourIsFrozen(states: seq<State>, i: nat, j: nat, h: int)
    requires IsRun(states) && i <= j < |states| && h in states[i].marks
    ensures SameHour(states[i], states[j], h)
    ensures Merged(states[j], h) == Merged(states[i], h)
    ensures RolledUpInTime(states[j], h) == RolledUpInTime(states[i], h)
  {
    InvHolds(states, i);
    ClosedHourIsFrozen(states, i, j, h);
    ReadAllSame(states[j].history, states[i].history, PartitionsOf(states[i].monitors, h));
  }

  /**
   * Which slots of a cycle's seven-day lookback are read in time: all but the two oldest
   * always, the oldest never, and the one before it exactly in cycles that start early enough
   * after its hour boundary.
   */
  lemma LookbackSlotsInTime(c: Cycle, i: nat)
    requires i < LOOKBACK_HOURS
    ensures ReadsInTime(c, LookbackHour(c.now, i)) <==>
              i <= 165 || (i == 166 && c.now + COLLECTOR_TIMEOUT < HourOf(c.now - CLOSE_GRACE) + HOUR)
  {}

  /**
   * Which buckets of a slot can have lost rows when the cycle reads them: bucket j of slot i
   * has its seven days, counted from its bucket, behind it at time t exactly from the moment
   * named. So up to slot 165 no bucket is at risk, in slot 166 at most the first two, and in
   * slot 167 the first always and any once its own time of day has passed.
   */
  lemma BucketsAtRisk(c: Cycle, i: nat, j: nat, t: int)
    requires i < LOOKBACK_HOURS && j < 12 && c.now <= t <= c.now + COLLECTOR_TIMEOUT
    ensures LookbackHour(c.now, i) + j * FIVE_MIN + RAW_TTL <= t <==>
              (i == 166 && j < 2 && HourOf(c.now - CLOSE_GRACE) + HOUR + j * FIVE_MIN <= t)
              || (i == 167 && HourOf(c.now - CLOSE_GRACE) + j * FIVE_MIN <= t)
    ensures i == 167 && j == 0 ==> LookbackHour(c.now, i) + j * FIVE_MIN + RAW_TTL <= t
  {}
}
