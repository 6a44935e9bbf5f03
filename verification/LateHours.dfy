/**
 * Hours that were rolled up when raw rows of theirs could already have expired: what a marker
 * still promises (collector/src/rollup-store.ts), and a run in which it promises too little.
 */
module LateHours {
  import opened Collections
  import opened FlowTypes
  import opened Rollup
  import opened Backfill
  import opened CollectorProtocol

  // ---- what a marker always promises ---------------------------------------------------------

  /** Every row of this merge has its key in the table. */
  ghost predicate KeysStored(s: State, h: int, read: Flows)
  {
    forall r :: r in MergedRead(s, h, read) ==> HourlyKey(h, r.key) in s.hourly
  }

  /** The stored row is one that some cycle merged for that hour and edge. */
  ghost predicate RowMerged(s: State, k: HourlyKey)
    requires k in s.hourly
  {
    s.hourly[k].key == k.edge
    && exists read :: Attempt(k.hour, read) in s.merges && s.hourly[k] in MergedRead(s, k.hour, read)
  }

  ghost predicate WriterOk(s: State, c: Cycle)
  {
    c.phase.Writing? && c.phase.hours != [] ==>
      && Attempt(c.phase.hours[0], c.phase.read) in s.merges
      && c.phase.rows == MergedRead(s, c.phase.hours[0], c.phase.read)
  }

  ghost predicate MarkerOk(s: State, h: int)
  {
    h in s.markedRead && Attempt(h, s.markedRead[h]) in s.merges
    && (s.clock < EarliestExpiry(h) ==> KeysStored(s, h, s.markedRead[h]))
  }

  ghost predicate LateInv(s: State)
  {
    && (forall id :: id in s.cycles ==> WriterOk(s, s.cycles[id]))
    && (forall h :: h in s.marks ==> MarkerOk(s, h))
    && (forall k :: k in s.hourly ==> RowMerged(s, k))
  }

  lemma RowStaysMerged(s: State, s': State, k: HourlyKey)
    requires k in s.hourly && k in s'.hourly && s'.hourly[k] == s.hourly[k] && RowMerged(s, k)
    requires s'.monitors == s.monitors && s.merges <= s'.merges
    ensures RowMerged(s', k)
  {
    var read :| Attempt(k.hour, read) in s.merges && s.hourly[k] in MergedRead(s, k.hour, read);
    assert Attempt(k.hour, read) in s'.merges && s'.hourly[k] in MergedRead(s', k.hour, read);
  }

  /** Events that neither write hourly rows nor mark, and forget no merge. */
  lemma LateFrame(s: State, s': State)
    requires LateInv(s) && s'.monitors == s.monitors && s.merges <= s'.merges && s.clock <= s'.clock
    requires s'.marks <= s.marks && s'.markedRead == s.markedRead
    requires forall k :: k in s'.hourly ==> k in s.hourly && s'.hourly[k] == s.hourly[k]
    requires forall k :: k in s.hourly && k !in s'.hourly ==> EarliestExpiry(k.hour) <= s.clock
    requires forall id :: id in s'.cycles ==> WriterOk(s', s'.cycles[id])
    ensures LateInv(s')
  {
    forall h | h in s'.marks ensures MarkerOk(s', h) { assert MarkerOk(s, h); }
    forall k | k in s'.hourly ensures RowMerged(s', k) { RowStaysMerged(s, s', k); }
  }

  lemma LatePutRow(s: State, ev: Event)
    requires Inv(s) && LateInv(s) && ev.PutRow? && Enabled(s, ev)
    ensures LateInv(Apply(s, ev))
  {
    var s', c := Apply(s, ev), s.cycles[ev.id];
    assert WriterOk(s, c);
    var h, r := c.phase.hours[0], c.phase.rows[ev.row];
    var key := HourlyKey(h, r.key);
    assert s'.hourly == s.hourly[key := r];
    forall id | id in s'.cycles ensures WriterOk(s', s'.cycles[id]) { assert WriterOk(s, s.cycles[id]); }
    forall g | g in s'.marks ensures MarkerOk(s', g) { assert MarkerOk(s, g); }
    forall k | k in s'.hourly ensures RowMerged(s', k) {
      if k == key {
        assert Attempt(h, c.phase.read) in s'.merges && r in MergedRead(s', h, c.phase.read);
      } else {
        RowStaysMerged(s, s', k);
      }
    }
  }

  /** Before its marker a cycle has every row of its merge in the table. */
  lemma AllLanded(s: State, id: nat)
    requires Inv(s) && LateInv(s) && Enabled(s, Mark(id))
    ensures var ph := s.cycles[id].phase; KeysStored(s, ph.hours[0], ph.read)
  {
    var ph := s.cycles[id].phase;
    assert WriterOk(s, s.cycles[id]);
    forall r | r in MergedRead(s, ph.hours[0], ph.read) ensures HourlyKey(ph.hours[0], r.key) in s.hourly {
      LandedRow(s, id, r);
    }
  }

  lemma LateMark(s: State, ev: Event)
    requires Inv(s) && LateInv(s) && ev.Mark? && Enabled(s, ev)
    ensures LateInv(Apply(s, ev))
  {
    var s', c := Apply(s, ev), s.cycles[ev.id];
    assert WriterOk(s, c) && CycleOk(s, c);
    var h := c.phase.hours[0];
    forall id | id in s'.cycles ensures WriterOk(s', s'.cycles[id]) { assert WriterOk(s, s.cycles[id]); }
    forall g | g in s'.marks ensures MarkerOk(s', g) {
      if g == h { AllLanded(s, ev.id); } else { assert MarkerOk(s, g); }
    }
    forall k | k in s'.hourly ensures RowMerged(s', k) { RowStaysMerged(s, s', k); }
  }

  lemma LateWriters(s: State, ev: Event)
    requires Inv(s) && LateInv(s) && !ev.PutRow? && !ev.Mark? && Enabled(s, ev)
    ensures forall id :: id in Apply(s, ev).cycles ==> WriterOk(Apply(s, ev), Apply(s, ev).cycles[id])
  {
    var s' := Apply(s, ev);
    forall id | id in s'.cycles ensures WriterOk(s', s'.cycles[id]) {
      if id in s.cycles { assert WriterOk(s, s.cycles[id]); }
    }
  }

  lemma LateFacts(s: State, ev: Event)
    requires !ev.PutRow? && !ev.Mark? && Enabled(s, ev)
    ensures var s' := Apply(s, ev);
      && s'.monitors == s.monitors && s.merges <= s'.merges && s.clock <= s'.clock
      && s'.marks <= s.marks && s'.markedRead == s.markedRead
      && (forall k :: k in s'.hourly ==> k in s.hourly && s'.hourly[k] == s.hourly[k])
      && forall k :: k in s.hourly && k !in s'.hourly ==> EarliestExpiry(k.hour) <= s.clock
  {}

  lemma LateOther(s: State, ev: Event)
    requires Inv(s) && LateInv(s) && !ev.PutRow? && !ev.Mark? && Enabled(s, ev)
    ensures LateInv(Apply(s, ev))
  {
    LateWriters(s, ev);
    LateFacts(s, ev);
    LateFrame(s, Apply(s, ev));
  }

  lemma LatePreserved(s: State, ev: Event)
    requires Inv(s) && LateInv(s) && Enabled(s, ev)
    ensures LateInv(Apply(s, ev))
  {
    if ev.PutRow? {
      LatePutRow(s, ev);
    } else if ev.Mark? {
      LateMark(s, ev);
    } else {
      LateOther(s, ev);
    }
  }

  lemma LateStep(s: State, s': State)
    requires Inv(s) && LateInv(s) && Steps(s, s')
    ensures LateInv(s')
  {
    var ev :| Enabled(s, ev) && s' == Apply(s, ev);
    LatePreserved(s, ev);
  }

  lemma {:induction false} LateInvHolds(states: seq<State>, i: nat)
    requires IsRun(states) && i < |states|
    ensures LateInv(states[i])
  {
    if i > 0 {
      LateInvHolds(states, i - 1);
      InvHolds(states, i - 1);
      assert StepAt(states, i - 1);
      LateStep(states[i - 1], states[i]);
    }
  }

  /**
   * Whatever the hour's age: in every run, until its rows can expire, a marked hour has a row
   * stored for every edge in the merge of what the marking cycle read, and every stored row of
   * the hour is a row that some cycle merged from what it read of it.
   */
  lemma MarkedHourHoldsWhatWasRead(states: seq<State>, i: nat, h: int)
    requires IsRun(states) && i < |states| && h in states[i].marks && states[i].clock < EarliestExpiry(h)
    ensures var s := states[i];
      && h in s.markedRead && Attempt(h, s.markedRead[h]) in s.merges && KeysStored(s, h, s.markedRead[h])
      && forall k :: k in s.hourly && k.hour == h ==> RowMerged(s, k)
  {
    LateInvHolds(states, i);
    assert MarkerOk(states[i], h);
  }

  // ---- a run in which the oldest slot comes too late --------------------------------------------

  ghost predicate Reachable(s: State)
  {
    exists states :: IsRun(states) && states[|states| - 1] == s
  }

  lemma ReachStep(s: State, ev: Event)
    requires Reachable(s) && Enabled(s, ev)
    ensures Reachable(Apply(s, ev))
  {
    var states :| IsRun(states) && states[|states| - 1] == s;
    var more := states + [Apply(s, ev)];
    assert Steps(s, Apply(s, ev));
    forall i: nat | i < |more| - 1 ensures StepAt(more, i) {
      if i < |states| - 1 { assert StepAt(states, i); }
    }
    assert IsRun(more);
  }

  /** The first moment at which the hour that starts at 0 is the oldest slot of a lookback. */
  const LATE := RAW_TTL + CLOSE_GRACE

  function FirstSlots(n: nat): set<int> { set i | 0 <= i < n :: LookbackHour(LATE, i) }

  /** It is that moment, all raw rows are gone, one was written, and nothing is stored yet. */
  ghost predicate Quiet(s: State, m: string, e: FlowEdge)
  {
    && s.clock == LATE && s.monitors == [m] && s.hourly == map[]
    && s.history == map[Partition(0, m) := [e]]
    && forall p: Partition :: RowsOf(s.raw, p) == []
  }

  /** A row is written in the first bucket of the hour, and expires seven days later. */
  lemma RowExpires(m: string, e: FlowEdge) returns (s: State)
    requires e.bucket == 0 && e.key.group.monitor == m
    ensures Reachable(s) && Quiet(s, m, e) && s.marks == {} && s.cycles == map[]
  {
    s := RowIsWritten(m, e);
    s := Do(s, Tick(LATE));
    s := Do(s, ExpireRaw(Partition(0, m), 0));
  }

  lemma RowIsWritten(m: string, e: FlowEdge) returns (s: State)
    requires e.bucket == 0 && e.key.group.monitor == m
    ensures Reachable(s) && s.clock == 0 && s.monitors == [m] && s.hourly == map[] && s.marks == {} && s.cycles == map[]
    ensures s.raw == s.history == map[Partition(0, m) := [e]]
      && s.expires == map[RawKey(Partition(0, m), e.key) := RAW_TTL]
  {
    s := State(0, [m], map[], map[], map[], map[], {}, map[], {}, map[], map[]);
    assert IsRun([s]);
    s := Do(s, Start(0));
    s := Do(s, WriteRaw(0, e));
    s := Do(s, Crash(0));
  }

  /** One event of a run. */
  lemma Do(s: State, ev: Event) returns (d: State)
    requires Reachable(s) && Enabled(s, ev)
    ensures Reachable(d) && d == Apply(s, ev)
  {
    d := Apply(s, ev);
    ReachStep(s, ev);
  }

  ghost predicate Working(s: State, m: string, e: FlowEdge, hours: seq<int>, got: Flows)
  {
    && Reachable(s) && Quiet(s, m, e) && s.cycles == map[0 := Cycle(LATE, Reading(hours, got))]
    && forall p :: p in got ==> got[p] == []
  }

  lemma {:induction false} ReadsNothing(s: State, m: string, e: FlowEdge, hours: seq<int>, got: Flows, n: nat)
    returns (d: State, all: Flows)
    requires Working(s, m, e, hours, got) && hours != [] && n <= |PartitionsOf([m], hours[0])|
    requires forall p :: p in PartitionsOf([m], hours[0])[..n] ==> p in got
    ensures Working(d, m, e, hours, all) && d.marks == s.marks
    ensures forall p :: p in PartitionsOf([m], hours[0]) ==> p in all
    decreases |PartitionsOf([m], hours[0])| - n
  {
    var ps := PartitionsOf([m], hours[0]);
    if n == |ps| {
      assert ps[..n] == ps;
      d, all := s, got;
    } else {
      assert ps[n] in ps;
      var next := Do(s, ReadPartition(0, ps[n]));
      PrefixSnoc(ps, n);
      d, all := ReadsNothing(next, m, e, hours, got[ps[n] := []], n + 1);
    }
  }

  lemma {:induction false} NothingToMerge(got: Flows, ps: seq<Partition>)
    requires forall p :: p in got ==> got[p] == []
    ensures ReadAll(got, ps) == []
  {
    if ps != [] { NothingToMerge(got, ps[1..]); }
  }

  lemma NothingMerged(s: State, h: int, all: Flows)
    requires forall p :: p in all ==> all[p] == []
    ensures MergedRead(s, h, all) == []
  {
    NothingToMerge(all, PartitionsOf(s.monitors, h));
    MergeOfNothing(h);
  }

  lemma MergeOfNothing(h: int)
    ensures MergeHour([], h) == []
  {}

  lemma MergeLeaves(s: State, hours: seq<int>, all: Flows)
    requires s.cycles == map[0 := Cycle(LATE, Reading(hours, all))] && hours != [] && Enabled(s, Merge(0))
    requires MergedRead(s, hours[0], all) == []
    ensures var d := Apply(s, Merge(0));
      d == s.(cycles := map[0 := Cycle(LATE, Writing(hours, all, [], {}))],
        merges := s.merges + {Attempt(hours[0], all)})
  {}

  /** Merging an hour without rows leaves nothing to write. */
  lemma MergesNothing(s: State, m: string, e: FlowEdge, hours: seq<int>, all: Flows) returns (d: State)
    requires Working(s, m, e, hours, all) && hours != []
    requires forall p :: p in PartitionsOf([m], hours[0]) ==> p in all
    ensures Reachable(d) && Quiet(d, m, e) && d.marks == s.marks
    ensures d.cycles == map[0 := Cycle(LATE, Writing(hours, all, [], {}))]
  {
    NothingMerged(s, hours[0], all);
    MergeLeaves(s, hours, all);
    d := Do(s, Merge(0));
  }

  lemma MarksFirst(s: State, m: string, e: FlowEdge, hours: seq<int>, all: Flows) returns (d: State)
    requires Reachable(s) && Quiet(s, m, e) && hours != []
      && s.cycles == map[0 := Cycle(LATE, Writing(hours, all, [], {}))]
    ensures Working(d, m, e, hours[1..], map[]) && d.marks == s.marks + {hours[0]}
  {
    d := Do(s, Mark(0));
  }

  lemma MarksEmptyHour(s: State, m: string, e: FlowEdge, hours: seq<int>) returns (d: State)
    requires Working(s, m, e, hours, map[]) && hours != []
    ensures Working(d, m, e, hours[1..], map[]) && d.marks == s.marks + {hours[0]}
  {
    var all;
    d, all := ReadsNothing(s, m, e, hours, map[], 0);
    d := MergesNothing(d, m, e, hours, all);
    d := MarksFirst(d, m, e, hours, all);
  }

  lemma {:induction false} MarksEmptyHours(s: State, m: string, e: FlowEdge, hours: seq<int>) returns (d: State)
    requires Working(s, m, e, hours, map[])
    ensures Working(d, m, e, [], map[]) && d.marks == s.marks + set h | h in hours
    decreases |hours|
  {
    if hours == [] {
      d := s;
    } else {
      d := MarksEmptyHour(s, m, e, hours);
      d := MarksEmptyHours(d, m, e, hours[1..]);
      assert hours == [hours[0]] + hours[1..];
    }
  }

  lemma SlotFacts(i: nat)
    requires i < LOOKBACK_HOURS
    ensures LookbackHour(LATE, i) == (LOOKBACK_HOURS - 1 - i) * HOUR && InLookback(LATE, LookbackHour(LATE, i))
  {}

  function SixSlots(n: nat): seq<int> { seq(6, i => LookbackHour(LATE, n + i)) }

  lemma LookbackIs(h: int)
    ensures InLookback(LATE, h) <==> h % HOUR == 0 && 0 <= h / HOUR < LOOKBACK_HOURS
  {}

  lemma FirstSlotsAre(n: nat, h: int)
    requires n <= LOOKBACK_HOURS
    ensures h in FirstSlots(n) <==> h % HOUR == 0 && LOOKBACK_HOURS - n <= h / HOUR < LOOKBACK_HOURS
  {
    if h in FirstSlots(n) {
      var i :| 0 <= i < n && LookbackHour(LATE, i) == h;
      SlotFacts(i);
    }
    if h % HOUR == 0 && LOOKBACK_HOURS - n <= h / HOUR < LOOKBACK_HOURS {
      SlotFacts(LOOKBACK_HOURS - 1 - h / HOUR);
    }
  }

  lemma SixSlotsAre(n: nat, h: int)
    requires n + 6 <= LOOKBACK_HOURS
    ensures h in SixSlots(n) <==> h % HOUR == 0 && LOOKBACK_HOURS - n - 6 <= h / HOUR < LOOKBACK_HOURS - n
  {
    if h in SixSlots(n) {
      var i :| 0 <= i < 6 && SixSlots(n)[i] == h;
      SlotFacts(n + i);
    }
    if h % HOUR == 0 && LOOKBACK_HOURS - n - 6 <= h / HOUR < LOOKBACK_HOURS - n {
      var i := LOOKBACK_HOURS - 1 - h / HOUR;
      SlotFacts(i);
      assert SixSlots(n)[i - n] == h;
    }
  }

  lemma SixDescend(n: nat)
    ensures Descending(SixSlots(n))
  {
    var s := SixSlots(n);
    forall i, j | 0 <= i < j < |s| ensures s[i] > s[j] {
      assert s[i] == LookbackHour(LATE, n + i) && s[j] == LookbackHour(LATE, n + j);
    }
  }

  /** With the newest n slots marked, the next six are the choice. */
  lemma SixAreChosen(n: nat)
    requires n + 6 <= LOOKBACK_HOURS
    ensures IsEligibleChoice(LATE, FirstSlots(n), MAX_PER_CYCLE, SixSlots(n))
    ensures FirstSlots(n) + (set h | h in SixSlots(n)) == FirstSlots(n + 6)
  {
    SixDescend(n);
    forall h
      ensures InLookback(LATE, h) <==> h % HOUR == 0 && 0 <= h / HOUR < LOOKBACK_HOURS
      ensures h in FirstSlots(n) <==> h % HOUR == 0 && LOOKBACK_HOURS - n <= h / HOUR < LOOKBACK_HOURS
      ensures h in SixSlots(n) <==> h % HOUR == 0 && LOOKBACK_HOURS - n - 6 <= h / HOUR < LOOKBACK_HOURS - n
      ensures h in FirstSlots(n + 6) <==> h % HOUR == 0 && LOOKBACK_HOURS - n - 6 <= h / HOUR < LOOKBACK_HOURS
    {
      LookbackIs(h);
      FirstSlotsAre(n, h);
      SixSlotsAre(n, h);
      FirstSlotsAre(n + 6, h);
    }
  }

  lemma MarksSix(s: State, m: string, e: FlowEdge, n: nat) returns (d: State)
    requires Reachable(s) && Quiet(s, m, e) && s.cycles == map[] && s.marks == FirstSlots(n) && n + 6 <= LOOKBACK_HOURS
    ensures Reachable(d) && Quiet(d, m, e) && d.cycles == map[] && d.marks == FirstSlots(n + 6)
  {
    SixAreChosen(n);
    d := Do(s, Start(0));
    d := Do(d, BeginRollup(0, SixSlots(n)));
    d := MarksEmptyHours(d, m, e, SixSlots(n));
    d := Do(d, Crash(0));
  }

  lemma {:induction false} MarksAll(s: State, m: string, e: FlowEdge, n: nat) returns (d: State)
    requires Reachable(s) && Quiet(s, m, e) && s.cycles == map[] && s.marks == FirstSlots(6 * n)
      && n <= LOOKBACK_HOURS / 6
    ensures Reachable(d) && Quiet(d, m, e) && d.marks == FirstSlots(LOOKBACK_HOURS)
    decreases LOOKBACK_HOURS / 6 - n
  {
    if n == LOOKBACK_HOURS / 6 {
      d := s;
    } else {
      d := MarksSix(s, m, e, 6 * n);
      d := MarksAll(d, m, e, n + 1);
    }
  }

  /**
   * A marker can lie: for every row of the first bucket of an hour there is a run that writes
   * the row, lets it expire, and then marks the hour with nothing stored for it, long before
   * the hour's own rows could have expired.
   */
  lemma LateMarkerIsIncomplete(m: string, e: FlowEdge) returns (states: seq<State>)
    requires e.bucket == 0 && e.key.group.monitor == m
    ensures IsRun(states)
    ensures var s := states[|states| - 1];
      && 0 in s.marks && s.clock < EarliestExpiry(0)
      && e in HourRows(s.history, s.monitors, 0) && s.hourly == map[] && !StoredExactly(s, 0)
  {
    var s := RowExpires(m, e);
    s := MarksAll(s, m, e, 0);
    OldestSlot();
    NotStored(s, m, e);
    states :| IsRun(states) && states[|states| - 1] == s;
  }

  lemma OldestSlot()
    ensures 0 in FirstSlots(LOOKBACK_HOURS)
  {
    SlotFacts(LOOKBACK_HOURS - 1);
  }

  lemma NotStored(s: State, m: string, e: FlowEdge)
    requires Quiet(s, m, e)
    ensures e in HourRows(s.history, s.monitors, 0) && !StoredExactly(s, 0)
  {
    RowIsInHour(s.history, m, e);
    WrittenRowIsMerged(HourRows(s.history, s.monitors, 0), e, 0);
    assert Merged(s, 0)[0] in Merged(s, 0);
  }

  lemma RowIsInHour(t: Flows, m: string, e: FlowEdge)
    requires t == map[Partition(0, m) := [e]]
    ensures HourRows(t, [m], 0) != [] && HourRows(t, [m], 0)[0] == e
  {
    var ps := PartitionsOf([m], 0);
    assert ps[0] == Partition(0, m);
    assert ReadAll(t, ps) == RowsOf(t, ps[0]) + ReadAll(t, ps[1..]);
  }

  lemma WrittenRowIsMerged(raw: seq<FlowEdge>, e: FlowEdge, h: int)
    requires e in raw
    ensures MergeHour(raw, h) != []
  {
    MergeHourIsTopMerge(raw, h, CAP_PER_GROUP);
  }
}
