/**
 * One uninterrupted rollup step against a table that may refuse items: the batch writer with
 * its bounded retries, and the marker-last loop (collector/src/storage.ts, rollup-store.ts).
 */
module RollupStore {
  import opened Collections
  import opened FlowTypes
  import opened Rollup
  import opened Backfill
  import opened CollectorProtocol

  const CHUNK := 25
  const MAX_SENDS := 4

  /** An item is written under its own key: `HFLOW#hour#monitor` and `metric#category#edgeHash`. */
  function KeyOf(e: FlowEdge): HourlyKey { HourlyKey(e.bucket, e.key) }

  type Items = map<HourlyKey, FlowEdge>

  /** Whether batch request number n accepts an item. */
  type Lands<!E> = (nat, E) -> bool

  /** The table after the given items have been put, in order. */
  function PutAll(rows: Items, items: seq<FlowEdge>): Items
  {
    if items == [] then rows
    else
      var last := items[|items| - 1];
      PutAll(rows, items[..|items| - 1])[KeyOf(last) := last]
  }

  lemma {:induction false} PutAllConcat(rows: Items, a: seq<FlowEdge>, b: seq<FlowEdge>)
    ensures PutAll(rows, a + b) == PutAll(PutAll(rows, a), b)
  {
    if b == [] {
      assert a + b == a;
    } else {
      assert (a + b)[..|a + b| - 1] == a + b[..|b| - 1];
      PutAllConcat(rows, a, b[..|b| - 1]);
    }
  }

  lemma PutAllSnoc(rows: Items, items: seq<FlowEdge>, e: FlowEdge)
    ensures PutAll(rows, items + [e]) == PutAll(rows, items)[KeyOf(e) := e]
  {
    assert (items + [e])[..|items|] == items;
  }

  ghost predicate DistinctItems(items: seq<FlowEdge>)
  {
    forall e, f :: e in items && f in items && KeyOf(e) == KeyOf(f) ==> e == f
  }

  /** Items under distinct keys are all in the table afterwards; other keys are untouched. */
  lemma {:induction false} PutAllStores(rows: Items, items: seq<FlowEdge>, k: HourlyKey)
    requires DistinctItems(items)
    ensures forall e :: e in items && KeyOf(e) == k ==> k in PutAll(rows, items) && PutAll(rows, items)[k] == e
    ensures (forall e :: e in items ==> KeyOf(e) != k) ==>
              (k in PutAll(rows, items) <==> k in rows) && (k in rows ==> PutAll(rows, items)[k] == rows[k])
  {
    if items != [] {
      var n := |items| - 1;
      assert items == items[..n] + [items[n]];
      PutAllStores(rows, items[..n], k);
    }
  }

  // ---- how items fare ---------------------------------------------------------------

  /** The items are those written and those left; the counts show that none is in both or twice. */
  ghost predicate Shared<E(!new)>(items: seq<E>, landed: seq<E>, left: seq<E>)
  {
    |landed| + |left| == |items| && forall e :: e in items <==> e in landed || e in left
  }

  lemma SharedFurther<E(!new)>(items: seq<E>, landed: seq<E>, left: seq<E>, more: seq<E>, rest: seq<E>)
    requires Shared(items, landed, left) && Shared(left, more, rest)
    ensures Shared(items, landed + more, rest)
  {}

  lemma SharedConcat<E(!new)>(
      items: seq<E>, landed: seq<E>, left: seq<E>, items': seq<E>, landed': seq<E>, left': seq<E>)
    requires Shared(items, landed, left) && Shared(items', landed', left')
    ensures Shared(items + items', landed + landed', left + left')
  {}

  /** Every request refused the item. */
  ghost predicate AllRefuse<E>(lands: Lands<E>, from: nat, until: nat, e: E)
  {
    forall a :: from <= a < until ==> !lands(a, e)
  }

  /** Four consecutive requests among those numbered from..until refused the item. */
  ghost predicate RefusedFourTimes<E>(lands: Lands<E>, from: nat, until: nat, e: E)
  {
    exists n: nat :: from <= n && n + 4 <= until && FourRefuse(lands, n, e)
  }

  ghost predicate FourRefuse<E>(lands: Lands<E>, n: nat, e: E)
  {
    AllRefuse(lands, n, n + 4, e)
  }

  /** How the items of a batch fared: written, or dropped after four refusals; none lost or written twice. */
  ghost predicate BatchOutcome<E(!new)>(
      items: seq<E>, landed: seq<E>, dropped: seq<E>, lands: Lands<E>, from: nat, until: nat)
  {
    && from <= until
    && Shared(items, landed, dropped)
    && forall e :: e in dropped ==> RefusedFourTimes(lands, from, until, e)
  }

  lemma BatchStep<E(!new)>(
      items: seq<E>, landed: seq<E>, dropped: seq<E>, chunk: seq<E>, written: seq<E>, pending: seq<E>,
                           lands: Lands<E>, from: nat, n: nat, until: nat)
    requires BatchOutcome(items, landed, dropped, lands, from, n)
    requires ChunkOutcome(chunk, written, pending, lands, n, until)
    ensures BatchOutcome(items + chunk, landed + written, dropped + pending, lands, from, until)
  {
    SharedConcat(items, landed, dropped, chunk, written, pending);
    forall e | e in dropped + pending ensures RefusedFourTimes(lands, from, until, e) {
      if e in pending {
        assert FourRefuse(lands, n, e);
      } else {
        var m: nat :| from <= m && m + MAX_SENDS <= n && FourRefuse(lands, m, e);
        assert m + MAX_SENDS <= until;
      }
    }
  }

  /** A chunk took at most four requests; what is left was refused by all four. */
  ghost predicate ChunkOutcome<E(!new)>(
      chunk: seq<E>, landed: seq<E>, pending: seq<E>, lands: Lands<E>, from: nat, until: nat)
  {
    && from <= until <= from + MAX_SENDS
    && Shared(chunk, landed, pending)
    && forall e :: e in pending ==> until == from + MAX_SENDS && AllRefuse(lands, from, until, e)
  }

  function HourlyRowsOf(raw: Flows, monitors: seq<string>, h: int): seq<FlowEdge>
  {
    MergeHour(HourRows(raw, monitors, h), h, 200)
  }

  ghost predicate HourStored(rows: Items, merged: seq<FlowEdge>)
  {
    forall r :: r in merged ==> KeyOf(r) in rows && rows[KeyOf(r)] == r
  }

  ghost predicate RowRefused(lands: Lands<FlowEdge>, from: nat, until: nat, merged: seq<FlowEdge>)
  {
    exists r :: r in merged && RefusedFourTimes(lands, from, until, r)
  }

  ghost predicate OtherHoursKept(before: Items, after: Items, hours: seq<int>)
  {
    forall k: HourlyKey :: k.hour !in hours ==> (k in after <==> k in before) && (k in before ==> after[k] == before[k])
  }

  lemma HourWritten(
      before: Items, landed: seq<FlowEdge>, merged: seq<FlowEdge>, raw: Flows, monitors: seq<string>, h: int)
    requires merged == HourlyRowsOf(raw, monitors, h) && forall e :: e in landed ==> e in merged
    ensures OtherHoursKept(before, PutAll(before, landed), [h])
    ensures (forall e :: e in merged ==> e in landed) ==> HourStored(PutAll(before, landed), merged)
  {
    MergeHourIsTopMerge(HourRows(raw, monitors, h), h, 200);
    assert forall e :: e in landed ==> KeyOf(e).hour == h;
    forall k: HourlyKey
      ensures k.hour != h ==>
        (k in PutAll(before, landed) <==> k in before) && (k in before ==> PutAll(before, landed)[k] == before[k])
    {
      PutAllStores(before, landed, k);
    }
    forall r | r in merged && r in landed
      ensures KeyOf(r) in PutAll(before, landed) && PutAll(before, landed)[KeyOf(r)] == r
    {
      PutAllStores(before, landed, KeyOf(r));
    }
  }

  /** A done hour has all its merged rows stored; an hour not done had a row refused four times. */
  ghost predicate HourOutcome(done: bool, raw: Flows, rows: Items, monitors: seq<string>,
                              lands: Lands<FlowEdge>, from: nat, until: nat, h: int)
  {
    var merged := HourlyRowsOf(raw, monitors, h);
    if done then HourStored(rows, merged) else RowRefused(lands, from, until, merged)
  }

  lemma RefusedSomewhere(lands: Lands<FlowEdge>, from: nat, until: nat, merged: seq<FlowEdge>)
    requires RowRefused(lands, from, until, merged)
    ensures exists n: nat, e :: !lands(n, e)
  {
    var r :| r in merged && RefusedFourTimes(lands, from, until, r);
    var n: nat :| from <= n && n + MAX_SENDS <= until && FourRefuse(lands, n, r);
    assert !lands(n, r);
  }

  /** A table that refuses nothing leaves no hour behind. */
  lemma AcceptingTable(lands: Lands<FlowEdge>, raw: Flows, rows: Items, monitors: seq<string>, from: nat, until: nat,
                       hours: seq<int>, hoursDone: seq<int>)
    requires forall h :: h in hoursDone ==> h in hours
    requires forall h :: h in hours ==> HourOutcome(h in hoursDone, raw, rows, monitors, lands, from, until, h)
    ensures (forall n: nat, e :: lands(n, e)) ==> (set h | h in hoursDone) == set h | h in hours
  {
    if forall n: nat, e :: lands(n, e) {
      var done, all := set h | h in hoursDone, set h | h in hours;
      forall h ensures h in done <==> h in all {
        if h in hours && h !in hoursDone { RefusedSomewhere(lands, from, until, HourlyRowsOf(raw, monitors, h)); }
      }
      assert done == all;
    }
  }

  lemma OutcomeWiden(done: bool, raw: Flows, rows: Items, monitors: seq<string>, lands: Lands<FlowEdge>,
                     first: nat, from: nat, until: nat, h: int)
    requires HourOutcome(done, raw, rows, monitors, lands, from, until, h) && first <= from
    ensures HourOutcome(done, raw, rows, monitors, lands, first, until, h)
  {
    var merged := HourlyRowsOf(raw, monitors, h);
    if !done {
      var r :| r in merged && RefusedFourTimes(lands, from, until, r);
      var n: nat :| from <= n && n + MAX_SENDS <= until && FourRefuse(lands, n, r);
      assert RefusedFourTimes(lands, first, until, r);
    }
  }

  /** Working on another hour later does not change how hour h fared. */
  lemma OutcomeKept(done: bool, raw: Flows, before: Items, after: Items, monitors: seq<string>, lands: Lands<FlowEdge>,
                    from: nat, until: nat, later: nat, h: int, other: int)
    requires HourOutcome(done, raw, before, monitors, lands, from, until, h)
    requires OtherHoursKept(before, after, [other]) && h != other && until <= later
    ensures HourOutcome(done, raw, after, monitors, lands, from, later, h)
  {
    var merged := HourlyRowsOf(raw, monitors, h);
    if done {
      MergeHourIsTopMerge(HourRows(raw, monitors, h), h, 200);
    } else {
      var r :| r in merged && RefusedFourTimes(lands, from, until, r);
      var n: nat :| from <= n && n + MAX_SENDS <= until && FourRefuse(lands, n, r);
      assert n + MAX_SENDS <= later;
      assert RefusedFourTimes(lands, from, later, r);
    }
  }

  function Least(a: int, b: int): int { if a < b then a else b }

  class Tables {
    var raw: Flows
    var hourly: Items
    var marks: set<int>
    var sends: nat               // batch requests sent so far
    const lands: Lands<FlowEdge>

    constructor (raw: Flows, hourly: Items, marks: set<int>, lands: Lands<FlowEdge>)
      ensures this.raw == raw && this.hourly == hourly && this.marks == marks && this.lands == lands && sends == 0
    {
      this.raw, this.hourly, this.marks, this.lands, this.sends := raw, hourly, marks, lands, 0;
    }

    /** One batch request, of at most 25 items: accepted items are written, the others come back as unprocessed. */
    method Send(batch: seq<FlowEdge>) returns (unprocessed: seq<FlowEdge>, ghost landed: seq<FlowEdge>)
      requires |batch| <= 25
      modifies this`hourly, this`sends
      ensures sends == old(sends) + 1
      ensures hourly == PutAll(old(hourly), landed) && Shared(batch, landed, unprocessed)
      ensures forall e :: e in unprocessed ==> !lands(old(sends), e)
      ensures forall e :: e in landed ==> lands(old(sends), e)
    {
      unprocessed, landed := [], [];
      for i := 0 to |batch|
        invariant sends == old(sends)
        invariant hourly == PutAll(old(hourly), landed) && Shared(batch[..i], landed, unprocessed)
        invariant forall e :: e in unprocessed ==> !lands(sends, e)
        invariant forall e :: e in landed ==> lands(sends, e)
      {
        var e := batch[i];
        PrefixSnoc(batch, i);
        if lands(sends, e) {
          SharedConcat(batch[..i], landed, unprocessed, [e], [e], []);
          PutAllSnoc(old(hourly), landed, e);
          hourly, landed := hourly[KeyOf(e) := e], landed + [e];
        } else {
          SharedConcat(batch[..i], landed, unprocessed, [e], [], [e]);
          unprocessed := unprocessed + [e];
        }
        assert unprocessed + [] == unprocessed && landed + [] == landed;
      }
      assert batch[..|batch|] == batch;
      sends := sends + 1;
    }

    /** One chunk, sent again until nothing is unprocessed or four requests were made. */
    method WriteChunk(chunk: seq<FlowEdge>) returns (pending: seq<FlowEdge>, ghost landed: seq<FlowEdge>)
      requires |chunk| <= 25
      modifies this`hourly, this`sends
      ensures ChunkOutcome(chunk, landed, pending, lands, old(sends), sends)
      ensures hourly == PutAll(old(hourly), landed)
    {
      pending, landed := chunk, [];
      var attempt := 0;
      ghost var first := sends;
      while |pending| > 0
        invariant 0 <= attempt < MAX_SENDS && sends == first + attempt
        invariant Shared(chunk, landed, pending) && hourly == PutAll(old(hourly), landed)
        invariant forall e :: e in pending ==> AllRefuse(lands, first, sends, e)
        decreases MAX_SENDS - attempt
      {
        ghost var before := pending;
        ghost var more;
        pending, more := Send(pending);
        SharedFurther(chunk, landed, before, more, pending);
        PutAllConcat(old(hourly), landed, more);
        landed := landed + more;
        assert forall e :: e in pending ==> e in before && AllRefuse(lands, first, sends, e);
        if |pending| == 0 { break; }
        if attempt >= MAX_SENDS - 1 { break; }
        attempt := attempt + 1;
      }
    }

    /**
     * Writes all items in chunks of 25 and returns how many were dropped. An item is dropped
     * only after four consecutive requests refused it; zero means that every item landed.
     */
    method BatchWriteAll(items: seq<FlowEdge>)
      returns (dropped: nat, ghost landed: seq<FlowEdge>, ghost lost: seq<FlowEdge>)
      modifies this`hourly, this`sends
      ensures hourly == PutAll(old(hourly), landed)
      ensures BatchOutcome(items, landed, lost, lands, old(sends), sends) && dropped == |lost|
      ensures dropped == 0 ==> forall e :: e in items ==> e in landed
      ensures sends <= old(sends) + 4 * ((|items| + 24) / 25)
    {
      dropped, landed, lost := 0, [], [];
      var i := 0;
      ghost var chunks, first := 0, sends;
      while i < |items|
        invariant i == chunks * CHUNK && i < |items| + CHUNK
        invariant BatchOutcome(items[..Least(i, |items|)], landed, lost, lands, first, sends)
        invariant dropped == |lost|
        invariant hourly == PutAll(old(hourly), landed)
        invariant sends <= first + MAX_SENDS * chunks
      {
        ghost var n, written := sends, [];
        var chunk := items[i..Least(i + CHUNK, |items|)];
        var pending;
        pending, written := WriteChunk(chunk);
        assert BatchOutcome(
          items[..Least(i + CHUNK, |items|)], landed + written, lost + pending, lands, first, sends) by {
          BatchStep(items[..i], landed, lost, chunk, written, pending, lands, first, n, sends);
          SliceSnoc(items, i, Least(i + CHUNK, |items|));
        }
        PutAllConcat(old(hourly), landed, written);
        landed, lost := landed + written, lost + pending;
        dropped := dropped + |pending|;
        i, chunks := i + CHUNK, chunks + 1;
      }
      assert items[..|items|] == items;
      ChunkCount(|items|, chunks);
    }

    /** Merges and writes one hour; the marker comes last and is withheld when a row was dropped. */
    method RollupHour(monitors: seq<string>, hour: int) returns (done: bool)
      modifies this`hourly, this`sends, this`marks
      ensures old(sends) <= sends
      ensures marks == if done then old(marks) + {hour} else old(marks)
      ensures HourOutcome(done, raw, hourly, monitors, lands, old(sends), sends, hour)
      ensures OtherHoursKept(old(hourly), hourly, [hour])
    {
      var merged := MergeHourEdges(HourRows(raw, monitors, hour), hour, CAP_PER_GROUP);
      ghost var landed, lost: seq<FlowEdge> := [], [];
      var dropped := 0;
      if |merged| > 0 {
        dropped, landed, lost := BatchWriteAll(merged);
      }
      HourWritten(old(hourly), landed, merged, raw, monitors, hour);
      if dropped > 0 {
        assert lost[0] in merged && RefusedFourTimes(lands, old(sends), sends, lost[0]);
        return false;
      }
      marks := marks + {hour};
      done := true;
    }

    /**
     * Rolls up the newest missing hours. An hour gets its marker exactly when all of its
     * merged rows landed; a withheld marker means that some row was refused four times.
     */
    method RunRollupStep(monitors: seq<string>, now: int) returns (hoursDone: seq<int>, ghost hours: seq<int>)
      modifies this`hourly, this`sends, this`marks
      ensures IsEligibleChoice(now, old(marks), 6, hours)
      ensures marks == old(marks) + set h | h in hoursDone
      ensures forall h :: h in hoursDone ==> h in hours
      ensures forall h :: h in hours ==> HourOutcome(h in hoursDone, raw, hourly, monitors, lands, old(sends), sends, h)
      ensures OtherHoursKept(old(hourly), hourly, hours)
      ensures (forall n: nat, e :: lands(n, e)) ==> DropFreeCycle(now, old(marks), marks)
    {
      var chosen := EligibleMissingHours(now, marks);
      hours, hoursDone := chosen, [];
      ghost var first := sends;
      for i := 0 to |chosen|
        invariant first <= sends
        invariant marks == old(marks) + set h | h in hoursDone
        invariant forall h :: h in hoursDone ==> h in chosen[..i]
        invariant forall h :: h in chosen[..i] ==>
          HourOutcome(h in hoursDone, raw, hourly, monitors, lands, first, sends, h)
        invariant OtherHoursKept(old(hourly), hourly, chosen[..i])
      {
        ghost var before, n, was := hourly, sends, hoursDone;
        var done := RollupHour(monitors, chosen[i]);
        if done { hoursDone := hoursDone + [chosen[i]]; }
        PrefixSnoc(chosen, i);
        forall h | h in chosen[..i + 1]
          ensures HourOutcome(h in hoursDone, raw, hourly, monitors, lands, first, sends, h)
        {
          if h in chosen[..i] {
            OutcomeKept(h in was, raw, before, hourly, monitors, lands, first, n, sends, h, chosen[i]);
          } else {
            OutcomeWiden(done, raw, hourly, monitors, lands, first, n, sends, h);
          }
        }
      }
      assert chosen[..|chosen|] == chosen;
      AcceptingTable(lands, raw, hourly, monitors, first, sends, hours, hoursDone);
    }
  }

  lemma ChunkCount(n: nat, chunks: nat)
    requires chunks * CHUNK < n + CHUNK
    ensures chunks <= (n + CHUNK - 1) / CHUNK
  {}

  lemma SliceSnoc<E>(items: seq<E>, i: nat, j: nat)
    requires i <= j <= |items|
    ensures items[..j] == items[..i] + items[i..j]
  {}
}
