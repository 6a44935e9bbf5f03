/** Choosing the hours to roll up, and how fast a backlog drains (collector/src/rollup.ts). */
module Backfill {
  import opened Collections
  import opened FlowTypes

  const LOOKBACK_HOURS := 168
  const MAX_PER_CYCLE := 6
  const CLOSE_GRACE := 300_000
  const ROLLUP_TTL := 15 * DAY

  /** When hour `h` may first be rolled up. */
  function EligibleAt(h: int): int { h + HOUR + CLOSE_GRACE }

  /** The earliest moment a row or marker of hour `h` can expire. */
  function EarliestExpiry(h: int): int { EligibleAt(h) + ROLLUP_TTL }

  function FiveMinBucketsOfHour(hour: int): seq<int>
  {
    seq(12, i => hour + i * FIVE_MIN)
  }

  function NewestEligible(now: int): int { HourOf(now - CLOSE_GRACE) - HOUR }

  function LookbackHour(now: int, i: int): int { NewestEligible(now) - i * HOUR }

  /** `h` is one of the hours a cycle started at `now` looks at. */
  predicate InLookback(now: int, h: int)
  {
    h % HOUR == 0 && LookbackHour(now, LOOKBACK_HOURS - 1) <= h <= NewestEligible(now)
  }

  /**
   * The lookback, said without the loop: whole hours that closed at least five minutes ago
   * and started less than 169 hours and five minutes ago.
   */
  lemma LookbackMeaning(now: int, h: int)
    ensures InLookback(now, h) <==>
      h % 3_600_000 == 0 && h + 3_600_000 + 300_000 <= now < h + 169 * 3_600_000 + 300_000
  {
    var f := HourOf(now - CLOSE_GRACE);
    if h % HOUR == 0 {
      HoursApart(f, h);
    }
  }

  /** Two hour boundaries less than an hour apart are equal. */
  lemma HoursApart(f: int, h: int)
    requires f % HOUR == 0 && h % HOUR == 0
    ensures (f - h) % HOUR == 0
    ensures f - h > 0 ==> f - h >= HOUR
  {}

  lemma LookbackIndex(now: int, h: int)
    requires InLookback(now, h)
    ensures exists i :: 0 <= i < LOOKBACK_HOURS && LookbackHour(now, i) == h
  {
    HoursApart(NewestEligible(now), h);
    var i := (NewestEligible(now) - h) / HOUR;
    assert LookbackHour(now, i) == h;
  }

  ghost predicate Descending(s: seq<int>)
  {
    forall i, j :: 0 <= i < j < |s| ==> s[i] > s[j]
  }

  /**
   * `hours` are the newest unmarked hours of the lookback, newest first: at most `max` of
   * them, and an unmarked hour is missing only when `max` newer ones were taken.
   */
  ghost predicate IsEligibleChoice(now: int, done: set<int>, max: nat, hours: seq<int>)
  {
    && |hours| <= max
    && (forall h :: h in hours ==> InLookback(now, h) && h !in done)
    && Descending(hours)
    && forall h :: InLookback(now, h) && h !in done && h !in hours ==>
         |hours| == max && forall g :: g in hours ==> g > h
  }

  method EligibleMissingHours(now: int, done: set<int>, max: nat := MAX_PER_CYCLE) returns (out: seq<int>)
    ensures IsEligibleChoice(now, done, max, out)
  {
    out := [];
    var i := 0;
    while i < LOOKBACK_HOURS && |out| < max
      invariant 0 <= i <= LOOKBACK_HOURS && |out| <= max
      invariant forall h :: h in out ==> InLookback(now, h) && h !in done && h > LookbackHour(now, i)
      invariant Descending(out)
      invariant forall h :: InLookback(now, h) && h > LookbackHour(now, i) && h !in done ==> h in out
    {
      var key := NewestEligible(now) - i * HOUR;
      forall h | InLookback(now, h) && h > LookbackHour(now, i + 1)
        ensures h > LookbackHour(now, i) || h == key
      {
        HoursApart(key, h);
      }
      assert forall j :: 0 <= j < |out| ==> out[j] in out;
      if key !in done { out := out + [key]; }
      i := i + 1;
    }
    forall h | InLookback(now, h) && h !in done && h !in out
      ensures |out| == max && forall g :: g in out ==> g > h
    {
      assert h <= LookbackHour(now, i);
    }
  }

  /** The choice is unique, so the description above determines the loop's answer. */
  lemma EligibleChoiceIsUnique(now: int, done: set<int>, max: nat, a: seq<int>, b: seq<int>)
    requires IsEligibleChoice(now, done, max, a) && IsEligibleChoice(now, done, max, b)
    ensures a == b
  {
    DescendingMembers(a, b, now, done, max);
    DescendingMembers(b, a, now, done, max);
    SameMembersSameSeq(a, b);
  }

  lemma DescendingMembers(a: seq<int>, b: seq<int>, now: int, done: set<int>, max: nat)
    requires IsEligibleChoice(now, done, max, a) && IsEligibleChoice(now, done, max, b)
    ensures forall h :: h in a ==> h in b
  {
    if h :| h in a && h !in b {
      // b is full of newer hours; a, which holds h, cannot miss any of them.
      forall g | g in b ensures g in a {
        assert g > h;
      }
      CountDistinct(b);
      CountDistinct(a);
      var bs, s := (set g | g in b), (set g | g in a);
      assert bs + {h} <= s;
      assert |bs + {h}| == |bs| + 1;
      SubsetCardinality(bs + {h}, s);
    }
  }

  lemma DescendingHead(s: seq<int>)
    requires Descending(s) && s != []
    ensures s[0] in s && Descending(s[1..])
    ensures forall h :: h in s ==> h <= s[0]
    ensures forall h :: h in s[1..] <==> h in s && h != s[0]
  {
    assert s == [s[0]] + s[1..];
  }

  lemma {:induction false} SameMembersSameSeq(a: seq<int>, b: seq<int>)
    requires Descending(a) && Descending(b)
    requires forall h :: h in a <==> h in b
    ensures a == b
  {
    SomeMember(a);
    SomeMember(b);
    if a != [] {
      assert a[0] in a;
      DescendingHead(a);
      DescendingHead(b);
      SameMembersSameSeq(a[1..], b[1..]);
      assert a == [a[0]] + a[1..] && b == [b[0]] + b[1..];
    }
  }

  // ---- draining ---------------------------------------------------------------

  /** The unmarked hours of the lookback. */
  ghost function Backlog(now: int, done: set<int>): set<int>
  {
    set i | 0 <= i < LOOKBACK_HOURS && LookbackHour(now, i) !in done :: LookbackHour(now, i)
  }

  lemma BacklogMembers(now: int, done: set<int>, h: int)
    ensures h in Backlog(now, done) <==> InLookback(now, h) && h !in done
  {
    if InLookback(now, h) && h !in done { LookbackIndex(now, h); }
  }

  function Min(a: int, b: int): int { if a < b then a else b }

  /** A drop-free cycle takes exactly min(6, backlog) hours off the backlog. */
  lemma CycleShrinksBacklog(now: int, done: set<int>, max: nat, hours: seq<int>)
    requires IsEligibleChoice(now, done, max, hours)
    ensures |hours| == Min(max, |Backlog(now, done)|)
    ensures |Backlog(now, done + set h | h in hours)| == |Backlog(now, done)| - |hours|
  {
    var taken := set h | h in hours;
    var before, after := Backlog(now, done), Backlog(now, done + taken);
    CountDistinct(hours);
    forall h ensures h in before <==> InLookback(now, h) && h !in done { BacklogMembers(now, done, h); }
    forall h ensures h in after <==> h in before && h !in taken { BacklogMembers(now, done + taken, h); }
    assert taken <= before;
    assert after == before - taken;
    SubsetCardinality(taken, before);
    if |hours| < max {
      forall h | h in before ensures h in taken {
        BacklogMembers(now, done, h);
      }
      assert taken == before;
    }
  }

  /** The marker sets of successive drop-free cycles under a fixed clock. */
  ghost predicate DropFreeRun(now: int, marks: seq<set<int>>)
  {
    |marks| > 0 && forall i :: 0 <= i < |marks| - 1 ==> DropFreeCycle(now, marks[i], marks[i + 1])
  }

  ghost predicate DropFreeCycle(now: int, before: set<int>, after: set<int>)
  {
    exists hours :: IsEligibleChoice(now, before, 6, hours) && after == before + set h | h in hours
  }

  lemma {:induction false} BacklogAfterCycles(now: int, marks: seq<set<int>>)
    requires DropFreeRun(now, marks)
    ensures |Backlog(now, marks[|marks| - 1])| <= Max0(168 - 6 * (|marks| - 1))
  {
    var n := |marks| - 1;
    if n == 0 {
      BacklogIsBounded(now, marks[0]);
    } else {
      BacklogAfterCycles(now, marks[..n]);
      assert marks[..n][n - 1] == marks[n - 1];
      assert DropFreeCycle(now, marks[n - 1], marks[n - 1 + 1]);
      var hours :| IsEligibleChoice(now, marks[n - 1], 6, hours)
          && marks[n] == marks[n - 1] + set h | h in hours;
      CycleShrinksBacklog(now, marks[n - 1], 6, hours);
    }
  }

  function Max0(x: int): nat { if x < 0 then 0 else x }

  lemma BacklogIsBounded(now: int, done: set<int>)
    ensures |Backlog(now, done)| <= LOOKBACK_HOURS
  {
    var all := set i | 0 <= i < LOOKBACK_HOURS :: LookbackHour(now, i);
    LookbackSize(now, LOOKBACK_HOURS);
    SubsetCardinality(Backlog(now, done), all);
  }

  lemma {:induction false} LookbackSize(now: int, n: nat)
    ensures |set i | 0 <= i < n :: LookbackHour(now, i)| <= n
  {
    if n > 0 {
      LookbackSize(now, n - 1);
      assert (set i | 0 <= i < n :: LookbackHour(now, i))
          == (set i | 0 <= i < n - 1 :: LookbackHour(now, i)) + {LookbackHour(now, n - 1)};
    } else {
      assert (set i | 0 <= i < n :: LookbackHour(now, i)) == {};
    }
  }

  /** Any backlog of the seven-day lookback is gone after 28 drop-free cycles. */
  lemma BacklogDrains(now: int, marks: seq<set<int>>)
    requires DropFreeRun(now, marks) && |marks| == 29
    ensures forall h :: InLookback(now, h) ==> h in marks[28]
  {
    BacklogAfterCycles(now, marks);
    assert |Backlog(now, marks[28])| == 0;
    forall h | InLookback(now, h) ensures h in marks[28] {
      BacklogMembers(now, marks[28], h);
    }
  }
}
