/**
 * The bounded worker pool (`mapPool` in app/src/lib/ddb.ts and collector/src/rollup-store.ts, and
 * the job loop of `runQueryMatrix` in collector/src/nfm-query.ts) under every schedule: code
 * between two awaits is one step, and the calls in flight settle in any order.
 */
module WorkerPool {
  import opened Collections

  datatype Worker =
    | Fresh              // not started yet
    | Busy(item: nat)    // awaiting the call on this item
    | Broken(item: nat)  // its call rejected
    | Done

  datatype Finished<R> = Finished(item: nat, value: R)

  /**
   * `finished` lists the returned calls in completion order; `results` is the array that
   * `mapPool` fills by item, with None for its holes.
   */
  datatype Pool<R> = Pool(next: nat, workers: seq<Worker>, finished: seq<Finished<R>>, results: seq<Option<R>>)

  /** Array.from of a negative length is empty, so a limit below one starts no worker. */
  function WorkerCount(limit: int, n: nat): nat
  {
    var least := if limit < n then limit else n;
    if least < 0 then 0 else least
  }

  function Start<R>(limit: int, n: nat): Pool<R>
  {
    Pool(0, seq(WorkerCount(limit, n), i => Fresh), [], seq(n, i => None))
  }

  /** The top of the worker loop: take the next item, or stop. */
  function Take<R>(s: Pool<R>, w: nat, n: nat): Pool<R>
    requires w < |s.workers|
  {
    if s.next < n then s.(next := s.next + 1, workers := s.workers[w := Busy(s.next)])
    else s.(workers := s.workers[w := Done])
  }

  /** An assignment to an array slot; past its end the array grows. */
  function Put<R>(results: seq<Option<R>>, i: nat, value: R): seq<Option<R>>
  {
    if i < |results| then results[i := Some(value)] else results + seq(i - |results|, k => None) + [Some(value)]
  }

  function TakeBack<R>(s: Pool<R>, w: nat, value: R): Pool<R>
    requires w < |s.workers| && s.workers[w].Busy?
  {
    var i := s.workers[w].item;
    s.(finished := s.finished + [Finished(i, value)], results := Put(s.results, i, value))
  }

  datatype Step<R> = Begin(w: nat) | Return(w: nat, value: R) | Reject(w: nat)

  predicate Enabled<R>(s: Pool<R>, e: Step<R>)
  {
    e.w < |s.workers| && if e.Begin? then s.workers[e.w].Fresh? else s.workers[e.w].Busy?
  }

  function Apply<R>(s: Pool<R>, n: nat, e: Step<R>): Pool<R>
    requires Enabled(s, e)
  {
    match e
    case Begin(w) => Take(s, w, n)
    case Return(w, value) => Take(TakeBack(s, w, value), w, n)
    case Reject(w) => s.(workers := s.workers[w := Broken(s.workers[w].item)])
  }

  // ---- the invariant -----------------------------------------------------------------------

  predicate Holds(w: Worker, j: nat) { (w.Busy? || w.Broken?) && w.item == j }

  ghost predicate Held<R>(s: Pool<R>, j: nat) { exists w :: 0 <= w < |s.workers| && Holds(s.workers[w], j) }

  ghost predicate Returned<R>(s: Pool<R>, j: nat)
  {
    exists k :: 0 <= k < |s.finished| && s.finished[k].item == j
  }

  ghost predicate EachOnce<R>(finished: seq<Finished<R>>)
  {
    forall k, l :: 0 <= k < l < |finished| ==> finished[k].item != finished[l].item
  }

  ghost predicate HeldAlone(workers: seq<Worker>)
  {
    forall v, w, j: nat ::
      0 <= v < |workers| && 0 <= w < |workers| && Holds(workers[v], j) && Holds(workers[w], j) ==> v == w
  }

  /** The array has its full length, and holds in slot i what the call on item i returned. */
  ghost predicate ResultsOk<R>(s: Pool<R>, n: nat)
  {
    && |s.results| == n
    && (forall k :: 0 <= k < |s.finished| ==>
          s.finished[k].item < n && s.results[s.finished[k].item] == Some(s.finished[k].value))
    && forall j: nat :: j < n && s.results[j].Some? ==> Returned(s, j)
  }

  /** Every item taken is either held by exactly one worker or has returned exactly once. */
  ghost predicate Inv<R>(s: Pool<R>, n: nat)
  {
    && s.next <= n
    && (forall j: nat :: Held(s, j) || Returned(s, j) <==> j < s.next)
    && (forall j: nat :: Held(s, j) ==> !Returned(s, j))
    && HeldAlone(s.workers) && EachOnce(s.finished) && ResultsOk(s, n)
    && (forall w :: 0 <= w < |s.workers| && s.workers[w].Done? ==> s.next == n)
  }

  lemma HeldAfter<R>(s: Pool<R>, w: nat, x: Worker, j: nat)
    requires w < |s.workers| && HeldAlone(s.workers)
    ensures Held(s.(workers := s.workers[w := x]), j) <==> Holds(x, j) || (Held(s, j) && !Holds(s.workers[w], j))
  {
    var after := s.(workers := s.workers[w := x]);
    if Holds(x, j) { assert Holds(after.workers[w], j); }
    if Held(s, j) && !Holds(s.workers[w], j) {
      var v :| 0 <= v < |s.workers| && Holds(s.workers[v], j);
      assert Holds(after.workers[v], j);
    }
  }

  lemma ReturnedAfter<R>(s: Pool<R>, after: Pool<R>, f: Finished<R>, j: nat)
    requires after.finished == s.finished + [f]
    ensures Returned(after, j) <==> Returned(s, j) || f.item == j
  {
    assert after.finished[|s.finished|] == f;
    if Returned(s, j) {
      var k :| 0 <= k < |s.finished| && s.finished[k].item == j;
      assert after.finished[k].item == j;
    }
  }

  lemma TakeInv<R>(s: Pool<R>, w: nat, n: nat)
    requires Inv(s, n) && w < |s.workers| && s.workers[w].Fresh?
    ensures Inv(Take(s, w, n), n)
  {
    var after := Take(s, w, n);
    forall j: nat ensures Returned(after, j) <==> Returned(s, j) {}
    forall j: nat ensures Held(after, j) <==> Held(s, j) || (s.next < n && j == s.next) {
      HeldAfter(s, w, after.workers[w], j);
    }
    assert !Held(s, s.next);
    forall v | 0 <= v < |s.workers| ensures !Holds(s.workers[v], s.next) {}
  }

  lemma ReturnResults<R>(s: Pool<R>, w: nat, value: R, n: nat)
    requires Inv(s, n) && w < |s.workers| && s.workers[w].Busy?
    ensures ResultsOk(TakeBack(s, w, value), n)
  {
    var f, after := Finished(s.workers[w].item, value), TakeBack(s, w, value);
    assert Holds(s.workers[w], f.item);
    assert Held(s, f.item);
    forall k | 0 <= k < |s.finished| ensures s.finished[k].item != f.item { assert !Returned(s, f.item); }
    forall j: nat | j < n && after.results[j].Some? ensures Returned(after, j) { ReturnedAfter(s, after, f, j); }
  }

  /** A returned call: its worker is about to take the next item. */
  lemma ReturnInv<R>(s: Pool<R>, w: nat, value: R, n: nat)
    requires Inv(s, n) && w < |s.workers| && s.workers[w].Busy?
    ensures Inv(TakeBack(s, w, value).(workers := s.workers[w := Fresh]), n)
  {
    var f := Finished(s.workers[w].item, value);
    var mid := s.(workers := s.workers[w := Fresh]);
    var after := TakeBack(s, w, value).(workers := s.workers[w := Fresh]);
    ReturnResults(s, w, value, n);
    assert Holds(s.workers[w], f.item);
    assert Held(s, f.item);
    forall j: nat ensures Held(after, j) <==> Held(s, j) && j != f.item {
      HeldAfter(s, w, Fresh, j);
      assert Held(after, j) <==> Held(mid, j);
    }
    forall j: nat ensures Returned(after, j) <==> Returned(s, j) || j == f.item { ReturnedAfter(s, after, f, j); }
    forall k | 0 <= k < |s.finished| ensures s.finished[k].item != f.item { assert !Returned(s, f.item); }
  }

  lemma RejectInv<R>(s: Pool<R>, w: nat, n: nat)
    requires Inv(s, n) && w < |s.workers| && s.workers[w].Busy?
    ensures Inv(s.(workers := s.workers[w := Broken(s.workers[w].item)]), n)
  {
    var after := s.(workers := s.workers[w := Broken(s.workers[w].item)]);
    assert Holds(s.workers[w], s.workers[w].item);
    forall j: nat ensures Held(after, j) <==> Held(s, j) { HeldAfter(s, w, after.workers[w], j); }
    forall j: nat ensures Returned(after, j) <==> Returned(s, j) {}
  }

  lemma StartInv<R>(limit: int, n: nat)
    ensures Inv<R>(Start(limit, n), n)
  {
    var s: Pool<R> := Start(limit, n);
    forall j: nat ensures !Held(s, j) && !Returned(s, j) {}
  }

  lemma InvPreserved<R>(s: Pool<R>, n: nat, e: Step<R>)
    requires Inv(s, n) && Enabled(s, e)
    ensures Inv(Apply(s, n, e), n)
  {
    match e
    case Begin(w) => TakeInv(s, w, n);
    case Return(w, value) =>
      ReturnInv(s, w, value, n);
      var mid := TakeBack(s, w, value).(workers := s.workers[w := Fresh]);
      TakeInv(mid, w, n);
      assert mid.workers[w := Done] == s.workers[w := Done];
      assert mid.workers[w := Busy(s.next)] == s.workers[w := Busy(s.next)];
    case Reject(w) => RejectInv(s, w, n);
  }

  // ---- runs ------------------------------------------------------------------------------------

  ghost predicate CanRun<R>(s: Pool<R>, n: nat, run: seq<Step<R>>)
    decreases |run|
  {
    run == [] || (Enabled(s, run[0]) && CanRun(Apply(s, n, run[0]), n, run[1..]))
  }

  ghost function After<R>(s: Pool<R>, n: nat, run: seq<Step<R>>): Pool<R>
    requires CanRun(s, n, run)
    decreases |run|
  {
    if run == [] then s else After(Apply(s, n, run[0]), n, run[1..])
  }

  lemma {:induction false} InvHolds<R>(s: Pool<R>, n: nat, run: seq<Step<R>>)
    requires Inv(s, n) && CanRun(s, n, run)
    ensures Inv(After(s, n, run), n) && |After(s, n, run).workers| == |s.workers|
    decreases |run|
  {
    if run != [] {
      InvPreserved(s, n, run[0]);
      InvHolds(Apply(s, n, run[0]), n, run[1..]);
    }
  }

  /** The promise of all workers resolves when every worker has stopped, and only then. */
  ghost predicate Resolved<R>(s: Pool<R>)
  {
    forall w :: 0 <= w < |s.workers| ==> s.workers[w].Done?
  }

  /** Every item has been called exactly once, and each call returned. */
  ghost predicate Complete<R>(s: Pool<R>, n: nat)
  {
    EachOnce(s.finished) && s.next == n && forall j: nat :: Returned(s, j) <==> j < n
  }

  lemma StoppedIsComplete<R>(s: Pool<R>, n: nat)
    requires Inv(s, n) && Resolved(s) && (s.workers != [] || n == 0)
    ensures Complete(s, n)
  {
    forall j: nat ensures !Held(s, j) {}
    if n > 0 { assert s.workers[0].Done?; }
  }

  /**
   * Under every schedule a pool that resolves has run each item exactly once, exactly when
   * it had a worker or nothing to do.
   */
  lemma ResolvedIsComplete<R>(limit: int, n: nat, run: seq<Step<R>>)
    requires CanRun(Start(limit, n), n, run) && Resolved(After(Start(limit, n), n, run))
    ensures Complete(After(Start(limit, n), n, run), n) <==> limit >= 1 || n == 0
  {
    var s := After(Start(limit, n), n, run);
    StartInv<R>(limit, n);
    InvHolds(Start(limit, n), n, run);
    if limit >= 1 || n == 0 {
      StoppedIsComplete(s, n);
    } else {
      NoWorkerNoStep(Start(limit, n), n, run);
    }
  }

  lemma NoWorkerNoStep<R>(s: Pool<R>, n: nat, run: seq<Step<R>>)
    requires s.workers == [] && CanRun(s, n, run)
    ensures After(s, n, run) == s
  {}

  /** How many calls are in flight. */
  ghost function InFlight(workers: seq<Worker>): nat
  {
    if workers == [] then 0
    else InFlight(workers[..|workers| - 1]) + if workers[|workers| - 1].Busy? then 1 else 0
  }

  lemma {:induction false} InFlightAtMostWorkers(workers: seq<Worker>)
    ensures InFlight(workers) <= |workers|
  {
    if workers != [] { InFlightAtMostWorkers(workers[..|workers| - 1]); }
  }

  lemma InFlightIsHeld(workers: seq<Worker>, limit: int, n: nat)
    requires |workers| == WorkerCount(limit, n)
    ensures InFlight(workers) <= n && (limit >= 0 ==> InFlight(workers) <= limit)
    ensures limit <= 0 ==> InFlight(workers) == 0
  {
    InFlightAtMostWorkers(workers);
  }

  /** Under every schedule at most `limit` calls are in flight, and never more than there are items. */
  lemma InFlightBounded<R>(limit: int, n: nat, run: seq<Step<R>>)
    requires CanRun(Start(limit, n), n, run)
    ensures var workers := After(Start(limit, n), n, run).workers;
      && InFlight(workers) <= n && (limit >= 0 ==> InFlight(workers) <= limit)
      && (limit <= 0 ==> InFlight(workers) == 0)
  {
    StartInv<R>(limit, n);
    InvHolds(Start(limit, n), n, run);
    InFlightIsHeld(After(Start(limit, n), n, run).workers, limit, n);
  }

  /** The first k of m workers have begun. */
  ghost function Begun(m: nat, k: nat): seq<Worker>
    requires k <= m
  {
    seq(m, i requires 0 <= i => if i < k then Busy(i) else Fresh)
  }

  lemma {:induction false} BegunInFlight(m: nat)
    ensures InFlight(Begun(m, m)) == m
  {
    if m > 0 {
      assert Begun(m, m)[..m - 1] == Begun(m - 1, m - 1);
      BegunInFlight(m - 1);
    }
  }

  lemma {:induction false} AllBegin<R>(s: Pool<R>, n: nat, m: nat, k: nat) returns (run: seq<Step<R>>)
    requires k <= m <= n && s.workers == Begun(m, k) && s.next == k
    ensures CanRun(s, n, run) && After(s, n, run).workers == Begun(m, m)
    decreases m - k
  {
    if k == m {
      run := [];
    } else {
      var e: Step<R> := Begin(k);
      assert Apply(s, n, e).workers == Begun(m, k + 1);
      var more := AllBegin(Apply(s, n, e), n, m, k + 1);
      run := [e] + more;
      assert run[1..] == more;
    }
  }

  /** And the bound is reached: some schedule has as many calls in flight as limit and items allow. */
  lemma InFlightReached<R>(limit: nat, n: nat) returns (run: seq<Step<R>>)
    ensures CanRun(Start(limit, n), n, run)
    ensures InFlight(After(Start(limit, n), n, run).workers) == if limit < n then limit else n
  {
    var m := if limit < n then limit else n;
    var s: Pool<R> := Start(limit, n);
    assert s.workers == Begun(m, 0);
    run := AllBegin(s, n, m, 0);
    BegunInFlight(m);
  }

  // ---- progress -----------------------------------------------------------------------------------

  ghost function Idle(workers: seq<Worker>): nat
  {
    if workers == [] then 0
    else
      var w := workers[|workers| - 1];
      Idle(workers[..|workers| - 1]) + if w.Fresh? then 2 else if w.Busy? then 1 else 0
  }

  lemma {:induction false} IdleUpdate(workers: seq<Worker>, w: nat, x: Worker)
    requires w < |workers|
    ensures Idle(workers[w := x]) == Idle(workers)
      - (if workers[w].Fresh? then 2 else if workers[w].Busy? then 1 else 0)
      + (if x.Fresh? then 2 else if x.Busy? then 1 else 0)
  {
    var k := |workers| - 1;
    if w < k {
      assert workers[w := x][..k] == workers[..k][w := x];
      IdleUpdate(workers[..k], w, x);
    } else {
      assert workers[w := x][..k] == workers[..k];
    }
  }

  /** Steps still to come: at most one begin per worker and one settlement per item. */
  ghost function Remaining<R>(s: Pool<R>, n: nat): int { 2 * (n - s.next) + Idle(s.workers) }

  lemma StepsDecrease<R>(s: Pool<R>, n: nat, e: Step<R>)
    requires Inv(s, n) && Enabled(s, e)
    ensures 0 <= Remaining(Apply(s, n, e), n) < Remaining(s, n)
  {
    IdleUpdate(s.workers, e.w, Apply(s, n, e).workers[e.w]);
    InvPreserved(s, n, e);
  }

  /** A pool in which no step is possible has only stopped and rejected workers. */
  lemma StuckIsSettled<R>(s: Pool<R>)
    requires forall e: Step<R> :: !Enabled(s, e)
    ensures forall w :: 0 <= w < |s.workers| ==> s.workers[w].Done? || s.workers[w].Broken?
  {
    forall w | 0 <= w < |s.workers| ensures s.workers[w].Done? || s.workers[w].Broken? {
      assert !Enabled(s, Begin(w)) && !Enabled(s, Reject(w));
    }
  }

  ghost predicate NoneBroken(workers: seq<Worker>)
  {
    forall w :: 0 <= w < |workers| ==> !workers[w].Broken?
  }

  lemma {:induction false} NoneBreaks<R>(s: Pool<R>, n: nat, run: seq<Step<R>>)
    requires CanRun(s, n, run) && NoneBroken(s.workers)
    requires forall i :: 0 <= i < |run| ==> !run[i].Reject?
    ensures NoneBroken(After(s, n, run).workers)
    decreases |run|
  {
    if run != [] { NoneBreaks(Apply(s, n, run[0]), n, run[1..]); }
  }

  /** When no call rejects, a pool that cannot step has resolved. */
  lemma NoRejectResolves<R>(limit: int, n: nat, run: seq<Step<R>>)
    requires CanRun(Start(limit, n), n, run) && forall i :: 0 <= i < |run| ==> !run[i].Reject?
    requires forall e: Step<R> :: !Enabled(After(Start(limit, n), n, run), e)
    ensures Resolved(After(Start(limit, n), n, run))
  {
    NoneBreaks(Start(limit, n), n, run);
    StuckIsSettled(After(Start(limit, n), n, run));
  }

  /** Every run is finite. */
  lemma {:induction false} RunsAreBounded<R>(s: Pool<R>, n: nat, run: seq<Step<R>>)
    requires Inv(s, n) && CanRun(s, n, run)
    ensures |run| <= Remaining(s, n)
    decreases |run|
  {
    if run != [] {
      StepsDecrease(s, n, run[0]);
      InvPreserved(s, n, run[0]);
      RunsAreBounded(Apply(s, n, run[0]), n, run[1..]);
    }
  }

  // ---- results in input order ------------------------------------------------------------------------

  /** Whatever the schedule, a resolved pool has in slot i what the call on item i returned. */
  lemma ResultsAreComplete<R>(limit: int, n: nat, run: seq<Step<R>>, i: nat)
    requires CanRun(Start(limit, n), n, run) && Resolved(After(Start(limit, n), n, run)) && limit >= 1 && i < n
    ensures var s := After(Start(limit, n), n, run);
      && |s.results| == n && s.results[i].Some?
      && exists k :: 0 <= k < |s.finished| && s.finished[k] == Finished(i, s.results[i].value)
  {
    var s := After(Start(limit, n), n, run);
    StartInv<R>(limit, n);
    InvHolds(Start(limit, n), n, run);
    ResolvedIsComplete(limit, n, run);
    assert Returned(s, i);
    var k :| 0 <= k < |s.finished| && s.finished[k].item == i;
    assert s.finished[k] == Finished(i, s.results[i].value);
  }

  /** Every call of the run returns what f says for its item. */
  ghost predicate AnswersBy<R>(s: Pool<R>, n: nat, run: seq<Step<R>>, f: nat -> R)
    requires CanRun(s, n, run)
    decreases |run|
  {
    run == []
    || ((run[0].Return? ==> run[0].value == f(s.workers[run[0].w].item))
      && AnswersBy(Apply(s, n, run[0]), n, run[1..], f))
  }

  ghost predicate FinishedBy<R>(finished: seq<Finished<R>>, f: nat -> R)
  {
    forall k :: 0 <= k < |finished| ==> finished[k].value == f(finished[k].item)
  }

  lemma {:induction false} RunFinishesBy<R>(s: Pool<R>, n: nat, run: seq<Step<R>>, f: nat -> R)
    requires CanRun(s, n, run) && AnswersBy(s, n, run, f) && FinishedBy(s.finished, f)
    ensures FinishedBy(After(s, n, run).finished, f)
    decreases |run|
  {
    if run != [] { RunFinishesBy(Apply(s, n, run[0]), n, run[1..], f); }
  }

  /** The completion order leaves no trace: the results are those of the items in input order. */
  lemma ResultsAreInInputOrder<R>(limit: int, n: nat, run: seq<Step<R>>, f: nat -> R)
    requires CanRun(Start(limit, n), n, run) && Resolved(After(Start(limit, n), n, run)) && limit >= 1
    requires AnswersBy(Start(limit, n), n, run, f)
    ensures After(Start(limit, n), n, run).results == seq(n, i requires 0 <= i => Some(f(i)))
  {
    var s := After(Start(limit, n), n, run);
    StartInv<R>(limit, n);
    InvHolds(Start(limit, n), n, run);
    RunFinishesBy(Start(limit, n), n, run, f);
    forall i | 0 <= i < n ensures s.results[i] == Some(f(i)) { ResultsAreComplete(limit, n, run, i); }
  }
}
