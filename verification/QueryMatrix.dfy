/**
 * The collector's query matrix (`runQueryMatrix` in collector/src/nfm-query.ts): the jobs of one
 * cycle under every schedule, all counting into one shared set of counters.
 */
module QueryMatrix {
  import opened Collections
  import opened Dedupe
  import opened FlowTypes
  import opened QueryJob
  import opened QueryLifecycle
  import opened WorkerPool

  datatype JobResult = JobResult(ok: bool, edges: seq<FlowEdge>)

  /**
   * The pool, the job of each worker and the shared counters. The ledger is bookkeeping of the
   * model: what each job has added to the counters.
   */
  datatype Matrix = Matrix(pool: Pool<JobResult>, jobs: seq<Job>, stats: CycleStats, ledger: seq<CycleStats>)

  function Initial(concurrency: int, n: nat): Matrix
  {
    Matrix(Start(concurrency, n), seq(WorkerCount(concurrency, n), i => Job(0, 0, Starting)), ZERO, seq(n, j => ZERO))
  }

  /** One job adds to the shared counters. */
  function Count(m: Matrix, j: nat, add: CycleStats): Matrix
    requires j < |m.ledger|
  {
    m.(stats := Plus(m.stats, add), ledger := m.ledger[j := Plus(m.ledger[j], add)])
  }

  /** The top of the worker loop; a job that is taken starts at once. */
  function TakeJob(m: Matrix, w: nat, n: nat): Matrix
    requires w < |m.pool.workers| == |m.jobs| && n == |m.ledger|
  {
    var taken := m.(pool := Take(m.pool, w, n));
    if m.pool.next < n then Count(taken.(jobs := m.jobs[w := Job(0, 0, Starting)]), m.pool.next, STARTED) else taken
  }

  /** Worker w can go on: it begins, or the call it awaits is answered. */
  predicate CanStep(m: Matrix, n: nat, w: nat)
  {
    && w < |m.pool.workers| == |m.jobs| && n == |m.ledger|
    && (m.pool.workers[w].Fresh? || (m.pool.workers[w].Busy? && m.pool.workers[w].item < n))
  }

  function Step(m: Matrix, scripts: seq<seq<Reply>>, pollMax: int, w: nat): Matrix
    requires CanStep(m, |scripts|, w)
  {
    if m.pool.workers[w].Fresh? then TakeJob(m, w, |scripts|)
    else
      var j, job := m.pool.workers[w].item, m.jobs[w];
      var reply := ReplyAt(scripts[j], job.next);
      if TriesAgain(job, reply) then
        Count(m.(jobs := m.jobs[w := Job(job.next + 1, job.tries + 1, job.point)]), j, RETRIED)
      else
        match GoOn(pollMax, job.point, reply)
        case Awaits(point, add) => Count(m.(jobs := m.jobs[w := Job(job.next + 1, 0, point)]), j, add)
        case Ended(ok, edges, add) =>
          TakeJob(Count(m.(pool := TakeBack(m.pool, w, JobResult(ok, edges))), j, add), w, |scripts|)
  }

  // ---- the invariant -----------------------------------------------------------------------------

  ghost function Total(ledger: seq<CycleStats>): CycleStats
  {
    if ledger == [] then ZERO else Plus(Total(ledger[..|ledger| - 1]), ledger[|ledger| - 1])
  }

  lemma {:induction false} TotalUpdate(ledger: seq<CycleStats>, j: nat, add: CycleStats)
    requires j < |ledger|
    ensures Total(ledger[j := Plus(ledger[j], add)]) == Plus(Total(ledger), add)
  {
    var n, after := |ledger| - 1, ledger[j := Plus(ledger[j], add)];
    if j < n {
      assert after[..n] == ledger[..n][j := Plus(ledger[..n][j], add)];
      TotalUpdate(ledger[..n], j, add);
    } else {
      assert after[..n] == ledger[..n];
    }
  }

  lemma {:induction false} TotalOfNone(n: nat)
    ensures Total(seq(n, j => ZERO)) == ZERO
  {
    if n > 0 {
      assert seq(n, j => ZERO)[..n - 1] == seq(n - 1, j => ZERO);
      TotalOfNone(n - 1);
    }
  }

  /** A job under way is headed for its outcome. */
  ghost predicate WorkerOk(m: Matrix, scripts: seq<seq<Reply>>, pollMax: int, ends: seq<Outcome>, w: nat)
    requires w < |m.pool.workers| == |m.jobs| && |m.ledger| == |scripts| == |ends|
  {
    var worker := m.pool.workers[w];
    worker.Busy? ==>
      && worker.item < |scripts|
      && Underway(scripts[worker.item], pollMax, m.jobs[w], m.ledger[worker.item], ends[worker.item])
  }

  /** A finished job came to its outcome. */
  ghost predicate FinishedOk(m: Matrix, ends: seq<Outcome>, k: nat)
    requires k < |m.pool.finished| && |m.ledger| == |ends|
  {
    var f := m.pool.finished[k];
    f.item < |ends| && Outcome(f.value.ok, f.value.edges, m.ledger[f.item]) == ends[f.item]
  }

  ghost predicate Shape(m: Matrix, n: nat)
  {
    && |m.pool.workers| == |m.jobs| && |m.ledger| == n
    && WorkerPool.Inv(m.pool, n) && NoneBroken(m.pool.workers)
  }

  ghost predicate StatsOk(m: Matrix)
  {
    && m.stats == Total(m.ledger)
    && m.stats.started == m.pool.next && m.stats.succeeded + m.stats.failed == |m.pool.finished|
  }

  ghost predicate WorkersOk(m: Matrix, scripts: seq<seq<Reply>>, pollMax: int, ends: seq<Outcome>)
    requires |m.pool.workers| == |m.jobs| && |m.ledger| == |scripts| == |ends|
  {
    forall w: nat :: w < |m.jobs| ==> WorkerOk(m, scripts, pollMax, ends, w)
  }

  ghost predicate AllFinishedOk(m: Matrix, ends: seq<Outcome>)
    requires |m.ledger| == |ends|
  {
    forall k: nat :: k < |m.pool.finished| ==> FinishedOk(m, ends, k)
  }

  /** A job that no worker has taken has added nothing. */
  ghost predicate UntakenOk(m: Matrix)
  {
    forall j: nat :: m.pool.next <= j < |m.ledger| ==> m.ledger[j] == ZERO
  }

  ghost predicate JobsOk(m: Matrix, scripts: seq<seq<Reply>>, pollMax: int, ends: seq<Outcome>)
    requires |m.pool.workers| == |m.jobs| && |m.ledger| == |scripts| == |ends|
  {
    WorkersOk(m, scripts, pollMax, ends) && AllFinishedOk(m, ends) && UntakenOk(m)
  }

  /**
   * The counters are the sum of what the jobs added; every job taken is counted as started and
   * every job finished as succeeded or failed; each is headed for its outcome, or came to it.
   */
  ghost predicate MatrixInv(m: Matrix, scripts: seq<seq<Reply>>, pollMax: int, ends: seq<Outcome>)
  {
    |ends| == |scripts| && Shape(m, |scripts|) && StatsOk(m) && JobsOk(m, scripts, pollMax, ends)
  }

  ghost predicate Begins(scripts: seq<seq<Reply>>, pollMax: int, ends: seq<Outcome>, j: nat)
    requires j < |scripts| == |ends|
  {
    Underway(scripts[j], pollMax, Job(0, 0, Starting), STARTED, ends[j])
  }

  /** The outcomes for which the jobs are headed when they begin. */
  ghost predicate Headed(scripts: seq<seq<Reply>>, pollMax: int, ends: seq<Outcome>)
  {
    |ends| == |scripts| && forall j: nat :: j < |scripts| ==> Begins(scripts, pollMax, ends, j)
  }

  lemma InitialInv(concurrency: int, scripts: seq<seq<Reply>>, pollMax: int, ends: seq<Outcome>)
    requires |ends| == |scripts|
    ensures MatrixInv(Initial(concurrency, |scripts|), scripts, pollMax, ends)
  {
    StartInv<JobResult>(concurrency, |scripts|);
    TotalOfNone(|scripts|);
  }

  /** The item of a busy worker is nobody else's and has not come back. */
  lemma ItemIsAlone(s: Pool<JobResult>, n: nat, w: nat)
    requires WorkerPool.Inv(s, n) && w < |s.workers| && s.workers[w].Busy?
    ensures s.workers[w].item < s.next <= n
    ensures forall v :: 0 <= v < |s.workers| && s.workers[v].Busy? && v != w ==> s.workers[v].item != s.workers[w].item
    ensures forall k :: 0 <= k < |s.finished| ==> s.finished[k].item != s.workers[w].item
  {
    var j := s.workers[w].item;
    assert Holds(s.workers[w], j);
    assert Held(s, j) && !Returned(s, j);
    forall v | 0 <= v < |s.workers| && s.workers[v].Busy? && v != w ensures s.workers[v].item != j {
      assert !Holds(s.workers[v], j);
    }
  }

  ghost predicate ItemsTaken(s: Pool<JobResult>)
  {
    && (forall v :: 0 <= v < |s.workers| && s.workers[v].Busy? ==> s.workers[v].item < s.next)
    && forall k :: 0 <= k < |s.finished| ==> s.finished[k].item < s.next
  }

  lemma ItemsAreTaken(s: Pool<JobResult>, n: nat)
    requires WorkerPool.Inv(s, n)
    ensures ItemsTaken(s)
  {
    forall v | 0 <= v < |s.workers| && s.workers[v].Busy? ensures s.workers[v].item < s.next { ItemIsAlone(s, n, v); }
    forall k | 0 <= k < |s.finished| ensures s.finished[k].item < s.next { assert Returned(s, s.finished[k].item); }
  }

  lemma TakeShape(m: Matrix, w: nat, n: nat)
    requires Shape(m, n) && w < |m.jobs| && m.pool.workers[w].Fresh?
    ensures Shape(TakeJob(m, w, n), n) && TakeJob(m, w, n).pool == Take(m.pool, w, n)
  {
    TakeInv(m.pool, w, n);
    assert TakeJob(m, w, n).pool == Take(m.pool, w, n);
  }

  lemma TakeStats(m: Matrix, w: nat, n: nat)
    requires |m.pool.workers| == |m.jobs| && n == |m.ledger| && StatsOk(m) && w < |m.jobs|
    ensures StatsOk(TakeJob(m, w, n))
  {
    if m.pool.next < n { TotalUpdate(m.ledger, m.pool.next, STARTED); }
  }

  lemma TakenIsUnderway(m: Matrix, scripts: seq<seq<Reply>>, pollMax: int, ends: seq<Outcome>)
    requires |m.ledger| == |scripts| && m.pool.next < |scripts| && UntakenOk(m) && Headed(scripts, pollMax, ends)
    ensures var j := m.pool.next;
      Underway(scripts[j], pollMax, Job(0, 0, Starting), Plus(m.ledger[j], STARTED), ends[j])
  {
    assert Begins(scripts, pollMax, ends, m.pool.next);
    assert m.ledger[m.pool.next] == ZERO;
    PlusZero(m.ledger[m.pool.next], STARTED);
  }

  lemma TakeWorkers(m: Matrix, scripts: seq<seq<Reply>>, pollMax: int, ends: seq<Outcome>, w: nat)
    requires |m.pool.workers| == |m.jobs| && |m.ledger| == |scripts| && w < |m.jobs| && ItemsTaken(m.pool)
    requires Headed(scripts, pollMax, ends) && UntakenOk(m) && WorkersOk(m, scripts, pollMax, ends)
    ensures WorkersOk(TakeJob(m, w, |scripts|), scripts, pollMax, ends)
  {
    var after := TakeJob(m, w, |scripts|);
    if m.pool.next < |scripts| { TakenIsUnderway(m, scripts, pollMax, ends); }
    forall v: nat | v < |after.jobs| ensures WorkerOk(after, scripts, pollMax, ends, v) {
      assert WorkerOk(m, scripts, pollMax, ends, v);
    }
  }

  lemma TakeOthers(m: Matrix, ends: seq<Outcome>, w: nat, n: nat)
    requires |m.pool.workers| == |m.jobs| && |m.ledger| == n == |ends| && w < |m.jobs| && ItemsTaken(m.pool)
    requires UntakenOk(m) && AllFinishedOk(m, ends)
    ensures UntakenOk(TakeJob(m, w, n)) && AllFinishedOk(TakeJob(m, w, n), ends)
  {
    var after := TakeJob(m, w, n);
    forall k: nat | k < |after.pool.finished| ensures FinishedOk(after, ends, k) {
      assert FinishedOk(m, ends, k);
    }
  }

  /** A fresh worker takes a job or stops. */
  lemma TakeKeeps(m: Matrix, scripts: seq<seq<Reply>>, pollMax: int, ends: seq<Outcome>, w: nat)
    requires Headed(scripts, pollMax, ends) && MatrixInv(m, scripts, pollMax, ends)
    requires w < |m.jobs| && m.pool.workers[w].Fresh?
    ensures MatrixInv(TakeJob(m, w, |scripts|), scripts, pollMax, ends)
  {
    ItemsAreTaken(m.pool, |scripts|);
    TakeShape(m, w, |scripts|);
    TakeStats(m, w, |scripts|);
    TakeWorkers(m, scripts, pollMax, ends, w);
    TakeOthers(m, ends, w, |scripts|);
  }

  /** A job under way goes on. */
  lemma GoOnKeeps(
      m: Matrix, scripts: seq<seq<Reply>>, pollMax: int, ends: seq<Outcome>, w: nat, job: Job, add: CycleStats)
    requires MatrixInv(m, scripts, pollMax, ends) && w < |m.jobs| && m.pool.workers[w].Busy?
    requires var j := m.pool.workers[w].item;
      j < |scripts| && Underway(scripts[j], pollMax, job, Plus(m.ledger[j], add), ends[j])
    requires add.started == add.succeeded == add.failed == 0
    ensures MatrixInv(Count(m.(jobs := m.jobs[w := job]), m.pool.workers[w].item, add), scripts, pollMax, ends)
  {
    var j := m.pool.workers[w].item;
    var after := Count(m.(jobs := m.jobs[w := job]), j, add);
    ItemIsAlone(m.pool, |scripts|, w);
    TotalUpdate(m.ledger, j, add);
    forall v: nat | v < |after.jobs| ensures WorkerOk(after, scripts, pollMax, ends, v) {
      assert WorkerOk(m, scripts, pollMax, ends, v);
    }
    forall k: nat | k < |after.pool.finished| ensures FinishedOk(after, ends, k) {
      assert FinishedOk(m, ends, k);
    }
  }

  /** A job that ended, its worker about to take the next one. */
  function Freed(m: Matrix, w: nat, value: JobResult, add: CycleStats): Matrix
    requires w < |m.pool.workers| && m.pool.workers[w].Busy? && m.pool.workers[w].item < |m.ledger|
  {
    var back := TakeBack(m.pool, w, value);
    Count(m.(pool := back.(workers := back.workers[w := Fresh])), m.pool.workers[w].item, add)
  }

  lemma EndKeeps(
      m: Matrix, scripts: seq<seq<Reply>>, pollMax: int, ends: seq<Outcome>, w: nat, value: JobResult, add: CycleStats)
    requires MatrixInv(m, scripts, pollMax, ends) && w < |m.jobs| && m.pool.workers[w].Busy?
    requires var j := m.pool.workers[w].item;
      j < |scripts| && Outcome(value.ok, value.edges, Plus(m.ledger[j], add)) == ends[j]
    requires add.started == 0 && add.succeeded + add.failed == 1
    ensures MatrixInv(Freed(m, w, value, add), scripts, pollMax, ends)
  {
    var j, after := m.pool.workers[w].item, Freed(m, w, value, add);
    ReturnInv(m.pool, w, value, |scripts|);
    ItemIsAlone(m.pool, |scripts|, w);
    TotalUpdate(m.ledger, j, add);
    forall v: nat | v < |after.jobs| ensures WorkerOk(after, scripts, pollMax, ends, v) {
      assert WorkerOk(m, scripts, pollMax, ends, v);
    }
    forall k: nat | k < |after.pool.finished| ensures FinishedOk(after, ends, k) {
      if k < |m.pool.finished| { assert FinishedOk(m, ends, k); }
    }
  }

  lemma TakeAfterEnd(m: Matrix, w: nat, value: JobResult, add: CycleStats, n: nat)
    requires CanStep(m, n, w) && m.pool.workers[w].Busy?
    ensures TakeJob(Count(m.(pool := TakeBack(m.pool, w, value)), m.pool.workers[w].item, add), w, n)
         == TakeJob(Freed(m, w, value, add), w, n)
  {
    var workers := m.pool.workers;
    assert workers[w := Fresh][w := Done] == workers[w := Done];
    assert workers[w := Fresh][w := Busy(m.pool.next)] == workers[w := Busy(m.pool.next)];
  }

  lemma EndPreserves(
      m: Matrix, scripts: seq<seq<Reply>>, pollMax: int, ends: seq<Outcome>, w: nat, value: JobResult, add: CycleStats)
    requires Headed(scripts, pollMax, ends) && MatrixInv(m, scripts, pollMax, ends)
    requires CanStep(m, |scripts|, w) && m.pool.workers[w].Busy?
    requires var j := m.pool.workers[w].item;
      Outcome(value.ok, value.edges, Plus(m.ledger[j], add)) == ends[j]
    requires add.started == 0 && add.succeeded + add.failed == 1
    ensures MatrixInv(
      TakeJob(Count(m.(pool := TakeBack(m.pool, w, value)), m.pool.workers[w].item, add), w, |scripts|),
      scripts, pollMax, ends)
  {
    EndKeeps(m, scripts, pollMax, ends, w, value, add);
    TakeKeeps(Freed(m, w, value, add), scripts, pollMax, ends, w);
    TakeAfterEnd(m, w, value, add, |scripts|);
  }

  /** The answer to a busy worker's call keeps its outcome. */
  lemma AnswerKeepsWorker(m: Matrix, scripts: seq<seq<Reply>>, pollMax: int, ends: seq<Outcome>, w: nat)
    requires MatrixInv(m, scripts, pollMax, ends) && CanStep(m, |scripts|, w) && m.pool.workers[w].Busy?
    ensures var j := m.pool.workers[w].item;
      Answered(scripts[j], pollMax, m.jobs[w], m.ledger[j], ends[j])
  {
    var j := m.pool.workers[w].item;
    assert WorkerOk(m, scripts, pollMax, ends, w);
    AnswerKeepsOutcome(scripts[j], pollMax, m.jobs[w], m.ledger[j], ends[j]);
  }

  lemma RetryPreserves(m: Matrix, scripts: seq<seq<Reply>>, pollMax: int, ends: seq<Outcome>, w: nat)
    requires MatrixInv(m, scripts, pollMax, ends) && CanStep(m, |scripts|, w) && m.pool.workers[w].Busy?
    requires TriesAgain(m.jobs[w], ReplyAt(scripts[m.pool.workers[w].item], m.jobs[w].next))
    ensures MatrixInv(Step(m, scripts, pollMax, w), scripts, pollMax, ends)
  {
    var job := m.jobs[w];
    AnswerKeepsWorker(m, scripts, pollMax, ends, w);
    GoOnKeeps(m, scripts, pollMax, ends, w, Job(job.next + 1, job.tries + 1, job.point), RETRIED);
  }

  lemma AnswerPreserves(m: Matrix, scripts: seq<seq<Reply>>, pollMax: int, ends: seq<Outcome>, w: nat)
    requires Headed(scripts, pollMax, ends) && MatrixInv(m, scripts, pollMax, ends)
    requires CanStep(m, |scripts|, w) && m.pool.workers[w].Busy?
    requires !TriesAgain(m.jobs[w], ReplyAt(scripts[m.pool.workers[w].item], m.jobs[w].next))
    ensures MatrixInv(Step(m, scripts, pollMax, w), scripts, pollMax, ends)
  {
    var job := m.jobs[w];
    AnswerKeepsWorker(m, scripts, pollMax, ends, w);
    match GoOn(pollMax, job.point, ReplyAt(scripts[m.pool.workers[w].item], job.next))
    case Awaits(point, add) => GoOnKeeps(m, scripts, pollMax, ends, w, Job(job.next + 1, 0, point), add);
    case Ended(ok, edges, add) => EndPreserves(m, scripts, pollMax, ends, w, JobResult(ok, edges), add);
  }

  /** Every step of every worker keeps the invariant. */
  lemma MatrixInvPreserved(m: Matrix, scripts: seq<seq<Reply>>, pollMax: int, ends: seq<Outcome>, w: nat)
    requires Headed(scripts, pollMax, ends) && MatrixInv(m, scripts, pollMax, ends) && CanStep(m, |scripts|, w)
    ensures MatrixInv(Step(m, scripts, pollMax, w), scripts, pollMax, ends)
  {
    if m.pool.workers[w].Fresh? {
      TakeKeeps(m, scripts, pollMax, ends, w);
    } else if TriesAgain(m.jobs[w], ReplyAt(scripts[m.pool.workers[w].item], m.jobs[w].next)) {
      RetryPreserves(m, scripts, pollMax, ends, w);
    } else {
      AnswerPreserves(m, scripts, pollMax, ends, w);
    }
  }

  // ---- runs --------------------------------------------------------------------------------------

  ghost predicate StepsTo(m: Matrix, after: Matrix, scripts: seq<seq<Reply>>, pollMax: int)
  {
    exists w: nat :: CanStep(m, |scripts|, w) && after == Step(m, scripts, pollMax, w)
  }

  ghost predicate StepAt(states: seq<Matrix>, scripts: seq<seq<Reply>>, pollMax: int, i: nat)
    requires i + 1 < |states|
  {
    StepsTo(states[i], states[i + 1], scripts, pollMax)
  }

  /** The matrix from its start on, under any schedule of its workers. */
  ghost predicate IsRun(states: seq<Matrix>, concurrency: int, scripts: seq<seq<Reply>>, pollMax: int)
  {
    && states != [] && states[0] == Initial(concurrency, |scripts|)
    && forall i: nat :: i + 1 < |states| ==> StepAt(states, scripts, pollMax, i)
  }

  lemma StepsToKeeps(m: Matrix, after: Matrix, scripts: seq<seq<Reply>>, pollMax: int, ends: seq<Outcome>)
    requires Headed(scripts, pollMax, ends) && MatrixInv(m, scripts, pollMax, ends)
    requires StepsTo(m, after, scripts, pollMax)
    ensures MatrixInv(after, scripts, pollMax, ends) && |after.jobs| == |m.jobs|
  {
    var w: nat :| CanStep(m, |scripts|, w) && after == Step(m, scripts, pollMax, w);
    MatrixInvPreserved(m, scripts, pollMax, ends, w);
  }

  lemma {:induction false} InvAt(
      states: seq<Matrix>, concurrency: int, scripts: seq<seq<Reply>>, pollMax: int, ends: seq<Outcome>, i: nat)
    requires IsRun(states, concurrency, scripts, pollMax) && Headed(scripts, pollMax, ends) && i < |states|
    ensures MatrixInv(states[i], scripts, pollMax, ends) && |states[i].jobs| == WorkerCount(concurrency, |scripts|)
  {
    if i == 0 {
      InitialInv(concurrency, scripts, pollMax, ends);
    } else {
      InvAt(states, concurrency, scripts, pollMax, ends, i - 1);
      assert StepAt(states, scripts, pollMax, i - 1);
      StepsToKeeps(states[i - 1], states[i], scripts, pollMax, ends);
    }
  }

  /** What each job comes to when it is led alone. */
  ghost function AloneAll(scripts: seq<seq<Reply>>, pollMax: int): seq<Outcome>
  {
    seq(|scripts|, j requires 0 <= j < |scripts| => Alone(scripts[j], pollMax))
  }

  lemma AllHeaded(scripts: seq<seq<Reply>>, pollMax: int)
    ensures Headed(scripts, pollMax, AloneAll(scripts, pollMax))
  {
    forall j: nat | j < |scripts| ensures Begins(scripts, pollMax, AloneAll(scripts, pollMax), j) {
      JobEndsAlone(scripts[j], pollMax);
    }
  }

  /** In every run each job is headed for what it comes to when it is led alone. */
  lemma RunInv(states: seq<Matrix>, concurrency: int, scripts: seq<seq<Reply>>, pollMax: int, i: nat)
    requires IsRun(states, concurrency, scripts, pollMax) && i < |states|
    ensures MatrixInv(states[i], scripts, pollMax, AloneAll(scripts, pollMax))
    ensures |states[i].jobs| == WorkerCount(concurrency, |scripts|)
  {
    AllHeaded(scripts, pollMax);
    InvAt(states, concurrency, scripts, pollMax, AloneAll(scripts, pollMax), i);
  }

  /** In every run at most `concurrency` queries are under way. */
  lemma UnderwayBounded(states: seq<Matrix>, concurrency: int, scripts: seq<seq<Reply>>, pollMax: int, i: nat)
    requires IsRun(states, concurrency, scripts, pollMax) && i < |states|
    ensures var workers := states[i].pool.workers;
      && InFlight(workers) <= |scripts| && (concurrency >= 0 ==> InFlight(workers) <= concurrency)
      && (concurrency <= 0 ==> InFlight(workers) == 0)
  {
    RunInv(states, concurrency, scripts, pollMax, i);
    InFlightIsHeld(states[i].pool.workers, concurrency, |scripts|);
  }

  lemma StuckIsResolved(m: Matrix, n: nat)
    requires Shape(m, n) && forall w: nat :: w < |m.pool.workers| ==> !CanStep(m, n, w)
    ensures Resolved(m.pool)
  {
    ItemsAreTaken(m.pool, n);
    forall w: nat | w < |m.pool.workers| ensures m.pool.workers[w].Done? { assert !CanStep(m, n, w); }
  }

  /** A matrix in which no worker can go on has ended: a job never rejects. */
  lemma StuckHasEnded(states: seq<Matrix>, concurrency: int, scripts: seq<seq<Reply>>, pollMax: int)
    requires IsRun(states, concurrency, scripts, pollMax)
    requires forall w: nat {:trigger CanStep(states[|states| - 1], |scripts|, w)} ::
      !CanStep(states[|states| - 1], |scripts|, w)
    ensures Resolved(states[|states| - 1].pool)
  {
    RunInv(states, concurrency, scripts, pollMax, |states| - 1);
    StuckIsResolved(states[|states| - 1], |scripts|);
  }

  /** A run to the end, with the matrix that it ends in. */
  ghost predicate EndsIn(states: seq<Matrix>, m: Matrix, concurrency: int, scripts: seq<seq<Reply>>, pollMax: int)
  {
    IsRun(states, concurrency, scripts, pollMax) && m == states[|states| - 1] && Resolved(m.pool)
  }

  // ---- every schedule is finite --------------------------------------------------------------------

  /** Steps that a worker can still make before it takes its next job. */
  ghost function StepsLeft(worker: Worker, job: Job, scripts: seq<seq<Reply>>): int
  {
    match worker
    case Fresh => 1
    case Busy(j) => if j < |scripts| then |scripts[j]| + 1 - job.next else 0
    case _ => 0
  }

  ghost function WorkersLeft(workers: seq<Worker>, jobs: seq<Job>, scripts: seq<seq<Reply>>): int
    requires |workers| == |jobs|
  {
    if workers == [] then 0
    else
      var n := |workers| - 1;
      WorkersLeft(workers[..n], jobs[..n], scripts) + StepsLeft(workers[n], jobs[n], scripts)
  }

  lemma {:induction false} WorkersLeftUpdate(
      workers: seq<Worker>, jobs: seq<Job>, scripts: seq<seq<Reply>>, w: nat, x: Worker, job: Job)
    requires w < |workers| == |jobs|
    ensures WorkersLeft(workers[w := x], jobs[w := job], scripts)
         == WorkersLeft(workers, jobs, scripts) - StepsLeft(workers[w], jobs[w], scripts) + StepsLeft(x, job, scripts)
  {
    var n := |workers| - 1;
    if w < n {
      assert workers[w := x][..n] == workers[..n][w := x] && jobs[w := job][..n] == jobs[..n][w := job];
      WorkersLeftUpdate(workers[..n], jobs[..n], scripts, w, x, job);
    } else {
      assert workers[w := x][..n] == workers[..n] && jobs[w := job][..n] == jobs[..n];
    }
  }

  /** Steps of the jobs from number `from` on: each begins, and takes at most one answer more than its script has. */
  ghost function JobsLeft(scripts: seq<seq<Reply>>, from: nat): nat
    decreases |scripts| - from
  {
    if from >= |scripts| then 0 else |scripts[from]| + 2 + JobsLeft(scripts, from + 1)
  }

  ghost function Left(m: Matrix, scripts: seq<seq<Reply>>): int
    requires |m.pool.workers| == |m.jobs|
  {
    JobsLeft(scripts, m.pool.next) + WorkersLeft(m.pool.workers, m.jobs, scripts)
  }

  /** No job is past the end of its script: the client has thrown there, and the job has ended. */
  ghost predicate WithinScripts(m: Matrix, scripts: seq<seq<Reply>>)
  {
    && |m.pool.workers| == |m.jobs| && |m.ledger| == |scripts|
    && forall w: nat :: w < |m.jobs| && m.pool.workers[w].Busy? ==>
         m.pool.workers[w].item < |scripts| && m.jobs[w].next <= |scripts[m.pool.workers[w].item]|
  }

  lemma {:induction false} WorkersLeftNonNegative(workers: seq<Worker>, jobs: seq<Job>, scripts: seq<seq<Reply>>)
    requires |workers| == |jobs|
    requires forall w: nat :: w < |jobs| && workers[w].Busy? ==>
      workers[w].item < |scripts| && jobs[w].next <= |scripts[workers[w].item]|
    ensures WorkersLeft(workers, jobs, scripts) >= 0
  {
    if workers != [] { WorkersLeftNonNegative(workers[..|workers| - 1], jobs[..|jobs| - 1], scripts); }
  }

  lemma TakeUsesStep(m: Matrix, scripts: seq<seq<Reply>>, w: nat)
    requires WithinScripts(m, scripts) && w < |m.jobs|
    ensures var after := TakeJob(m, w, |scripts|);
      && WithinScripts(after, scripts)
      && Left(after, scripts) <= Left(m, scripts) - StepsLeft(m.pool.workers[w], m.jobs[w], scripts)
  {
    if m.pool.next < |scripts| {
      WorkersLeftUpdate(m.pool.workers, m.jobs, scripts, w, Busy(m.pool.next), Job(0, 0, Starting));
    } else {
      assert m.jobs[w := m.jobs[w]] == m.jobs;
      WorkersLeftUpdate(m.pool.workers, m.jobs, scripts, w, Done, m.jobs[w]);
    }
  }

  /** Every step uses one up. */
  lemma StepUsesStep(m: Matrix, scripts: seq<seq<Reply>>, pollMax: int, w: nat)
    requires WithinScripts(m, scripts) && CanStep(m, |scripts|, w)
    ensures var after := Step(m, scripts, pollMax, w);
      WithinScripts(after, scripts) && Left(after, scripts) < Left(m, scripts)
  {
    if m.pool.workers[w].Fresh? {
      TakeUsesStep(m, scripts, w);
    } else {
      var j, job := m.pool.workers[w].item, m.jobs[w];
      var reply := ReplyAt(scripts[j], job.next);
      assert m.pool.workers[w := Busy(j)] == m.pool.workers;
      if TriesAgain(job, reply) {
        WorkersLeftUpdate(m.pool.workers, m.jobs, scripts, w, Busy(j), Job(job.next + 1, job.tries + 1, job.point));
      } else {
        match GoOn(pollMax, job.point, reply)
        case Awaits(point, add) =>
          WorkersLeftUpdate(m.pool.workers, m.jobs, scripts, w, Busy(j), Job(job.next + 1, 0, point));
        case Ended(ok, edges, add) =>
          TakeUsesStep(Count(m.(pool := TakeBack(m.pool, w, JobResult(ok, edges))), j, add), scripts, w);
      }
    }
  }

  lemma {:induction false} RunUsesSteps(
      states: seq<Matrix>, concurrency: int, scripts: seq<seq<Reply>>, pollMax: int, i: nat)
    requires IsRun(states, concurrency, scripts, pollMax) && i < |states|
    ensures WithinScripts(states[i], scripts) && Left(states[i], scripts) <= Left(states[0], scripts) - i
  {
    if i > 0 {
      RunUsesSteps(states, concurrency, scripts, pollMax, i - 1);
      assert StepAt(states, scripts, pollMax, i - 1);
      var w: nat :| CanStep(states[i - 1], |scripts|, w) && states[i] == Step(states[i - 1], scripts, pollMax, w);
      StepUsesStep(states[i - 1], scripts, pollMax, w);
    }
  }

  lemma {:induction false} FreshWorkersLeft(n: nat, scripts: seq<seq<Reply>>)
    ensures WorkersLeft(seq(n, i => Fresh), seq(n, i => Job(0, 0, Starting)), scripts) == n
  {
    if n > 0 {
      assert seq(n, i => Fresh)[..n - 1] == seq(n - 1, i => Fresh);
      assert seq(n, i => Job(0, 0, Starting))[..n - 1] == seq(n - 1, i => Job(0, 0, Starting));
      FreshWorkersLeft(n - 1, scripts);
    }
  }

  /** Every schedule is finite: one step per worker, and per job at most two more than its script is long. */
  lemma MatrixRunsAreBounded(states: seq<Matrix>, concurrency: int, scripts: seq<seq<Reply>>, pollMax: int)
    requires IsRun(states, concurrency, scripts, pollMax)
    ensures |states| <= JobsLeft(scripts, 0) + WorkerCount(concurrency, |scripts|) + 1
  {
    var m := states[|states| - 1];
    RunUsesSteps(states, concurrency, scripts, pollMax, |states| - 1);
    WorkersLeftNonNegative(m.pool.workers, m.jobs, scripts);
    FreshWorkersLeft(WorkerCount(concurrency, |scripts|), scripts);
  }

  // ---- the counters at the end ---------------------------------------------------------------------

  function ItemsOf(finished: seq<Finished<JobResult>>): seq<nat>
  {
    seq(|finished|, i requires 0 <= i < |finished| => finished[i].item)
  }

  lemma CompleteCount(s: Pool<JobResult>, n: nat)
    requires Complete(s, n)
    ensures |s.finished| == n
  {
    var items := ItemsOf(s.finished);
    CountDistinct(items);
    forall j: nat ensures j in items <==> j in Below(n) {
      assert Returned(s, j) <==> j < n;
      if j in items {
        var k :| 0 <= k < |items| && items[k] == j;
        assert s.finished[k].item == j;
      }
      if Returned(s, j) {
        var k :| 0 <= k < |s.finished| && s.finished[k].item == j;
        assert items[k] == j;
      }
    }
    SameMembers(items, Below(n));
  }

  lemma EndIsComplete(states: seq<Matrix>, m: Matrix, concurrency: int, scripts: seq<seq<Reply>>, pollMax: int)
    requires EndsIn(states, m, concurrency, scripts, pollMax)
    ensures MatrixInv(m, scripts, pollMax, AloneAll(scripts, pollMax))
    ensures concurrency >= 1 || scripts == [] ==> Complete(m.pool, |scripts|)
  {
    RunInv(states, concurrency, scripts, pollMax, |states| - 1);
    if concurrency >= 1 || scripts == [] { StoppedIsComplete(m.pool, |scripts|); }
  }

  lemma NoWorkerNoStep(states: seq<Matrix>, concurrency: int, scripts: seq<seq<Reply>>, pollMax: int)
    requires IsRun(states, concurrency, scripts, pollMax) && WorkerCount(concurrency, |scripts|) == 0
    ensures |states| == 1
  {
    assert |states| > 1 ==> StepAt(states, scripts, pollMax, 0);
  }

  lemma NothingStarts(states: seq<Matrix>, concurrency: int, scripts: seq<seq<Reply>>, pollMax: int)
    requires IsRun(states, concurrency, scripts, pollMax) && concurrency < 1 && scripts != []
    ensures states[|states| - 1].stats == ZERO
  {
    NoWorkerNoStep(states, concurrency, scripts, pollMax);
  }

  /**
   * Whatever the schedule, the shared counters of a finished matrix have started = succeeded +
   * failed = the number of jobs exactly when the concurrency is at least one or there is no job.
   */
  lemma MatrixAddsUp(states: seq<Matrix>, m: Matrix, concurrency: int, scripts: seq<seq<Reply>>, pollMax: int)
    requires EndsIn(states, m, concurrency, scripts, pollMax)
    ensures m.stats.started == m.stats.succeeded + m.stats.failed == |scripts| <==> concurrency >= 1 || scripts == []
  {
    if concurrency >= 1 || scripts == [] {
      EndIsComplete(states, m, concurrency, scripts, pollMax);
      CompleteCount(m.pool, |scripts|);
    } else {
      NothingStarts(states, concurrency, scripts, pollMax);
    }
  }

  /** What each job adds when it is led alone. */
  ghost function Counts(ends: seq<Outcome>): seq<CycleStats>
  {
    seq(|ends|, j requires 0 <= j < |ends| => ends[j].counted)
  }

  lemma LedgerIsComplete(m: Matrix, scripts: seq<seq<Reply>>, pollMax: int, ends: seq<Outcome>)
    requires MatrixInv(m, scripts, pollMax, ends) && Complete(m.pool, |scripts|)
    ensures m.ledger == Counts(ends)
  {
    forall j | 0 <= j < |scripts| ensures m.ledger[j] == Counts(ends)[j] {
      assert Returned(m.pool, j);
      var k :| 0 <= k < |m.pool.finished| && m.pool.finished[k].item == j;
      assert FinishedOk(m, ends, k);
    }
  }

  /** The shared counters end as the sum of what the jobs count when each is led alone. */
  lemma CountersAreThoseOfLives(
      states: seq<Matrix>, m: Matrix, concurrency: int, scripts: seq<seq<Reply>>, pollMax: int)
    requires EndsIn(states, m, concurrency, scripts, pollMax) && (concurrency >= 1 || scripts == [])
    ensures m.stats == Total(Counts(AloneAll(scripts, pollMax)))
  {
    EndIsComplete(states, m, concurrency, scripts, pollMax);
    LedgerIsComplete(m, scripts, pollMax, AloneAll(scripts, pollMax));
  }

  // ---- the edges ---------------------------------------------------------------------------------

  /** The edges in completion order. */
  ghost function Collected(finished: seq<Finished<JobResult>>): seq<FlowEdge>
  {
    if finished == [] then []
    else Collected(finished[..|finished| - 1]) + finished[|finished| - 1].value.edges
  }

  lemma {:induction false} CollectedMembers(finished: seq<Finished<JobResult>>, e: FlowEdge)
    ensures e in Collected(finished) <==> exists k :: 0 <= k < |finished| && e in finished[k].value.edges
  {
    if finished != [] {
      var n := |finished| - 1;
      CollectedMembers(finished[..n], e);
      if e in Collected(finished[..n]) {
        var k :| 0 <= k < n && e in finished[..n][k].value.edges;
        assert e in finished[k].value.edges;
      }
      if k :| 0 <= k < |finished| && e in finished[k].value.edges {
        if k < n { assert e in finished[..n][k].value.edges; }
      }
    }
  }

  /** The edge is a row of a query that succeeded, and that was seen SUCCEEDED if any poll is allowed. */
  ghost predicate Seen(scripts: seq<seq<Reply>>, pollMax: int, j: nat, e: FlowEdge)
  {
    && j < |scripts|
    && var l := LifeOf(scripts[j], pollMax);
       && l.ok && e in RowsIn(scripts[j], l.polled, l.paged)
       && (pollMax <= 0 || SawSuccess(scripts[j], l.begun, l.polled))
  }

  lemma FinishedEdges(m: Matrix, scripts: seq<seq<Reply>>, pollMax: int, k: nat, e: FlowEdge)
    requires MatrixInv(m, scripts, pollMax, AloneAll(scripts, pollMax)) && k < |m.pool.finished|
    ensures e in m.pool.finished[k].value.edges <==> Seen(scripts, pollMax, m.pool.finished[k].item, e)
  {
    assert FinishedOk(m, AloneAll(scripts, pollMax), k);
    LifeSucceeds(scripts[m.pool.finished[k].item], pollMax);
  }

  lemma CollectedIsSeen(m: Matrix, scripts: seq<seq<Reply>>, pollMax: int, e: FlowEdge)
    requires MatrixInv(m, scripts, pollMax, AloneAll(scripts, pollMax)) && Complete(m.pool, |scripts|)
    ensures e in Collected(m.pool.finished) <==> exists j :: Seen(scripts, pollMax, j, e)
  {
    CollectedMembers(m.pool.finished, e);
    if e in Collected(m.pool.finished) {
      var k :| 0 <= k < |m.pool.finished| && e in m.pool.finished[k].value.edges;
      FinishedEdges(m, scripts, pollMax, k, e);
    }
    if j :| Seen(scripts, pollMax, j, e) {
      assert Returned(m.pool, j);
      var k :| 0 <= k < |m.pool.finished| && m.pool.finished[k].item == j;
      FinishedEdges(m, scripts, pollMax, k, e);
    }
  }

  /**
   * Whatever the schedule, every edge reported is a row of a query seen to succeed, and every
   * such row is reported or lost to one of its key that is at least as large.
   */
  lemma OutputIsSeen(
      states: seq<Matrix>, m: Matrix, concurrency: int, scripts: seq<seq<Reply>>, pollMax: int, out: seq<FlowEdge>,
      e: FlowEdge)
    requires EndsIn(states, m, concurrency, scripts, pollMax) && concurrency >= 1
    requires IsDeduped(Collected(m.pool.finished), out)
    ensures e in out ==> exists j :: Seen(scripts, pollMax, j, e)
    ensures (exists j :: Seen(scripts, pollMax, j, e)) ==>
      exists i :: 0 <= i < |out| && RowKeyOf(out[i]) == RowKeyOf(e) && e.value <= out[i].value
  {
    var all := Collected(m.pool.finished);
    EndIsComplete(states, m, concurrency, scripts, pollMax);
    CollectedIsSeen(m, scripts, pollMax, e);
    if e in out { DedupedIsInput(all, out, e); }
    if e in all { InputIsCovered(all, out, e); }
  }

  /** Two finished runs, even with other concurrency, report the same keys with the same largest values. */
  lemma MatrixOutputIgnoresSchedule(
      run1: seq<Matrix>, m1: Matrix, c1: int, o1: seq<FlowEdge>,
      run2: seq<Matrix>, m2: Matrix, c2: int, o2: seq<FlowEdge>,
      scripts: seq<seq<Reply>>, pollMax: int, i: nat)
    requires EndsIn(run1, m1, c1, scripts, pollMax) && EndsIn(run2, m2, c2, scripts, pollMax) && c1 >= 1 && c2 >= 1
    requires IsDeduped(Collected(m1.pool.finished), o1) && IsDeduped(Collected(m2.pool.finished), o2) && i < |o1|
    ensures exists j :: 0 <= j < |o2| && RowKeyOf(o2[j]) == RowKeyOf(o1[i]) && o2[j].value == o1[i].value
  {
    var all1, all2 := Collected(m1.pool.finished), Collected(m2.pool.finished);
    EndIsComplete(run1, m1, c1, scripts, pollMax);
    EndIsComplete(run2, m2, c2, scripts, pollMax);
    forall e ensures e in all1 <==> e in all2 {
      CollectedIsSeen(m1, scripts, pollMax, e);
      CollectedIsSeen(m2, scripts, pollMax, e);
    }
    DedupeIgnoresOrder(all1, all2, o1, o2, i);
  }
}
