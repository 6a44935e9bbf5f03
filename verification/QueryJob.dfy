/**
 * One query of the collector's matrix, answer by answer (`runOne` in collector/src/nfm-query.ts):
 * the code between two answers of the client is one step. Whatever other jobs do in between, the
 * job ends like its life alone.
 */
module QueryJob {
  import opened FlowTypes
  import opened QueryLifecycle

  /** What a job awaits. */
  datatype Point = Starting | Polling(i: nat) | Stopping | Paging(edges: seq<FlowEdge>)

  /** Its place in the client's script, and how often the call it awaits has been retried. */
  datatype Job = Job(next: nat, tries: nat, point: Point)

  const ZERO := CycleStats(0, 0, 0, 0, 0)
  const STARTED := CycleStats(1, 0, 0, 0, 0)
  const FAILED := CycleStats(0, 0, 1, 0, 0)
  const RETRIED := CycleStats(0, 0, 0, 1, 0)

  function Plus(a: CycleStats, b: CycleStats): CycleStats
  {
    CycleStats(a.started + b.started, a.succeeded + b.succeeded, a.failed + b.failed,
               a.throttled + b.throttled, a.rows + b.rows)
  }

  lemma PlusZero(spent: CycleStats, add: CycleStats)
    requires spent == ZERO
    ensures Plus(spent, add) == add
  {}

  /** What one answer leads to, and what it adds to the counters. */
  datatype Progress = Awaits(point: Point, add: CycleStats) | Ended(ok: bool, edges: seq<FlowEdge>, add: CycleStats)

  /** The answer of the last try of a call. Whatever stopping the query answers is ignored. */
  function GoOn(pollMax: int, point: Point, reply: Reply): Progress
  {
    if point.Stopping? || !reply.Ok? then Ended(false, [], FAILED)
    else
      match point
      case Starting => Awaits(if pollMax <= 0 then Paging([]) else Polling(0), ZERO)
      case Polling(i) =>
        if reply.status.Succeeded? then Awaits(Paging([]), ZERO)
        else if reply.status.FailedOrCanceled? then Ended(false, [], FAILED)
        else Awaits(if i == pollMax - 1 then Stopping else Polling(i + 1), ZERO)
      case Paging(edges) =>
        var rows := CycleStats(0, 0, 0, 0, |reply.rows|);
        if reply.more then Awaits(Paging(edges + reply.rows), rows)
        else Ended(true, edges + reply.rows, rows.(succeeded := 1))
  }

  /** The call is tried again. */
  predicate TriesAgain(job: Job, reply: Reply)
  {
    reply.Throttled? && job.tries < |BACKOFF| && !job.point.Stopping?
  }

  /** How a job ends, and all that it has then added to the counters. */
  datatype Outcome = Outcome(ok: bool, edges: seq<FlowEdge>, counted: CycleStats)

  function Retried(spent: CycleStats, retries: nat): CycleStats { spent.(throttled := spent.throttled + retries) }

  /** The outcome of a running job that has added `spent` so far, when it is answered to its end. */
  ghost function EndOf(script: seq<Reply>, pollMax: int, job: Job, spent: CycleStats): Outcome
    decreases if job.next <= |script| then |script| - job.next else 0
  {
    var retries := if job.tries < |BACKOFF| && !job.point.Stopping? then |BACKOFF| - job.tries else 0;
    var next := AfterCall(script, job.next, retries);
    var counted := Retried(spent, next - 1 - job.next);
    match GoOn(pollMax, job.point, ReplyAt(script, next - 1))
    case Awaits(point, add) => EndOf(script, pollMax, Job(next, 0, point), Plus(counted, add))
    case Ended(ok, edges, add) => Outcome(ok, edges, Plus(counted, add))
  }

  /** A job's outcome is the one that its next call, retries included, leads to. */
  ghost predicate LeadsOn(
      end: (Job, CycleStats) -> Outcome, script: seq<Reply>, pollMax: int, job: Job, spent: CycleStats)
  {
    var retries := if job.tries < |BACKOFF| && !job.point.Stopping? then |BACKOFF| - job.tries else 0;
    var next := AfterCall(script, job.next, retries);
    var counted := Retried(spent, next - 1 - job.next);
    end(job, spent)
    == match GoOn(pollMax, job.point, ReplyAt(script, next - 1))
       case Awaits(point, add) => end(Job(next, 0, point), Plus(counted, add))
       case Ended(ok, edges, add) => Outcome(ok, edges, Plus(counted, add))
  }

  /** The function gives every running job its outcome: it agrees with every next call. */
  ghost predicate IsEnd(end: (Job, CycleStats) -> Outcome, script: seq<Reply>, pollMax: int)
  {
    forall job, spent :: LeadsOn(end, script, pollMax, job, spent)
  }

  lemma SomeEnd(script: seq<Reply>, pollMax: int) returns (end: (Job, CycleStats) -> Outcome)
    ensures IsEnd(end, script, pollMax)
  {
    end := (job, spent) => EndOf(script, pollMax, job, spent);
    forall job, spent ensures LeadsOn(end, script, pollMax, job, spent) {}
  }

  ghost function AsOutcome(l: Life): Outcome { Outcome(l.ok, l.Edges(), l.Counted(ZERO)) }

  /** The outcome of a life led alone. */
  ghost function Alone(script: seq<Reply>, pollMax: int): Outcome
  {
    AsOutcome(LifeOf(script, pollMax))
  }

  /** The outcome that the next answer leads to. */
  ghost function AfterAnswer(
      end: (Job, CycleStats) -> Outcome, script: seq<Reply>, pollMax: int, job: Job, spent: CycleStats): Outcome
  {
    var reply := ReplyAt(script, job.next);
    if TriesAgain(job, reply) then end(Job(job.next + 1, job.tries + 1, job.point), Plus(spent, RETRIED))
    else
      match GoOn(pollMax, job.point, reply)
      case Awaits(point, add) => end(Job(job.next + 1, 0, point), Plus(spent, add))
      case Ended(ok, edges, add) => Outcome(ok, edges, Plus(spent, add))
  }

  lemma AnswerKeeps(end: (Job, CycleStats) -> Outcome, script: seq<Reply>, pollMax: int, job: Job, spent: CycleStats)
    requires IsEnd(end, script, pollMax)
    ensures end(job, spent) == AfterAnswer(end, script, pollMax, job, spent)
  {
    assert LeadsOn(end, script, pollMax, job, spent);
    if TriesAgain(job, ReplyAt(script, job.next)) {
      var r := |BACKOFF| - job.tries;
      assert LeadsOn(end, script, pollMax, Job(job.next + 1, job.tries + 1, job.point), Plus(spent, RETRIED));
      assert AfterCall(script, job.next, r) == AfterCall(script, job.next + 1, r - 1);
      var n := AfterCall(script, job.next, r) - 1 - job.next;
      assert Retried(spent, n) == Retried(Plus(spent, RETRIED), n - 1);
    } else {
      assert Retried(spent, 0) == spent;
    }
  }

  /** The outcome of paging that brought these rows after `edges`. */
  ghost function EndPages(
      complete: bool, rows: seq<FlowEdge>, retries: nat, edges: seq<FlowEdge>, spent: CycleStats): Outcome
  {
    var counted := Plus(Retried(spent, retries), CycleStats(0, 0, 0, 0, |rows|));
    if complete then Outcome(true, edges + rows, counted.(succeeded := counted.succeeded + 1))
    else Outcome(false, [], Plus(counted, FAILED))
  }

  lemma EndOnePageLater(
      complete: bool, first: seq<FlowEdge>, rows: seq<FlowEdge>, r: nat, t: nat, edges: seq<FlowEdge>,
      spent: CycleStats)
    ensures EndPages(complete, first + rows, r + t, edges, spent)
         == EndPages(complete, rows, t, edges + first, Plus(Retried(spent, r), CycleStats(0, 0, 0, 0, |first|)))
  {
    assert edges + (first + rows) == (edges + first) + rows;
  }

  /** One call of paging, retries included. */
  lemma PageEnds(
      end: (Job, CycleStats) -> Outcome, script: seq<Reply>, pollMax: int, at: nat, edges: seq<FlowEdge>,
      spent: CycleStats)
    requires IsEnd(end, script, pollMax)
    ensures var next := AfterCall(script, at, |BACKOFF|);
      var counted, reply := Retried(spent, next - 1 - at), ReplyAt(script, next - 1);
      end(Job(at, 0, Paging(edges)), spent)
      == if !reply.Ok? then Outcome(false, [], Plus(counted, FAILED))
         else
           var rows := CycleStats(0, 0, 0, 0, |reply.rows|);
           if reply.more then end(Job(next, 0, Paging(edges + reply.rows)), Plus(counted, rows))
           else Outcome(true, edges + reply.rows, Plus(counted, rows.(succeeded := 1)))
  {
    assert LeadsOn(end, script, pollMax, Job(at, 0, Paging(edges)), spent);
  }

  lemma {:induction false} PagesRun(
      end: (Job, CycleStats) -> Outcome, script: seq<Reply>, pollMax: int, at: nat, edges: seq<FlowEdge>,
      spent: CycleStats)
    requires IsEnd(end, script, pollMax)
    ensures var g := PageRun(script, at);
      end(Job(at, 0, Paging(edges)), spent) == EndPages(g.complete, g.rows, g.throttled, edges, spent)
    decreases if at <= |script| then |script| - at else 0
  {
    var next := AfterCall(script, at, |BACKOFF|);
    PageEnds(end, script, pollMax, at, edges, spent);
    var reply := ReplyAt(script, next - 1);
    if reply.Ok? && reply.more {
      var h, r := PageRun(script, next), next - 1 - at;
      PagesRun(end, script, pollMax, next, edges + reply.rows,
          Plus(Retried(spent, r), CycleStats(0, 0, 0, 0, |reply.rows|)));
      EndOnePageLater(h.complete, reply.rows, h.rows, r, h.throttled, edges, spent);
    }
  }

  /** The outcome after polling. */
  ghost function EndPolls(end: (Job, CycleStats) -> Outcome, p: Polled, spent: CycleStats): Outcome
  {
    var counted := Retried(spent, p.throttled);
    if p.verdict.Ready? then end(Job(p.next, 0, Paging([])), counted) else Outcome(false, [], Plus(counted, FAILED))
  }

  lemma EndPollsLater(end: (Job, CycleStats) -> Outcome, p: Polled, r: nat, spent: CycleStats)
    ensures EndPolls(end, p.(throttled := r + p.throttled), spent) == EndPolls(end, p, Retried(spent, r))
  {
    assert Retried(spent, r + p.throttled) == Retried(Retried(spent, r), p.throttled);
  }

  /** One call of polling, retries included. */
  lemma PollEnds(
      end: (Job, CycleStats) -> Outcome, script: seq<Reply>, pollMax: int, i: nat, at: nat, spent: CycleStats)
    requires IsEnd(end, script, pollMax)
    ensures var next := AfterCall(script, at, |BACKOFF|);
      var counted, reply := Retried(spent, next - 1 - at), ReplyAt(script, next - 1);
      end(Job(at, 0, Polling(i)), spent)
      == if reply.Ok? && reply.status.Succeeded? then end(Job(next, 0, Paging([])), counted)
         else if reply.Ok? && reply.status.Pending? && i != pollMax - 1 then end(Job(next, 0, Polling(i + 1)), counted)
         else Outcome(false, [], Plus(counted, FAILED))
  {
    var counted := Retried(spent, AfterCall(script, at, |BACKOFF|) - 1 - at);
    assert LeadsOn(end, script, pollMax, Job(at, 0, Polling(i)), spent);
    assert LeadsOn(end, script, pollMax, Job(AfterCall(script, at, |BACKOFF|), 0, Stopping), counted);
    assert Plus(counted, ZERO) == counted;
  }

  lemma {:induction false} PollsRun(
      end: (Job, CycleStats) -> Outcome, script: seq<Reply>, pollMax: int, i: nat, at: nat, spent: CycleStats)
    requires IsEnd(end, script, pollMax) && i < pollMax
    ensures end(Job(at, 0, Polling(i)), spent) == EndPolls(end, PollRun(script, at, pollMax - i), spent)
    decreases pollMax - i
  {
    var next := AfterCall(script, at, |BACKOFF|);
    PollEnds(end, script, pollMax, i, at, spent);
    if PollsAgain(script, at, pollMax - i) {
      PollsRun(end, script, pollMax, i + 1, next, Retried(spent, next - 1 - at));
      EndPollsLater(end, PollRun(script, next, pollMax - i - 1), next - 1 - at, spent);
    }
  }

  /** The call that starts the query, retries included; with no poll allowed the paging follows. */
  lemma StartEnds(end: (Job, CycleStats) -> Outcome, script: seq<Reply>, pollMax: int, at: nat, spent: CycleStats)
    requires IsEnd(end, script, pollMax)
    ensures var next := AfterCall(script, at, |BACKOFF|);
      var counted := Retried(spent, next - 1 - at);
      end(Job(at, 0, Starting), spent)
      == if ReplyAt(script, next - 1).Ok? then
           end(Job(next, 0, if pollMax <= 0 then Paging([]) else Polling(0)), counted)
         else Outcome(false, [], Plus(counted, FAILED))
  {
    var counted := Retried(spent, AfterCall(script, at, |BACKOFF|) - 1 - at);
    assert LeadsOn(end, script, pollMax, Job(at, 0, Starting), spent);
    assert Plus(counted, ZERO) == counted;
  }

  lemma StartRun(end: (Job, CycleStats) -> Outcome, script: seq<Reply>, pollMax: int, at: nat, spent: CycleStats)
    requires IsEnd(end, script, pollMax)
    ensures var next := AfterCall(script, at, |BACKOFF|);
      var counted := Retried(spent, next - 1 - at);
      end(Job(at, 0, Starting), spent)
      == if ReplyAt(script, next - 1).Ok? then EndPolls(end, PollRun(script, next, AtLeastZero(pollMax)), counted)
         else Outcome(false, [], Plus(counted, FAILED))
  {
    var next := AfterCall(script, at, |BACKOFF|);
    var counted := Retried(spent, next - 1 - at);
    StartEnds(end, script, pollMax, at, spent);
    if pollMax > 0 { PollsRun(end, script, pollMax, 0, next, counted); } else { assert Retried(counted, 0) == counted; }
  }

  lemma LifeRefused(l: Life, t: nat)
    requires l.rows == [] && !l.ok && l.throttled == t
    ensures AsOutcome(l) == Outcome(false, [], Plus(Retried(STARTED, t), FAILED))
  {}

  lemma LifePaged(l: Life, complete: bool, t: nat, u: nat, v: nat)
    requires l.ok == complete && l.throttled == t + u + v
    ensures AsOutcome(l) == EndPages(complete, l.rows, v, [], Retried(Retried(STARTED, t), u))
  {
    assert [] + l.rows == l.rows;
  }

  /** The outcome of a life alone, phase by phase. */
  lemma AloneIs(script: seq<Reply>, pollMax: int, next: nat, p: Polled, g: Paged)
    requires next == AfterCall(script, 0, |BACKOFF|) && p == PollRun(script, next, AtLeastZero(pollMax))
    requires g == PageRun(script, p.next)
    ensures Alone(script, pollMax)
      == if !ReplyAt(script, next - 1).Ok? then Outcome(false, [], Plus(Retried(STARTED, next - 1), FAILED))
         else if !p.verdict.Ready? then
           Outcome(false, [], Plus(Retried(Retried(STARTED, next - 1), p.throttled), FAILED))
         else EndPages(g.complete, g.rows, g.throttled, [], Retried(Retried(STARTED, next - 1), p.throttled))
  {
    var l := LifeOf(script, pollMax);
    if !ReplyAt(script, next - 1).Ok? {
      LifeRefused(l, next - 1);
    } else if !p.verdict.Ready? {
      LifeRefused(l, next - 1 + p.throttled);
      assert Retried(STARTED, next - 1 + p.throttled) == Retried(Retried(STARTED, next - 1), p.throttled);
    } else {
      LifePaged(l, g.complete, next - 1, p.throttled, g.throttled);
    }
  }

  /** A job's outcome, phase by phase. */
  lemma JobRun(
      end: (Job, CycleStats) -> Outcome, script: seq<Reply>, pollMax: int, at: nat, spent: CycleStats,
      next: nat, p: Polled, g: Paged)
    requires IsEnd(end, script, pollMax)
    requires next == AfterCall(script, at, |BACKOFF|) && p == PollRun(script, next, AtLeastZero(pollMax))
    requires g == PageRun(script, p.next)
    ensures end(Job(at, 0, Starting), spent)
      == if !ReplyAt(script, next - 1).Ok? then Outcome(false, [], Plus(Retried(spent, next - 1 - at), FAILED))
         else if !p.verdict.Ready? then
           Outcome(false, [], Plus(Retried(Retried(spent, next - 1 - at), p.throttled), FAILED))
         else EndPages(g.complete, g.rows, g.throttled, [], Retried(Retried(spent, next - 1 - at), p.throttled))
  {
    StartRun(end, script, pollMax, at, spent);
    PagesRun(end, script, pollMax, p.next, [], Retried(Retried(spent, next - 1 - at), p.throttled));
  }

  /** A job that has added `spent` so far is headed for the outcome. */
  ghost predicate Underway(script: seq<Reply>, pollMax: int, job: Job, spent: CycleStats, outcome: Outcome)
  {
    forall end: (Job, CycleStats) -> Outcome :: IsEnd(end, script, pollMax) ==> end(job, spent) == outcome
  }

  /** A job answered to its end, whatever runs between its answers, ends like its life alone. */
  lemma JobEndsAlone(script: seq<Reply>, pollMax: int)
    ensures Underway(script, pollMax, Job(0, 0, Starting), STARTED, Alone(script, pollMax))
  {
    var next := AfterCall(script, 0, |BACKOFF|);
    var p := PollRun(script, next, AtLeastZero(pollMax));
    var g := PageRun(script, p.next);
    AloneIs(script, pollMax, next, p, g);
    forall end: (Job, CycleStats) -> Outcome | IsEnd(end, script, pollMax)
      ensures end(Job(0, 0, Starting), STARTED) == Alone(script, pollMax)
    {
      JobRun(end, script, pollMax, 0, STARTED, next, p, g);
    }
  }

  /** The next answer keeps the outcome, or is the last and brings it. */
  ghost predicate Answered(script: seq<Reply>, pollMax: int, job: Job, spent: CycleStats, outcome: Outcome)
  {
    var reply := ReplyAt(script, job.next);
    if TriesAgain(job, reply) then
      Underway(script, pollMax, Job(job.next + 1, job.tries + 1, job.point), Plus(spent, RETRIED), outcome)
    else
      match GoOn(pollMax, job.point, reply)
      case Awaits(point, add) => Underway(script, pollMax, Job(job.next + 1, 0, point), Plus(spent, add), outcome)
      case Ended(ok, edges, add) => Outcome(ok, edges, Plus(spent, add)) == outcome
  }

  lemma AnswerKeepsOutcome(script: seq<Reply>, pollMax: int, job: Job, spent: CycleStats, outcome: Outcome)
    requires Underway(script, pollMax, job, spent, outcome)
    ensures Answered(script, pollMax, job, spent, outcome)
  {
    forall end: (Job, CycleStats) -> Outcome | IsEnd(end, script, pollMax)
      ensures AfterAnswer(end, script, pollMax, job, spent) == outcome
    {
      AnswerKeeps(end, script, pollMax, job, spent);
    }
    var end := SomeEnd(script, pollMax);
  }
}
