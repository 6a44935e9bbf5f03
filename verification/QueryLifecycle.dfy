/**
 * The life of one query of the collector's matrix (`withRetry` and `runOne` in
 * collector/src/nfm-query.ts) against an arbitrary client. The client's answers are a script;
 * a stretch of a life is the range of answers it took.
 */
module QueryLifecycle {
  import opened FlowTypes

  // ---- one call ----------------------------------------------------------------------------

  datatype Status = Pending | Succeeded | FailedOrCanceled

  /** What the client does with a call; a caller reads only the field its call asks for. */
  datatype Reply = Throttled | Thrown | Ok(status: Status, rows: seq<FlowEdge>, more: bool)

  datatype CycleStats = CycleStats(started: nat, succeeded: nat, failed: nat, throttled: nat, rows: nat)

  /** The client answers from a script and throws once the script ends. */
  function ReplyAt(script: seq<Reply>, at: nat): Reply
  {
    if at < |script| then script[at] else Thrown
  }

  ghost predicate AllThrottled(script: seq<Reply>, from: nat, until: nat)
  {
    forall i :: from <= i < until ==> ReplyAt(script, i).Throttled?
  }

  /** The waits between tries, in units of the base delay. */
  const BACKOFF: seq<nat> := [1, 2, 4, 8]

  /** Where the script stands after one call with so many retries left. */
  function AfterCall(script: seq<Reply>, at: nat, retries: nat): (next: nat)
    ensures at < next <= at + retries + 1
    decreases retries
  {
    if ReplyAt(script, at).Throttled? && retries > 0 then AfterCall(script, at + 1, retries - 1) else at + 1
  }

  /** One call with at most four retries, all of them after throttling. */
  method WithRetry(script: seq<Reply>, at: nat, stats: CycleStats)
    returns (reply: Reply, next: nat, after: CycleStats)
    ensures at < next <= at + 5 && reply == ReplyAt(script, next - 1)
    ensures AllThrottled(script, at, next - 1) && (reply.Throttled? ==> next == at + 5)
    ensures next == AfterCall(script, at, |BACKOFF|)
    ensures after == stats.(throttled := stats.throttled + (next - at - 1))
  {
    next, after := at, stats;
    var i := 0;
    while true
      invariant i <= |BACKOFF| && next == at + i
      invariant AfterCall(script, at, |BACKOFF|) == AfterCall(script, next, |BACKOFF| - i)
      invariant AllThrottled(script, at, next)
      invariant after == stats.(throttled := stats.throttled + i)
      decreases |BACKOFF| - i
    {
      reply := ReplyAt(script, next);
      next := next + 1;
      if reply.Throttled? && i < |BACKOFF| {
        after := after.(throttled := after.throttled + 1);
        i := i + 1;
        continue;
      }
      return;
    }
  }

  // ---- what a stretch of the script holds -----------------------------------------------------

  /** How many calls were answered. */
  ghost function Answers(script: seq<Reply>, from: nat, until: nat): nat
    decreases until - from
  {
    if until <= from then 0 else (if ReplyAt(script, from).Ok? then 1 else 0) + Answers(script, from + 1, until)
  }

  /** The rows of the answered calls, in order. */
  ghost function RowsIn(script: seq<Reply>, from: nat, until: nat): seq<FlowEdge>
    decreases until - from
  {
    if until <= from then []
    else
      var r := ReplyAt(script, from);
      (if r.Ok? then r.rows else []) + RowsIn(script, from + 1, until)
  }

  /** One call: throttled tries, then one that may be answered. */
  lemma {:induction false} TriesThrottled(script: seq<Reply>, from: nat, retries: nat)
    ensures AllThrottled(script, from, AfterCall(script, from, retries) - 1)
    decreases retries
  {
    if ReplyAt(script, from).Throttled? && retries > 0 { TriesThrottled(script, from + 1, retries - 1); }
  }

  /** The first call of a stretch is answered at most once. */
  lemma {:induction false} FirstAnswer(script: seq<Reply>, from: nat, retries: nat, until: nat)
    requires AfterCall(script, from, retries) <= until
    ensures var next := AfterCall(script, from, retries);
      Answers(script, from, until) == (if ReplyAt(script, next - 1).Ok? then 1 else 0) + Answers(script, next, until)
    decreases retries
  {
    if ReplyAt(script, from).Throttled? && retries > 0 { FirstAnswer(script, from + 1, retries - 1, until); }
  }

  lemma {:induction false} FirstRows(script: seq<Reply>, from: nat, retries: nat, until: nat)
    requires AfterCall(script, from, retries) <= until
    ensures var next := AfterCall(script, from, retries);
      var r := ReplyAt(script, next - 1);
      RowsIn(script, from, until) == (if r.Ok? then r.rows else []) + RowsIn(script, next, until)
    decreases retries
  {
    if ReplyAt(script, from).Throttled? && retries > 0 { FirstRows(script, from + 1, retries - 1, until); }
  }

  // ---- polling -----------------------------------------------------------------------------

  datatype Verdict = Ready | Refused | Threw

  /** The last poll answered SUCCEEDED and every earlier answer was pending. */
  ghost predicate SawSuccess(script: seq<Reply>, from: nat, until: nat)
  {
    && from < until && ReplyAt(script, until - 1).Ok? && ReplyAt(script, until - 1).status.Succeeded?
    && forall i :: from <= i < until - 1 && ReplyAt(script, i).Ok? ==> ReplyAt(script, i).status.Pending?
  }

  /** How the polling went, where it left the script, and how often it was retried. */
  datatype Polled = Polled(verdict: Verdict, next: nat, throttled: nat)

  /** Polling from a position of the script with so many polls left. */
  ghost function PollRun(script: seq<Reply>, at: nat, left: nat): Polled
    decreases left
  {
    if left == 0 then Polled(Ready, at, 0)
    else
      var next := AfterCall(script, at, |BACKOFF|);
      var reply := ReplyAt(script, next - 1);
      if !reply.Ok? then Polled(Threw, next, next - at - 1)
      else if reply.status.Succeeded? then Polled(Ready, next, next - at - 1)
      else if reply.status.FailedOrCanceled? || left == 1 then Polled(Refused, next, next - at - 1)
      else
        var p := PollRun(script, next, left - 1);
        p.(throttled := next - at - 1 + p.throttled)
  }

  ghost predicate PollsAgain(script: seq<Reply>, at: nat, left: nat)
  {
    var reply := ReplyAt(script, AfterCall(script, at, |BACKOFF|) - 1);
    left > 1 && reply.Ok? && reply.status.Pending?
  }

  /** At most the allowed number is answered; every other poll was retried or ended in an error. */
  lemma {:induction false} PollCount(script: seq<Reply>, at: nat, left: nat)
    ensures var p := PollRun(script, at, left);
      && at <= p.next && (at < p.next <==> left > 0) && Answers(script, at, p.next) <= left
      && p.next - at == p.throttled + Answers(script, at, p.next) + (if p.verdict.Threw? then 1 else 0)
    decreases left
  {
    var next := AfterCall(script, at, |BACKOFF|);
    if PollsAgain(script, at, left) {
      PollCount(script, next, left - 1);
      FirstAnswer(script, at, |BACKOFF|, PollRun(script, next, left - 1).next);
    } else if left > 0 {
      FirstAnswer(script, at, |BACKOFF|, next);
    }
  }

  lemma SuccessLater(script: seq<Reply>, from: nat, next: nat, until: nat)
    requires from < next < until && AllThrottled(script, from, next - 1)
    requires ReplyAt(script, next - 1).Ok? && ReplyAt(script, next - 1).status.Pending?
    ensures SawSuccess(script, from, until) <==> SawSuccess(script, next, until)
  {}

  /** The polling ends ready exactly when the last poll was SUCCEEDED, or none was allowed. */
  lemma {:induction false} PollSuccess(script: seq<Reply>, at: nat, left: nat)
    ensures var p := PollRun(script, at, left);
      && (p.verdict.Ready? <==> left == 0 || SawSuccess(script, at, p.next))
      && (left > 0 ==> at < p.next && (p.verdict.Threw? <==> !ReplyAt(script, p.next - 1).Ok?))
    decreases left
  {
    var next := AfterCall(script, at, |BACKOFF|);
    TriesThrottled(script, at, |BACKOFF|);
    if PollsAgain(script, at, left) {
      PollSuccess(script, next, left - 1);
      SuccessLater(script, at, next, PollRun(script, next, left - 1).next);
    }
  }

  function AtLeastZero(n: int): nat { if n < 0 then 0 else n }

  method Poll(script: seq<Reply>, at: nat, pollMax: int, stats: CycleStats)
    returns (verdict: Verdict, next: nat, after: CycleStats)
    ensures var p := PollRun(script, at, AtLeastZero(pollMax));
      verdict == p.verdict && next == p.next && after == stats.(throttled := stats.throttled + p.throttled)
  {
    next, after := at, stats;
    ghost var p := PollRun(script, at, AtLeastZero(pollMax));
    for i := 0 to AtLeastZero(pollMax)
      invariant i >= 1 ==> i < pollMax
      invariant after == stats.(throttled := after.throttled)
      invariant var q := PollRun(script, next, AtLeastZero(pollMax) - i);
        p.verdict == q.verdict && p.next == q.next && stats.throttled + p.throttled == after.throttled + q.throttled
    {
      var reply;
      reply, next, after := WithRetry(script, next, after);
      if !reply.Ok? { return Threw, next, after; }
      if reply.status.Succeeded? { return Ready, next, after; }
      if reply.status.FailedOrCanceled? { return Refused, next, after; }
      // after the last poll the query is stopped; whatever that call answers is ignored
      if i == pollMax - 1 { return Refused, next, after; }
    }
    verdict := Ready;
  }

  // ---- paging ---------------------------------------------------------------------------------

  /** Every call before the last was throttled or announced another page. */
  ghost predicate Continues(script: seq<Reply>, from: nat, until: nat)
  {
    forall i :: from <= i < until - 1 ==>
      ReplyAt(script, i).Throttled? || (ReplyAt(script, i).Ok? && ReplyAt(script, i).more)
  }

  /** The last page came and announced no other. */
  ghost predicate LastPageCame(script: seq<Reply>, from: nat, until: nat)
  {
    from < until && ReplyAt(script, until - 1).Ok? && !ReplyAt(script, until - 1).more
  }

  datatype Paged = Paged(complete: bool, next: nat, rows: seq<FlowEdge>, throttled: nat)

  /** Paging from a position of the script. */
  ghost function PageRun(script: seq<Reply>, at: nat): (g: Paged)
    ensures at < g.next
    decreases if at <= |script| then |script| - at else 0
  {
    var next := AfterCall(script, at, |BACKOFF|);
    var reply := ReplyAt(script, next - 1);
    if !reply.Ok? then Paged(false, next, [], next - at - 1)
    else if !reply.more then Paged(true, next, reply.rows, next - at - 1)
    else
      var g := PageRun(script, next);
      g.(rows := reply.rows + g.rows, throttled := next - at - 1 + g.throttled)
  }

  ghost predicate PagesAgain(script: seq<Reply>, at: nat)
  {
    var reply := ReplyAt(script, AfterCall(script, at, |BACKOFF|) - 1);
    reply.Ok? && reply.more
  }

  /** Every call but the last leads to another; the paging is complete exactly when the last page came. */
  lemma {:induction false} PageSuccess(script: seq<Reply>, at: nat)
    ensures var g := PageRun(script, at);
      Continues(script, at, g.next) && (g.complete <==> LastPageCame(script, at, g.next))
    decreases if at <= |script| then |script| - at else 0
  {
    var next := AfterCall(script, at, |BACKOFF|);
    TriesThrottled(script, at, |BACKOFF|);
    if PagesAgain(script, at) { PageSuccess(script, next); }
  }

  /** Every answer brings its rows. */
  lemma {:induction false} PageRows(script: seq<Reply>, at: nat)
    ensures PageRun(script, at).rows == RowsIn(script, at, PageRun(script, at).next)
    decreases if at <= |script| then |script| - at else 0
  {
    var next := AfterCall(script, at, |BACKOFF|);
    if PagesAgain(script, at) {
      PageRows(script, next);
      FirstRows(script, at, |BACKOFF|, PageRun(script, next).next);
    } else {
      FirstRows(script, at, |BACKOFF|, next);
    }
  }

  /** Every call that is not answered was retried, or was the last. */
  lemma {:induction false} PageCount(script: seq<Reply>, at: nat)
    ensures var g := PageRun(script, at);
      g.next - at == g.throttled + Answers(script, at, g.next) + (if ReplyAt(script, g.next - 1).Ok? then 0 else 1)
    decreases if at <= |script| then |script| - at else 0
  {
    var next := AfterCall(script, at, |BACKOFF|);
    if PagesAgain(script, at) {
      PageCount(script, next);
      FirstAnswer(script, at, |BACKOFF|, PageRun(script, next).next);
    } else {
      FirstAnswer(script, at, |BACKOFF|, next);
    }
  }

  /** With these rows and retries so far, and the script at `next`, the paging ends as `g`. */
  ghost predicate EndsAs(g: Paged, script: seq<Reply>, next: nat, rows: seq<FlowEdge>, throttled: nat)
  {
    var q := PageRun(script, next);
    g == q.(rows := rows + q.rows, throttled := throttled + q.throttled)
  }

  lemma OnePage(g: Paged, script: seq<Reply>, at: nat, rows: seq<FlowEdge>, throttled: nat)
    requires EndsAs(g, script, at, rows, throttled)
    ensures var next := AfterCall(script, at, |BACKOFF|);
      var reply, t := ReplyAt(script, next - 1), throttled + (next - at - 1);
      if !reply.Ok? then g == Paged(false, next, rows, t)
      else if reply.more then EndsAs(g, script, next, rows + reply.rows, t)
      else g == Paged(true, next, rows + reply.rows, t)
  {
    var next := AfterCall(script, at, |BACKOFF|);
    var reply := ReplyAt(script, next - 1);
    if reply.Ok? && reply.more {
      var rest := PageRun(script, next).rows;
      assert rows + (reply.rows + rest) == (rows + reply.rows) + rest;
    } else {
      assert rows + [] == rows;
    }
  }

  method FetchPages(script: seq<Reply>, at: nat, stats: CycleStats)
    returns (edges: seq<FlowEdge>, complete: bool, next: nat, after: CycleStats)
    ensures var g := PageRun(script, at);
      && complete == g.complete && next == g.next && edges == g.rows
      && after == stats.(throttled := stats.throttled + g.throttled, rows := stats.rows + |edges|)
  {
    edges, next, after := [], at, stats;
    ghost var g := PageRun(script, at);
    ghost var throttled: nat := 0;
    var more := true;
    while more
      invariant after == stats.(throttled := stats.throttled + throttled, rows := stats.rows + |edges|)
      invariant if more then EndsAs(g, script, next, edges, throttled) else g == Paged(true, next, edges, throttled)
      decreases if next <= |script| then |script| - next else 0, more
    {
      OnePage(g, script, next, edges, throttled);
      var reply, n, a := WithRetry(script, next, after);
      throttled := throttled + (n - next - 1);
      next, after := n, a;
      if !reply.Ok? { return edges, false, next, after; }
      edges := edges + reply.rows;
      after := after.(rows := after.rows + |reply.rows|);
      more := reply.more;
    }
    complete := true;
  }

  // ---- the whole life --------------------------------------------------------------------------

  /**
   * Which answers of the client the query took: those of the start end at `begun`, those of the
   * polls at `polled`, those of the pages at `paged`; the rows it read, whether it succeeded,
   * and how often it was retried.
   */
  datatype Life = Life(begun: nat, polled: nat, paged: nat, rows: seq<FlowEdge>, ok: bool, throttled: nat) {
    function Edges(): seq<FlowEdge> { if ok then rows else [] }

    /** What the query's life adds to the counters. */
    function Counted(stats: CycleStats): CycleStats
    {
      CycleStats(stats.started + 1, stats.succeeded + (if ok then 1 else 0), stats.failed + (if ok then 0 else 1),
                 stats.throttled + throttled, stats.rows + |rows|)
    }
  }

  /** The client's answers alone decide a query's life. */
  ghost function LifeOf(script: seq<Reply>, pollMax: int): Life
  {
    var next := AfterCall(script, 0, |BACKOFF|);
    if !ReplyAt(script, next - 1).Ok? then Life(next, next, next, [], false, next - 1)
    else
      var p := PollRun(script, next, AtLeastZero(pollMax));
      if !p.verdict.Ready? then Life(next, p.next, p.next, [], false, next - 1 + p.throttled)
      else
        var g := PageRun(script, p.next);
        Life(next, p.next, g.next, g.rows, g.complete, next - 1 + p.throttled + g.throttled)
  }

  /** The query was started, and seen SUCCEEDED where any poll is allowed. */
  ghost predicate WasReady(script: seq<Reply>, pollMax: int, l: Life)
    requires l.begun > 0
  {
    ReplyAt(script, l.begun - 1).Ok? && (pollMax <= 0 || SawSuccess(script, l.begun, l.polled))
  }

  /**
   * A query is polled only once started, and read only once ready: started, and seen SUCCEEDED
   * by its last poll (with no poll allowed: unseen). It succeeds exactly when it was ready and
   * its last page came.
   */
  lemma LifeSucceeds(script: seq<Reply>, pollMax: int)
    ensures var l := LifeOf(script, pollMax);
      && 0 < l.begun <= l.polled <= l.paged && AllThrottled(script, 0, l.begun - 1)
      && (l.begun < l.polled <==> ReplyAt(script, l.begun - 1).Ok? && pollMax >= 1)
      && (l.polled < l.paged <==> WasReady(script, pollMax, l))
      && Continues(script, l.polled, l.paged) && l.rows == RowsIn(script, l.polled, l.paged)
      && (l.ok <==> WasReady(script, pollMax, l) && LastPageCame(script, l.polled, l.paged))
  {
    var next := AfterCall(script, 0, |BACKOFF|);
    TriesThrottled(script, 0, |BACKOFF|);
    PollCount(script, next, AtLeastZero(pollMax));
    PollSuccess(script, next, AtLeastZero(pollMax));
    PageSuccess(script, PollRun(script, next, AtLeastZero(pollMax)).next);
    PageRows(script, PollRun(script, next, AtLeastZero(pollMax)).next);
  }

  /** At most `pollMax` polls are answered; a call not answered was retried or was the life's last. */
  lemma LifeCounts(script: seq<Reply>, pollMax: int)
    ensures var l := LifeOf(script, pollMax);
      && 0 < l.begun <= l.polled <= l.paged && Answers(script, l.begun, l.polled) <= AtLeastZero(pollMax)
      && l.paged == l.throttled + (if ReplyAt(script, l.paged - 1).Ok? then 0 else 1)
           + Answers(script, 0, l.begun) + Answers(script, l.begun, l.polled) + Answers(script, l.polled, l.paged)
  {
    var next := AfterCall(script, 0, |BACKOFF|);
    FirstAnswer(script, 0, |BACKOFF|, next);
    PollCount(script, next, AtLeastZero(pollMax));
    PollSuccess(script, next, AtLeastZero(pollMax));
    PageCount(script, PollRun(script, next, AtLeastZero(pollMax)).next);
  }

  /**
   * One query is counted once as started and once as succeeded or failed; only if it succeeds
   * its edges are the rows of its pages. Rows of pages that came before a failure stay counted.
   */
  method RunOne(script: seq<Reply>, pollMax: int, stats: CycleStats) returns (edges: seq<FlowEdge>, after: CycleStats)
    ensures edges == LifeOf(script, pollMax).Edges() && after == LifeOf(script, pollMax).Counted(stats)
  {
    edges := [];
    after := stats.(started := stats.started + 1);
    var reply, next;
    reply, next, after := WithRetry(script, 0, after);
    if !reply.Ok? {
      after := after.(failed := after.failed + 1);
      return;
    }
    var verdict;
    verdict, next, after := Poll(script, next, pollMax, after);
    if !verdict.Ready? {
      after := after.(failed := after.failed + 1);
      return;
    }
    var found, complete;
    found, complete, next, after := FetchPages(script, next, after);
    if !complete {
      after := after.(failed := after.failed + 1);
      return;
    }
    edges := found;
    after := after.(succeeded := after.succeeded + 1);
  }

  /** With no poll allowed the edges of a query nobody saw succeed are accepted. */
  lemma UnseenQueryIsAccepted(e: FlowEdge, pollMax: int)
    requires pollMax <= 0
    ensures var script := [Ok(Pending, [], false), Ok(Pending, [e], false)];
      var l := LifeOf(script, pollMax);
      l.ok && l.Edges() == [e] && l.begun == l.polled
  {
    var script := [Ok(Pending, [], false), Ok(Pending, [e], false)];
    assert AfterCall(script, 0, |BACKOFF|) == 1;
    assert AfterCall(script, 1, |BACKOFF|) == 2;
  }
}
