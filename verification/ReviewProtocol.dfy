/**
 * The issue / record / aggregate protocol of the role review (scripts/pr-review/role_review.py).
 * Every file the protocol decides on is a field; an operation is a sequence of single file
 * operations, so that `prepare`, other calls, exceptions and kills can come between any two.
 */
module ReviewProtocol {
  import opened Collections

  datatype Tag = Codex | KiroFable | KiroSol | ClaudeSelf

  datatype Code =
    | ModelSelection | ModelFallback | Quota | AgentPreflight
    | InvalidPlan | InvalidIssuedRequest | InvalidInvocationNonce | PlanInputIncomplete | InactiveRole
    | CliNonzeroExit | InputUnavailable | ResponseRejected

  predicate IsTerminal(c: Code) { c.ModelSelection? || c.ModelFallback? || c.Quota? || c.AgentPreflight? }

  type Nonce = nat

  /** A loaded plan; equal plans are those with equal digests. `content` is the rest of it. */
  datatype Plan = Plan(content: nat, inputComplete: bool, required: set<Tag>)

  datatype Receipt = Receipt(plan: Plan, nonce: Nonce)

  /** The validated part of a response that aggregation looks at. */
  datatype Response = Response(severe: bool, uncertain: bool)

  datatype Result = Result(valid: bool, codes: seq<Code>, receipt: Option<Receipt>, response: Option<Response>)

  /** What a `record` call was given: None stands for a response that fails validation. */
  datatype Attempt = Attempt(
    nonce: Nonce, exitOk: bool, stderrReadable: bool, diagnostic: Option<Code>, response: Option<Response>)

  predicate HasTerminal(r: Result) { exists i :: 0 <= i < |r.codes| && IsTerminal(r.codes[i]) }

  const MAX_HISTORY := 32

  /** Where an operation stands; each state names the file operation that was just done. */
  datatype Op =
    | Idle
    | IssueStarted(nonce: Nonce)
    | IssueLoaded(nonce: Nonce, plan: Plan, prior: Result, history: seq<Result>)
    | IssueHistoryWritten(nonce: Nonce, plan: Plan, prior: Result)
    | IssueSaved(nonce: Nonce, plan: Plan)
    | IssueResultRemoved(nonce: Nonce, plan: Plan)
    | IssueClaimRemoved(nonce: Nonce, plan: Plan)
    | IssueFlagRemoved(nonce: Nonce, plan: Plan)
    | RecordStarted(attempt: Attempt)
    | RecordClaimed(attempt: Attempt)
    | RecordChecked(attempt: Attempt)
    | RecordJudged(result: Result)
    | RecordRepeated
    | Finishing

  /**
   * The files of one role. `refused` counts the record calls that found the lock taken and have
   * not written their flag yet. `written` counts the results written, and `reopened` the issues
   * stopped by an exception with result and claim gone, since the last completed issue or
   * preparation; `used` and `retired` are the nonces ever drawn and those no longer current.
   */
  datatype Slot = Slot(
    lock: bool, op: Op,
    claim: bool, result: Option<Result>, request: Option<Receipt>, history: seq<Result>,
    duplicate: bool, terminal: bool, refused: nat,
    written: nat, reopened: nat, used: set<Nonce>, retired: set<Nonce>)

  const FRESH := Slot(false, Idle, false, None, None, [], false, false, 0, 0, 0, {}, {})

  /** The verdict of `_record` once it holds the claim and no result exists. */
  function Judge(plan: Option<Plan>, request: Option<Receipt>, tag: Tag, a: Attempt): Result
  {
    if plan.None? then Result(false, [InvalidPlan], None, None)
    else if request.None? || request.value.plan != plan.value then Result(false, [InvalidIssuedRequest], None, None)
    else if a.nonce != request.value.nonce then Result(false, [InvalidInvocationNonce], None, None)
    else if !plan.value.inputComplete then Result(false, [PlanInputIncomplete], request, None)
    else if tag !in plan.value.required then Result(false, [InactiveRole], request, None)
    else
      var exit := if a.exitOk then [] else [CliNonzeroExit];
      if !a.stderrReadable then Result(false, exit + [InputUnavailable], request, None)
      else
        var codes := exit + if a.diagnostic.Some? then [a.diagnostic.value] else [];
        if codes != [] then Result(false, codes, request, None)
        else if a.response.None? then Result(false, [ResponseRejected], request, None)
        else Result(true, [], request, a.response)
  }

  /** The next file operation of the operation in flight. */
  function Advance(plan: Option<Plan>, tag: Tag, s: Slot): Slot
  {
    match s.op
    case Idle => s
    case IssueStarted(n) =>
      if plan.None? || !plan.value.inputComplete || tag !in plan.value.required then s.(op := Finishing)
      else if s.result.None? then s.(op := IssueSaved(n, plan.value))
      else if s.result.value.valid || |s.history| >= MAX_HISTORY then s.(op := Finishing)
      else s.(op := IssueLoaded(n, plan.value, s.result.value, s.history + [s.result.value]))
    case IssueLoaded(n, p, prior, history) => s.(history := history, op := IssueHistoryWritten(n, p, prior))
    case IssueHistoryWritten(n, p, prior) =>
      s.(terminal := s.terminal || HasTerminal(prior), op := IssueSaved(n, p))
    case IssueSaved(n, p) => s.(result := None, op := IssueResultRemoved(n, p))
    case IssueResultRemoved(n, p) => s.(claim := false, op := IssueClaimRemoved(n, p))
    case IssueClaimRemoved(n, p) => s.(duplicate := false, op := IssueFlagRemoved(n, p))
    case IssueFlagRemoved(n, p) =>
      s.(request := Some(Receipt(p, n)), op := Finishing, written := 0, reopened := 0, retired := Retire(s))
    case RecordStarted(a) =>
      if s.claim then s.(op := RecordRepeated) else s.(claim := true, op := RecordClaimed(a))
    case RecordClaimed(a) =>
      if s.result.Some? then s.(op := RecordRepeated) else s.(op := RecordChecked(a))
    case RecordChecked(a) => s.(op := RecordJudged(Judge(plan, s.request, tag, a)))
    case RecordJudged(r) => s.(result := Some(r), op := Finishing, written := s.written + 1)
    case RecordRepeated => s.(duplicate := true, op := Finishing)
    case Finishing => s.(lock := false, op := Idle)
  }

  function Retire(s: Slot): set<Nonce>
  {
    if s.request.Some? then s.retired + {s.request.value.nonce} else s.retired
  }

  /** An exception now leaves neither a result nor a claim, and the old receipt in place. */
  predicate Reopens(s: Slot) { Removing(s.op) && !s.claim }

  predicate Removing(op: Op) { op.IssueResultRemoved? || op.IssueClaimRemoved? || op.IssueFlagRemoved? }

  datatype Event =
    | BeginIssue(nonce: Nonce)
    | BeginRecord(attempt: Attempt)
    | Continue
    | Raise          // an exception: the lock is released on the way out
    | Kill           // the process is gone: the lock stays
    | FlagRefused    // a record call that found the lock taken writes its flag
    | DropRefused    // such a call is stopped before it does
    | Prepare        // removes the role's results, requests, claims, history and flags, not its lock

  predicate Enabled(s: Slot, ev: Event)
  {
    match ev
    case BeginIssue(n) => n !in s.used
    case BeginRecord(a) => true
    case Continue => !s.op.Idle?
    case Raise => !s.op.Idle?
    case Kill => !s.op.Idle?
    case FlagRefused => s.refused > 0
    case DropRefused => s.refused > 0
    case Prepare => true
  }

  function Apply(plan: Option<Plan>, tag: Tag, s: Slot, ev: Event): Slot
    requires Enabled(s, ev)
  {
    match ev
    case BeginIssue(n) => if s.lock then s else s.(lock := true, op := IssueStarted(n), used := s.used + {n})
    case BeginRecord(a) => if s.lock then s.(refused := s.refused + 1) else s.(lock := true, op := RecordStarted(a))
    case Continue => Advance(plan, tag, s)
    case Raise => s.(lock := false, op := Idle, reopened := if Reopens(s) then s.reopened + 1 else s.reopened)
    case Kill => s.(op := Idle)
    case FlagRefused => s.(duplicate := true, refused := s.refused - 1)
    case DropRefused => s.(refused := s.refused - 1)
    case Prepare =>
      s.(claim := false, result := None, request := None, history := [], duplicate := false, terminal := false,
         written := 0, reopened := 0, retired := Retire(s))
  }

  // ---- the workspace --------------------------------------------------------------------

  /** `upstream` says whether any blocking flag file of another origin is present. */
  datatype Workspace = Workspace(plan: Option<Plan>, slots: map<Tag, Slot>, upstream: bool)

  predicate AllTags(slots: map<Tag, Slot>) { forall t: Tag :: t in slots }

  datatype Mode = Blocked | Review | Deterministic

  /** Every file of the role speaks for passing. */
  predicate Passes(plan: Plan, tag: Tag, s: Slot)
  {
    && !s.duplicate && !s.terminal && |s.history| <= MAX_HISTORY
    && (s.result.Some? <==> tag in plan.required)
    && (s.result.Some? ==>
          && s.request.Some? && s.request.value.plan == plan
          && s.result.value.valid && s.result.value.codes == []
          && s.result.value.receipt == s.request && s.result.value.response.Some?)
  }

  predicate NeedsReview(s: Slot)
  {
    && s.result.Some? && s.result.value.response.Some?
    && (s.result.value.response.value.severe || s.result.value.response.value.uncertain)
  }

  function Aggregate(w: Workspace): Mode
    requires AllTags(w.slots)
  {
    if w.plan.None? || !w.plan.value.inputComplete || w.upstream
       || exists t: Tag :: !Passes(w.plan.value, t, w.slots[t]) then Blocked
    else if exists t: Tag :: NeedsReview(w.slots[t]) then Review
    else Deterministic
  }

  datatype Action =
    | On(tag: Tag, ev: Event)
    | PrepareAll(plan: Option<Plan>)
    | SetUpstream(present: bool)

  predicate CanDo(w: Workspace, a: Action)
    requires AllTags(w.slots)
  {
    a.On? ==> !a.ev.Prepare? && Enabled(w.slots[a.tag], a.ev)
  }

  function Do(w: Workspace, a: Action): (w': Workspace)
    requires AllTags(w.slots) && CanDo(w, a)
    ensures AllTags(w'.slots)
  {
    match a
    case On(tag, ev) => w.(slots := w.slots[tag := Apply(w.plan, tag, w.slots[tag], ev)])
    case PrepareAll(plan) => w.(plan := plan, slots := map t | t in w.slots :: Apply(plan, t, w.slots[t], Prepare))
    case SetUpstream(b) => w.(upstream := b)
  }

  /** A run: any interleaving of actions, one file operation at a time, from an empty workspace. */
  ghost predicate IsRun(ws: seq<Workspace>, acts: seq<Action>)
  {
    && |ws| == |acts| + 1
    && (forall i :: 0 <= i < |ws| ==> AllTags(ws[i].slots))
    && (forall t: Tag :: ws[0].slots[t] == FRESH)
    && forall i :: 0 <= i < |acts| ==> StepsTo(ws[i], acts[i], ws[i + 1])
  }

  ghost predicate StepsTo(w: Workspace, a: Action, w': Workspace)
  {
    AllTags(w.slots) && CanDo(w, a) && w' == Do(w, a)
  }

  // ---- the invariant of one role ------------------------------------------------------------

  /** How many results the role can still write before the next completed issue or preparation. */
  function Token(s: Slot): nat
  {
    if s.op.RecordChecked? || s.op.RecordJudged? then 1
    else if Removing(s.op) || (s.op.Idle? && s.lock) then 0
    else if s.result.None? && (s.op.RecordClaimed? || !s.claim) then 1
    else 0
  }

  predicate OpNonce(s: Slot, n: Nonce)
  {
    n in s.used && n !in s.retired && (s.request.Some? ==> s.request.value.nonce != n)
  }

  predicate OpOk(s: Slot)
  {
    match s.op
    case Idle => true
    case IssueStarted(n) => OpNonce(s, n)
    case IssueLoaded(n, p, prior, h) =>
      OpNonce(s, n) && !prior.valid && |h| <= MAX_HISTORY && (s.result == None || s.result == Some(prior))
    case IssueHistoryWritten(n, p, prior) =>
      OpNonce(s, n) && !prior.valid && (s.result == None || s.result == Some(prior))
    case IssueSaved(n, p) =>
      OpNonce(s, n) && (s.result.Some? ==> !s.result.value.valid && (HasTerminal(s.result.value) ==> s.terminal))
    case IssueResultRemoved(n, p) => OpNonce(s, n) && s.result == None
    case IssueClaimRemoved(n, p) => OpNonce(s, n) && s.result == None
    case IssueFlagRemoved(n, p) => OpNonce(s, n) && s.result == None
    case RecordStarted(a) => true
    case RecordClaimed(a) => true
    case RecordChecked(a) => s.result == None
    case RecordJudged(r) => s.result == None && Honest(s, r)
    case RecordRepeated => true
    case Finishing => true
  }

  /** A valid result carries a receipt, and no request file holds any other. */
  predicate Honest(s: Slot, r: Result)
  {
    r.valid ==> r.codes == [] && r.response.Some? && r.receipt.Some? && (s.request.Some? ==> s.request == r.receipt)
  }

  predicate Inv(s: Slot)
  {
    && (!s.op.Idle? ==> s.lock)
    && |s.history| <= MAX_HISTORY
    && OpOk(s)
    && (s.result.Some? ==> Honest(s, s.result.value))
    && s.written + Token(s) <= 1 + s.reopened
    && (s.request.Some? && s.result.Some? ==> s.written >= 1)
    && s.retired <= s.used
    && (s.request.Some? ==> s.request.value.nonce in s.used && s.request.value.nonce !in s.retired)
  }

  lemma JudgeIsHonest(plan: Option<Plan>, tag: Tag, s: Slot, a: Attempt)
    ensures Honest(s, Judge(plan, s.request, tag, a))
  {}

  lemma AdvanceIssue(plan: Option<Plan>, tag: Tag, s: Slot)
    requires Inv(s) && (s.op.IssueStarted? || s.op.IssueLoaded? || s.op.IssueHistoryWritten? || s.op.IssueSaved?)
    ensures Inv(Advance(plan, tag, s))
  {}

  lemma AdvanceRemoving(plan: Option<Plan>, tag: Tag, s: Slot)
    requires Inv(s) && Removing(s.op)
    ensures Inv(Advance(plan, tag, s))
  {}

  lemma AdvanceRecord(plan: Option<Plan>, tag: Tag, s: Slot)
    requires Inv(s) && (s.op.RecordStarted? || s.op.RecordClaimed? || s.op.RecordChecked? || s.op.RecordJudged?
      || s.op.RecordRepeated?)
    ensures Inv(Advance(plan, tag, s))
  {
    if s.op.RecordChecked? { JudgeIsHonest(plan, tag, s, s.op.attempt); }
  }

  lemma InvPreserved(plan: Option<Plan>, tag: Tag, s: Slot, ev: Event)
    requires Inv(s) && Enabled(s, ev)
    ensures Inv(Apply(plan, tag, s, ev))
  {
    if ev.Continue? {
      if Removing(s.op) {
        AdvanceRemoving(plan, tag, s);
      } else if s.op.RecordStarted? || s.op.RecordClaimed? || s.op.RecordChecked? || s.op.RecordJudged?
                || s.op.RecordRepeated? {
        AdvanceRecord(plan, tag, s);
      } else if s.op.Finishing? {
      } else {
        AdvanceIssue(plan, tag, s);
      }
    }
  }

  lemma InvStep(w: Workspace, a: Action, t: Tag)
    requires AllTags(w.slots) && CanDo(w, a) && Inv(w.slots[t])
    ensures Inv(Do(w, a).slots[t])
  {
    match a
    case On(tag, ev) => if tag == t { InvPreserved(w.plan, t, w.slots[t], ev); }
    case PrepareAll(p) => InvPreserved(p, t, w.slots[t], Prepare);
    case SetUpstream(_) =>
  }

  lemma {:induction false} InvHolds(ws: seq<Workspace>, acts: seq<Action>, i: nat, t: Tag)
    requires IsRun(ws, acts) && i < |ws|
    ensures Inv(ws[i].slots[t])
  {
    if i == 0 {
      FreshInv();
    } else {
      InvHolds(ws, acts, i - 1, t);
      RunStep(ws, acts, i - 1);
      InvStep(ws[i - 1], acts[i - 1], t);
    }
  }

  lemma FreshInv()
    ensures Inv(FRESH)
  {}

  lemma RunStep(ws: seq<Workspace>, acts: seq<Action>, i: nat)
    requires IsRun(ws, acts) && i < |acts|
    ensures StepsTo(ws[i], acts[i], ws[i + 1])
  {}

  /** The files of a role in one state of a run. */
  function At(ws: seq<Workspace>, i: nat, t: Tag): Slot
    requires i < |ws|
  {
    if t in ws[i].slots then ws[i].slots[t] else FRESH
  }

  /** What an action does to one role: an event, or nothing. */
  function EventOn(a: Action, t: Tag): Option<Event>
  {
    match a
    case On(tag, ev) => if tag == t then Some(ev) else None
    case PrepareAll(_) => Some(Prepare)
    case SetUpstream(_) => None
  }

  /** Each step of a run takes a role by one event, or leaves it; its invariant holds before. */
  lemma RoleStep(ws: seq<Workspace>, acts: seq<Action>, i: nat, t: Tag) returns (plan: Option<Plan>)
    requires IsRun(ws, acts) && i < |acts|
    ensures Inv(At(ws, i, t))
    ensures var ev := EventOn(acts[i], t);
      if ev.None? then At(ws, i + 1, t) == At(ws, i, t)
      else Enabled(At(ws, i, t), ev.value) && At(ws, i + 1, t) == Apply(plan, t, At(ws, i, t), ev.value)
    ensures acts[i].On? ==> !acts[i].ev.Prepare?
  {
    InvHolds(ws, acts, i, t);
    RunStep(ws, acts, i);
    plan := if acts[i].PrepareAll? then acts[i].plan else ws[i].plan;
  }

  // ---- no stale pass ------------------------------------------------------------------------

  /**
   * Whenever aggregation leaves "blocked", the plan is complete, no blocking flag exists, and
   * the roles with a result are exactly the required ones; each of those results is valid, was
   * judged against the current plan and the nonce of the role's latest issued request, and that
   * nonce was never superseded. It is the only result written since that request was issued,
   * unless an exception stopped some later issue with the claim already gone.
   */
  lemma PassIsCurrent(ws: seq<Workspace>, acts: seq<Action>, i: nat, t: Tag)
    requires IsRun(ws, acts) && i < |ws| && Aggregate(ws[i]) != Blocked
    ensures var w := ws[i]; var s := w.slots[t];
            && w.plan.Some? && w.plan.value.inputComplete && !w.upstream && !s.duplicate && !s.terminal
            && (s.result.Some? <==> t in w.plan.value.required)
            && (t in w.plan.value.required ==>
                  && s.result.value.valid && s.request.Some? && s.result.value.receipt == s.request
                  && s.request.value.plan == w.plan.value
                  && s.request.value.nonce !in s.retired
                  && 1 <= s.written <= 1 + s.reopened)
  {
    InvHolds(ws, acts, i, t);
    assert Passes(ws[i].plan.value, t, ws[i].slots[t]);
  }

  /** The response of the role, if its result has one, calls for a review. */
  ghost predicate AsksForReview(s: Slot)
  {
    match s.result
    case Some(Result(_, _, _, Some(Response(severe, uncertain)))) => severe || uncertain
    case _ => false
  }

  /**
   * The mode of any workspace: blocked for lack of a complete plan, for a flag or for a role
   * that does not pass; otherwise a review exactly when a required role's response is severe or
   * uncertain.
   */
  lemma AggregateMode(w: Workspace)
    requires AllTags(w.slots)
    ensures Aggregate(w) == Blocked
       <==> w.plan.None? || !w.plan.value.inputComplete || w.upstream
            || exists t: Tag :: !Passes(w.plan.value, t, w.slots[t])
    ensures Aggregate(w) == Review
       <==> Aggregate(w) != Blocked && exists t: Tag :: t in w.plan.value.required && AsksForReview(w.slots[t])
    ensures Aggregate(w) == Deterministic
       <==> Aggregate(w) != Blocked && forall t: Tag :: t in w.plan.value.required ==> !AsksForReview(w.slots[t])
  {
    if Aggregate(w) != Blocked {
      forall t: Tag ensures NeedsReview(w.slots[t]) <==> t in w.plan.value.required && AsksForReview(w.slots[t]) {
        assert Passes(w.plan.value, t, w.slots[t]);
      }
    }
  }

  /** A required role has a valid result for its latest request, which is for the current plan; others have none. */
  ghost predicate Answered(plan: Plan, t: Tag, s: Slot)
  {
    if t in plan.required then
      && s.result.Some? && s.result.value.valid
      && s.request.Some? && s.result.value.receipt == s.request && s.request.value.plan == plan
    else s.result.None?
  }

  /** In every run aggregation leaves "blocked" exactly when nothing speaks against it. */
  lemma UnblockedIff(ws: seq<Workspace>, acts: seq<Action>, i: nat)
    requires IsRun(ws, acts) && i < |ws|
    ensures var w := ws[i];
      Aggregate(w) != Blocked
      <==> && w.plan.Some? && w.plan.value.inputComplete && !w.upstream
           && forall t: Tag :: !w.slots[t].duplicate && !w.slots[t].terminal && Answered(w.plan.value, t, w.slots[t])
  {
    var w := ws[i];
    AggregateMode(w);
    if w.plan.Some? {
      forall t: Tag
        ensures Passes(w.plan.value, t, w.slots[t])
           <==> !w.slots[t].duplicate && !w.slots[t].terminal && Answered(w.plan.value, t, w.slots[t])
      {
        InvHolds(ws, acts, i, t);
      }
    }
  }

  /** Only a call that carries the nonce of the latest issued request is ever judged valid. */
  lemma OldNonceIsNeverValid(ws: seq<Workspace>, acts: seq<Action>, i: nat, t: Tag, a: Attempt)
    requires IsRun(ws, acts) && i < |ws|
    requires ws[i].slots[t].request.None? || a.nonce in ws[i].slots[t].retired
      || a.nonce != ws[i].slots[t].request.value.nonce
    ensures !Judge(ws[i].plan, ws[i].slots[t].request, t, a).valid
  {
    InvHolds(ws, acts, i, t);
  }

  /** A valid result is never replaced or removed by anything but a preparation. */
  lemma ValidResultIsKept(plan: Option<Plan>, tag: Tag, s: Slot, ev: Event)
    requires Inv(s) && Enabled(s, ev) && !ev.Prepare?
    requires s.result.Some? && s.result.value.valid
    ensures Apply(plan, tag, s, ev).result == s.result
  {
    if ev.Continue? { AdvanceKeepsValid(plan, tag, s); }
  }

  lemma AdvanceKeepsValid(plan: Option<Plan>, tag: Tag, s: Slot)
    requires Inv(s) && s.result.Some? && s.result.value.valid
    ensures Advance(plan, tag, s).result == s.result
  {}

  // ---- how many results an issue can get ----------------------------------------------------------

  /** At most one result per completed issue, plus one for every exception that reopened it. */
  lemma ResultsPerIssue(ws: seq<Workspace>, acts: seq<Action>, i: nat, t: Tag)
    requires IsRun(ws, acts) && i < |ws|
    ensures ws[i].slots[t].written <= 1 + ws[i].slots[t].reopened
  {
    InvHolds(ws, acts, i, t);
  }

  /** Step k is an exception that stops an issue of the role with result and claim gone. */
  ghost predicate ReopenedAt(ws: seq<Workspace>, acts: seq<Action>, k: nat, t: Tag)
  {
    k < |acts| && k < |ws| && EventOn(acts[k], t) == Some(Raise) && Reopens(At(ws, k, t))
  }

  /** From step k to step i no issue completes, nothing is prepared, written or claimed. */
  ghost predicate Untouched(ws: seq<Workspace>, k: nat, i: nat, t: Tag)
    requires k <= i < |ws|
  {
    forall m :: k <= m <= i ==> !At(ws, m, t).claim && At(ws, m, t).written == At(ws, i, t).written
  }

  /** A result was written, and yet neither it nor a claim is there; no issue is removing files. */
  predicate Reopened(s: Slot)
  {
    s.written >= 1 && s.result.None? && !s.claim && !Removing(s.op) && !(s.lock && s.op.Idle?)
  }

  /** The only event that reopens a role is an exception during the removal. */
  lemma ReopenedBefore(plan: Option<Plan>, tag: Tag, s: Slot, ev: Event)
    requires Inv(s) && Enabled(s, ev) && Reopened(Apply(plan, tag, s, ev))
    ensures (ev.Raise? && Reopens(s)) || Reopened(s)
    ensures !s.claim && s.written == Apply(plan, tag, s, ev).written
  {
    if ev.Continue? { AdvanceReopensNothing(plan, tag, s); }
  }

  lemma AdvanceReopensNothing(plan: Option<Plan>, tag: Tag, s: Slot)
    requires Inv(s) && Reopened(Advance(plan, tag, s))
    ensures Reopened(s) && !s.claim && s.written == Advance(plan, tag, s).written
  {}

  lemma ReopenedStep(ws: seq<Workspace>, acts: seq<Action>, i: nat, t: Tag)
    requires IsRun(ws, acts) && i < |acts| && Reopened(At(ws, i + 1, t))
    ensures ReopenedAt(ws, acts, i, t) || Reopened(At(ws, i, t))
    ensures !At(ws, i, t).claim && At(ws, i, t).written == At(ws, i + 1, t).written
  {
    var plan := RoleStep(ws, acts, i, t);
    var ev := EventOn(acts[i], t);
    if ev.Some? { ReopenedBefore(plan, t, At(ws, i, t), ev.value); }
  }

  lemma {:induction false} ReopenedSince(ws: seq<Workspace>, acts: seq<Action>, i: nat, t: Tag) returns (k: nat)
    requires IsRun(ws, acts) && i < |ws| && Reopened(At(ws, i, t))
    ensures k < i && ReopenedAt(ws, acts, k, t) && Untouched(ws, k, i, t)
  {
    StartsClosed(ws, acts, t);
    ReopenedStep(ws, acts, i - 1, t);
    if ReopenedAt(ws, acts, i - 1, t) {
      k := i - 1;
      UntouchedOnce(ws, i - 1, t);
    } else {
      k := ReopenedSince(ws, acts, i - 1, t);
      UntouchedStep(ws, k, i - 1, t);
    }
  }

  lemma UntouchedOnce(ws: seq<Workspace>, i: nat, t: Tag)
    requires i < |ws| - 1 && !At(ws, i, t).claim && !At(ws, i + 1, t).claim
    requires At(ws, i, t).written == At(ws, i + 1, t).written
    ensures Untouched(ws, i, i + 1, t)
  {}

  lemma UntouchedStep(ws: seq<Workspace>, k: nat, i: nat, t: Tag)
    requires k <= i < |ws| - 1 && Untouched(ws, k, i, t)
    requires !At(ws, i + 1, t).claim && At(ws, i, t).written == At(ws, i + 1, t).written
    ensures Untouched(ws, k, i + 1, t)
  {}

  lemma StartsClosed(ws: seq<Workspace>, acts: seq<Action>, t: Tag)
    requires IsRun(ws, acts)
    ensures !Reopened(At(ws, 0, t))
  {
    assert ws[0].slots[t] == FRESH;
  }

  /** Without a result being written none appears. */
  lemma EmptyStays(plan: Option<Plan>, tag: Tag, s: Slot, ev: Event)
    requires Enabled(s, ev) && s.result.None?
    ensures var d := Apply(plan, tag, s, ev); d.result.None? || d.written == s.written + 1
  {
    if ev.Continue? { assert Advance(plan, tag, s).result.None? || s.op.RecordJudged?; }
  }

  lemma EmptyStep(ws: seq<Workspace>, acts: seq<Action>, i: nat, t: Tag)
    requires IsRun(ws, acts) && i < |acts| && At(ws, i, t).result.None?
      && At(ws, i + 1, t).written == At(ws, i, t).written
    ensures At(ws, i + 1, t).result.None?
  {
    var plan := RoleStep(ws, acts, i, t);
    var ev := EventOn(acts[i], t);
    if ev.Some? { EmptyStays(plan, t, At(ws, i, t), ev.value); }
  }

  lemma {:induction false} StaysEmpty(ws: seq<Workspace>, acts: seq<Action>, k: nat, i: nat, t: Tag)
    requires IsRun(ws, acts) && k <= i < |ws| && At(ws, k, t).result.None? && Untouched(ws, k, i, t)
    ensures At(ws, i, t).result.None?
    decreases i
  {
    if i > k {
      StaysEmpty(ws, acts, k, i - 1, t);
      EmptyStep(ws, acts, i - 1, t);
    }
  }

  /**
   * Exactly when a further result can be written: in every run, a role with no call in flight
   * that had a result written since its last completed issue or preparation takes another one
   * from the next record call if and only if an exception stopped an issue after the claim was
   * gone, and no call has taken the claim since.
   */
  lemma FurtherResultIff(ws: seq<Workspace>, acts: seq<Action>, i: nat, t: Tag, a: Attempt)
    requires IsRun(ws, acts) && i < |ws| && Free(At(ws, i, t)) && At(ws, i, t).written >= 1
    ensures Recorded(ws[i].plan, t, At(ws, i, t), a).written == At(ws, i, t).written + 1
       <==> exists k: nat :: k < i && ReopenedAt(ws, acts, k, t) && Untouched(ws, k, i, t)
  {
    var s := At(ws, i, t);
    if s.result.None? && !s.claim { var k := ReopenedSince(ws, acts, i, t); }
    if k: nat :| k < i && ReopenedAt(ws, acts, k, t) && Untouched(ws, k, i, t) {
      var plan := RoleStep(ws, acts, k, t);
      StaysEmpty(ws, acts, k, i, t);
      assert !At(ws, i, t).claim;
    }
  }

  /** Writing a result closes the role for further ones. */
  lemma WritingCloses(plan: Option<Plan>, tag: Tag, s: Slot)
    requires s.op.RecordJudged?
    ensures Advance(plan, tag, s).written == s.written + 1 && Token(Advance(plan, tag, s)) == 0
  {}

  lemma StaysClosed(plan: Option<Plan>, tag: Tag, s: Slot, ev: Event)
    requires Inv(s) && Enabled(s, ev) && Token(s) == 0 && s.written >= 1 && !(ev.Raise? && Reopens(s))
    ensures var d := Apply(plan, tag, s, ev); d.written == 0 || (d.written == s.written && Token(d) == 0)
  {
    if ev.Continue? { AdvanceStaysClosed(plan, tag, s); }
  }

  lemma AdvanceStaysClosed(plan: Option<Plan>, tag: Tag, s: Slot)
    requires Inv(s) && Token(s) == 0 && s.written >= 1
    ensures var d := Advance(plan, tag, s); d.written == 0 || (d.written == s.written && Token(d) == 0)
  {
    if Removing(s.op) { RemovingStaysClosed(plan, tag, s); }
  }

  lemma RemovingStaysClosed(plan: Option<Plan>, tag: Tag, s: Slot)
    requires Removing(s.op)
    ensures var d := Advance(plan, tag, s); d.written == 0 || (d.written == s.written && Token(d) == 0)
  {}

  /** No issue completes and nothing is prepared from step i to step j. */
  ghost predicate NoReset(ws: seq<Workspace>, i: nat, j: nat, t: Tag)
    requires i <= j < |ws|
  {
    forall m :: i <= m <= j ==> At(ws, m, t).written >= 1
  }

  /**
   * Between two results of a run without a completed issue or preparation in between, an
   * exception stopped an issue with result and claim gone.
   */
  lemma {:induction false} NoReopeningNoResult(ws: seq<Workspace>, acts: seq<Action>, i: nat, j: nat, t: Tag)
    requires IsRun(ws, acts) && i <= j < |ws| && NoReset(ws, i, j, t) && Token(At(ws, i, t)) == 0
    requires forall k: nat :: i <= k < j ==> !ReopenedAt(ws, acts, k, t)
    ensures At(ws, j, t).written == At(ws, i, t).written && Token(At(ws, j, t)) == 0
    decreases j
  {
    if i < j {
      NoReopeningNoResult(ws, acts, i, j - 1, t);
      assert At(ws, j - 1, t).written >= 1 && At(ws, j, t).written >= 1;
      ClosedStep(ws, acts, j - 1, t);
    }
  }

  lemma ClosedStep(ws: seq<Workspace>, acts: seq<Action>, i: nat, t: Tag)
    requires IsRun(ws, acts) && i < |acts| && !ReopenedAt(ws, acts, i, t)
    requires Token(At(ws, i, t)) == 0 && At(ws, i, t).written >= 1 && At(ws, i + 1, t).written >= 1
    ensures At(ws, i + 1, t).written == At(ws, i, t).written && Token(At(ws, i + 1, t)) == 0
  {
    var plan := RoleStep(ws, acts, i, t);
    var ev := EventOn(acts[i], t);
    if ev.Some? { StaysClosed(plan, t, At(ws, i, t), ev.value); }
  }

  // ---- failures that cannot be undone ----------------------------------------------------------

  /** A terminal failure is on file, or a record call came on top of a valid result. */
  predicate Poisoned(s: Slot)
  {
    s.terminal || (s.result.Some? && (HasTerminal(s.result.value) || (s.result.value.valid && s.duplicate)))
  }

  lemma PoisonIsKept(plan: Option<Plan>, tag: Tag, s: Slot, ev: Event)
    requires Inv(s) && Poisoned(s) && Enabled(s, ev) && !ev.Prepare?
    ensures Poisoned(Apply(plan, tag, s, ev))
  {
    if ev.Continue? { AdvanceKeepsPoison(plan, tag, s); }
  }

  lemma AdvanceKeepsPoison(plan: Option<Plan>, tag: Tag, s: Slot)
    requires Inv(s) && Poisoned(s)
    ensures Poisoned(Advance(plan, tag, s))
  {}

  /** Recording a terminal failure poisons the role. */
  lemma TerminalResultPoisons(plan: Option<Plan>, tag: Tag, s: Slot)
    requires s.op.RecordJudged? && HasTerminal(s.op.result)
    ensures Poisoned(Advance(plan, tag, s))
  {}

  /** An undisturbed record call on top of a valid result poisons the role, with or without the lock. */
  lemma RepeatedRecordPoisons(plan: Option<Plan>, tag: Tag, s: Slot, a: Attempt)
    requires s.result.Some? && s.result.value.valid
    ensures s.lock ==> Poisoned(Apply(plan, tag, Apply(plan, tag, s, BeginRecord(a)), FlagRefused))
    ensures Poisoned(Recorded(plan, tag, s, a))
  {}

  /** Stopped before its flag, such a call leaves the role as it was, or only its lock behind. */
  lemma StoppedRepeatStillPasses(plan: Plan, tag: Tag, s: Slot, a: Attempt)
    requires Free(s) && Passes(plan, tag, s) && s.result.Some?
    ensures var begun := Apply(Some(plan), tag, s, BeginRecord(a));
            && Apply(Some(plan), tag, begun, Raise) == s
            && Passes(plan, tag, Apply(Some(plan), tag, begun, Kill))
    ensures var busy := s.(lock := true);
            Apply(Some(plan), tag, Apply(Some(plan), tag, busy, BeginRecord(a)), DropRefused) == busy
  {}

  /** Step k writes the flag of a record call that came too late. */
  ghost predicate FlagWritten(ws: seq<Workspace>, acts: seq<Action>, k: nat, t: Tag)
  {
    k < |acts| && k < |ws| && EventOn(acts[k], t).Some? && WritesFlag(At(ws, k, t), EventOn(acts[k], t).value)
  }

  predicate WritesFlag(s: Slot, ev: Event) { ev.FlagRefused? || (ev.Continue? && s.op.RecordRepeated?) }

  lemma FlagStep(plan: Option<Plan>, tag: Tag, s: Slot, ev: Event)
    requires Inv(s) && Enabled(s, ev) && !ev.Prepare? && s.result.Some? && s.result.value.valid
    ensures Apply(plan, tag, s, ev).result == s.result
    ensures Poisoned(Apply(plan, tag, s, ev)) <==> Poisoned(s) || WritesFlag(s, ev)
  {
    if ev.Continue? { AdvanceFlags(plan, tag, s); }
  }

  lemma AdvanceFlags(plan: Option<Plan>, tag: Tag, s: Slot)
    requires Inv(s) && s.result.Some? && s.result.value.valid
    ensures var d := Advance(plan, tag, s);
      d.result == s.result && d.terminal == s.terminal && d.duplicate == (s.duplicate || s.op.RecordRepeated?)
  {}

  lemma RunFlagStep(ws: seq<Workspace>, acts: seq<Action>, i: nat, t: Tag)
    requires IsRun(ws, acts) && i < |acts| && !acts[i].PrepareAll?
    requires At(ws, i, t).result.Some? && At(ws, i, t).result.value.valid
    ensures At(ws, i + 1, t).result == At(ws, i, t).result
    ensures Poisoned(At(ws, i + 1, t)) <==> Poisoned(At(ws, i, t)) || FlagWritten(ws, acts, i, t)
  {
    var plan := RoleStep(ws, acts, i, t);
    var ev := EventOn(acts[i], t);
    if ev.Some? { FlagStep(plan, t, At(ws, i, t), ev.value); }
  }

  /**
   * Exactly when a valid result is lost: in every run, from a valid result on and until the
   * next preparation, the role becomes poisoned if and only if some late record call gets to
   * write its flag.
   */
  lemma {:induction false} PoisonedIffFlagWritten(ws: seq<Workspace>, acts: seq<Action>, i: nat, j: nat, t: Tag)
    requires IsRun(ws, acts) && i <= j < |ws| && forall k :: i <= k < j ==> !acts[k].PrepareAll?
    requires var s := At(ws, i, t); s.result.Some? && s.result.value.valid && !Poisoned(s)
    ensures At(ws, j, t).result == At(ws, i, t).result
    ensures Poisoned(At(ws, j, t)) <==> exists k: nat :: i <= k < j && FlagWritten(ws, acts, k, t)
    decreases j
  {
    if i < j {
      PoisonedIffFlagWritten(ws, acts, i, j - 1, t);
      RunFlagStep(ws, acts, j - 1, t);
    }
  }

  /**
   * Absorbing: from the moment a role is poisoned, every aggregation is blocked until the next
   * preparation, whatever is issued, recorded, raised or killed in between.
   */
  lemma {:induction false} PoisonBlocksUntilPrepared(ws: seq<Workspace>, acts: seq<Action>, i: nat, j: nat, t: Tag)
    requires IsRun(ws, acts) && i <= j < |ws| && Poisoned(At(ws, i, t))
    requires forall k :: i <= k < j ==> !acts[k].PrepareAll?
    ensures Poisoned(At(ws, j, t)) && Aggregate(ws[j]) == Blocked
    decreases j
  {
    if i < j {
      PoisonBlocksUntilPrepared(ws, acts, i, j - 1, t);
      PoisonStep(ws, acts, j - 1, t);
    }
    PoisonedDoesNotPass(ws[j], t);
  }

  lemma PoisonStep(ws: seq<Workspace>, acts: seq<Action>, i: nat, t: Tag)
    requires IsRun(ws, acts) && i < |acts| && Poisoned(At(ws, i, t)) && !acts[i].PrepareAll?
    ensures Poisoned(At(ws, i + 1, t))
  {
    var plan := RoleStep(ws, acts, i, t);
    var ev := EventOn(acts[i], t);
    if ev.Some? { PoisonIsKept(plan, t, At(ws, i, t), ev.value); }
  }

  lemma PoisonedDoesNotPass(w: Workspace, t: Tag)
    requires AllTags(w.slots) && Poisoned(w.slots[t])
    ensures Aggregate(w) == Blocked
  {
    if w.plan.Some? { assert !Passes(w.plan.value, t, w.slots[t]); }
  }

  // ---- whole operations ---------------------------------------------------------------------------

  /** The files after an uninterrupted `issue` that got the lock. */
  function Issued(plan: Option<Plan>, tag: Tag, s: Slot, n: Nonce): Slot
  {
    var t := s.(used := s.used + {n});
    if plan.None? || !plan.value.inputComplete || tag !in plan.value.required then t
    else if s.result.None? then Replaced(t, plan.value, n)
    else if s.result.value.valid || |s.history| >= MAX_HISTORY then t
    else
      Replaced(t.(history := s.history + [s.result.value], terminal := s.terminal || HasTerminal(s.result.value)),
               plan.value, n)
  }

  function Replaced(s: Slot, p: Plan, n: Nonce): Slot
  {
    s.(result := None, claim := false, duplicate := false, request := Some(Receipt(p, n)),
       written := 0, reopened := 0, retired := Retire(s))
  }

  /** The files after an uninterrupted `record` that got the lock. */
  function Recorded(plan: Option<Plan>, tag: Tag, s: Slot, a: Attempt): Slot
  {
    if s.claim then s.(duplicate := true)
    else if s.result.Some? then s.(claim := true, duplicate := true)
    else s.(claim := true, result := Some(Judge(plan, s.request, tag, a)), written := s.written + 1)
  }

  /** The call is for a required role of a complete plan, with the nonce of its request for that plan. */
  ghost predicate Current(plan: Option<Plan>, tag: Tag, request: Option<Receipt>, a: Attempt)
  {
    && plan.Some? && plan.value.inputComplete && tag in plan.value.required
    && request == Some(Receipt(plan.value, a.nonce))
  }

  /** Exactly such a call, with exit code 0, nothing to diagnose and a response that validates, is recorded as valid. */
  lemma RecordedIsValidIff(plan: Option<Plan>, tag: Tag, s: Slot, a: Attempt)
    requires !s.claim && s.result.None?
    ensures var r := Recorded(plan, tag, s, a).result;
      && r.Some? && (r.value.valid <==> Current(plan, tag, s.request, a) && a.exitOk && a.stderrReadable
                                        && a.diagnostic.None? && a.response.Some?)
      && (r.value.valid ==> r.value.codes == [] && r.value.receipt == s.request && r.value.response == a.response)
      && (!r.value.valid ==> r.value.codes != [] && r.value.response.None?)
  {}

  /** The diagnostic is one of the four that end the role's attempts. */
  ghost predicate ShowsTerminal(a: Attempt)
  {
    a.diagnostic in {Some(ModelSelection), Some(ModelFallback), Some(Quota), Some(AgentPreflight)}
  }

  /** The codes of a call that is not current: the first obstacle met. */
  lemma RefusedCodes(plan: Option<Plan>, tag: Tag, s: Slot, a: Attempt)
    requires !s.claim && s.result.None? && !Current(plan, tag, s.request, a)
    ensures var known := plan.Some? && s.request.Some? && s.request.value.plan == plan.value;
      var named := known && a.nonce == s.request.value.nonce;
      Recorded(plan, tag, s, a).result.value.codes ==
        [if plan.None? then InvalidPlan
         else if !known then InvalidIssuedRequest
         else if !named then InvalidInvocationNonce
         else if !plan.value.inputComplete then PlanInputIncomplete
         else InactiveRole]
  {}

  /** The codes of a current call: a failed exit first, then what was found in its output. */
  lemma CurrentCodes(plan: Option<Plan>, tag: Tag, s: Slot, a: Attempt)
    requires !s.claim && s.result.None? && Current(plan, tag, s.request, a)
    ensures var codes := Recorded(plan, tag, s, a).result.value.codes;
      var exit := if a.exitOk then [] else [CliNonzeroExit];
      && exit <= codes
      && (!a.stderrReadable ==> codes == exit + [InputUnavailable])
      && (a.stderrReadable && a.diagnostic.Some? ==> codes == exit + [a.diagnostic.value])
      && (a.stderrReadable && a.diagnostic.None? && a.exitOk ==>
            codes == if a.response.None? then [ResponseRejected] else [])
  {}

  /** A terminal failure is recorded exactly when a current call has readable error output that shows one. */
  lemma RecordedIsTerminalIff(plan: Option<Plan>, tag: Tag, s: Slot, a: Attempt)
    requires !s.claim && s.result.None?
    ensures HasTerminal(Recorded(plan, tag, s, a).result.value)
       <==> Current(plan, tag, s.request, a) && a.stderrReadable && ShowsTerminal(a)
  {
    var r := Recorded(plan, tag, s, a).result.value;
    var exit := if a.exitOk then [] else [CliNonzeroExit];
    if Current(plan, tag, s.request, a) && a.stderrReadable && a.diagnostic.Some? {
      assert r.codes == exit + [a.diagnostic.value];
      assert r.codes[|exit|] == a.diagnostic.value;
    }
  }

  /** So a current attempt with a terminal diagnostic blocks every aggregation until the next preparation. */
  lemma TerminalAttemptBlocks(
      ws: seq<Workspace>, acts: seq<Action>, i: nat, j: nat, t: Tag, plan: Option<Plan>, s: Slot, a: Attempt)
    requires IsRun(ws, acts) && i <= j < |ws| && forall k :: i <= k < j ==> !acts[k].PrepareAll?
    requires !s.claim && s.result.None? && At(ws, i, t) == Recorded(plan, t, s, a)
    requires Current(plan, t, s.request, a) && a.stderrReadable && ShowsTerminal(a)
    ensures Aggregate(ws[j]) == Blocked
  {
    RecordedIsTerminalIff(plan, t, s, a);
    PoisonBlocksUntilPrepared(ws, acts, i, j, t);
  }

  /** Runs the operation in flight, undisturbed, for so many file operations or to its end. */
  function Finish(plan: Option<Plan>, tag: Tag, s: Slot, steps: nat): Slot
    decreases steps
  {
    if steps == 0 || s.op.Idle? then s else Finish(plan, tag, Advance(plan, tag, s), steps - 1)
  }

  predicate Free(s: Slot) { !s.lock && s.op.Idle? }

  lemma OneStep(plan: Option<Plan>, tag: Tag, s: Slot, next: Slot, steps: nat)
    requires !s.op.Idle? && steps > 0 && next == Advance(plan, tag, s)
    ensures Finish(plan, tag, s, steps) == Finish(plan, tag, next, steps - 1)
  {}

  lemma FinishReleasing(plan: Option<Plan>, tag: Tag, s: Slot, steps: nat)
    requires s.op.Finishing? && steps >= 1
    ensures Finish(plan, tag, s, steps) == s.(lock := false, op := Idle)
  {}

  lemma FinishReplacing(plan: Option<Plan>, tag: Tag, s: Slot, steps: nat)
    requires s.op.IssueSaved? && steps >= 5
    ensures Finish(plan, tag, s, steps) == Replaced(s, s.op.plan, s.op.nonce).(lock := false, op := Idle)
  {
    var p, n := s.op.plan, s.op.nonce;
    var s1 := s.(result := None, op := IssueResultRemoved(n, p));
    var s2 := s1.(claim := false, op := IssueClaimRemoved(n, p));
    var s3 := s2.(duplicate := false, op := IssueFlagRemoved(n, p));
    OneStep(plan, tag, s, s1, steps);
    OneStep(plan, tag, s1, s2, steps - 1);
    OneStep(plan, tag, s2, s3, steps - 2);
    OneStep(plan, tag, s3, Replaced(s, p, n).(op := Finishing), steps - 3);
    FinishReleasing(plan, tag, Replaced(s, p, n).(op := Finishing), steps - 4);
  }

  /** The file operations of an undisturbed `issue` add up to `Issued`. */
  lemma IssueAddsUp(plan: Option<Plan>, tag: Tag, s: Slot, n: Nonce, steps: nat)
    requires Free(s) && n !in s.used && steps >= 9
    ensures Finish(plan, tag, Apply(plan, tag, s, BeginIssue(n)), steps) == Issued(plan, tag, s, n)
  {
    var s0 := s.(lock := true, op := IssueStarted(n), used := s.used + {n});
    if IssueRefused(plan, tag, s) {
      OneStep(plan, tag, s0, s0.(op := Finishing), steps);
      FinishReleasing(plan, tag, s0.(op := Finishing), steps - 1);
    } else if s.result.None? {
      FirstIssueAddsUp(plan, tag, s0, n, steps);
    } else {
      ReissueAddsUp(plan, tag, s0, n, s.result.value, steps);
    }
  }

  predicate IssueRefused(plan: Option<Plan>, tag: Tag, s: Slot)
  {
    plan.None? || !plan.value.inputComplete || tag !in plan.value.required
    || (s.result.Some? && (s.result.value.valid || |s.history| >= MAX_HISTORY))
  }

  lemma FirstIssueAddsUp(plan: Option<Plan>, tag: Tag, s0: Slot, n: Nonce, steps: nat)
    requires s0.op == IssueStarted(n) && steps >= 9 && s0.result.None? && !IssueRefused(plan, tag, s0)
    ensures Finish(plan, tag, s0, steps) == Replaced(s0, plan.value, n).(lock := false, op := Idle)
  {
    var s1 := s0.(op := IssueSaved(n, plan.value));
    OneStep(plan, tag, s0, s1, steps);
    FinishReplacing(plan, tag, s1, steps - 1);
  }

  lemma ReissueAddsUp(plan: Option<Plan>, tag: Tag, s0: Slot, n: Nonce, prior: Result, steps: nat)
    requires s0.op == IssueStarted(n) && steps >= 9 && s0.result == Some(prior)
    requires plan.Some? && plan.value.inputComplete && tag in plan.value.required
    requires !prior.valid && |s0.history| < 32
    ensures var kept := s0.(history := s0.history + [prior], terminal := s0.terminal || HasTerminal(prior));
            Finish(plan, tag, s0, steps) == Replaced(kept, plan.value, n).(lock := false, op := Idle)
  {
    var p, history := plan.value, s0.history + [prior];
    var s1 := s0.(op := IssueLoaded(n, p, prior, history));
    var s2 := s1.(history := history, op := IssueHistoryWritten(n, p, prior));
    var s3 := s2.(terminal := s2.terminal || HasTerminal(prior), op := IssueSaved(n, p));
    OneStep(plan, tag, s0, s1, steps);
    OneStep(plan, tag, s1, s2, steps - 1);
    OneStep(plan, tag, s2, s3, steps - 2);
    FinishReplacing(plan, tag, s3, steps - 3);
  }

  /** The file operations of an undisturbed `record` add up to `Recorded`. */
  lemma RecordAddsUp(plan: Option<Plan>, tag: Tag, s: Slot, a: Attempt, steps: nat)
    requires Free(s) && steps >= 9
    ensures Finish(plan, tag, Apply(plan, tag, s, BeginRecord(a)), steps) == Recorded(plan, tag, s, a)
  {
    var s0 := s.(lock := true, op := RecordStarted(a));
    if s.claim {
      FinishRepeated(plan, tag, s0, s0.(op := RecordRepeated), steps);
    } else {
      var s1 := s0.(claim := true, op := RecordClaimed(a));
      OneStep(plan, tag, s0, s1, steps);
      ClaimedAddsUp(plan, tag, s1, a, steps - 1);
    }
  }

  lemma FinishRepeated(plan: Option<Plan>, tag: Tag, s: Slot, next: Slot, steps: nat)
    requires !s.op.Idle? && steps >= 3 && next == Advance(plan, tag, s) && next.op.RecordRepeated?
    ensures Finish(plan, tag, s, steps) == next.(duplicate := true, lock := false, op := Idle)
  {
    var flagged := next.(duplicate := true, op := Finishing);
    OneStep(plan, tag, s, next, steps);
    OneStep(plan, tag, next, flagged, steps - 1);
    FinishReleasing(plan, tag, flagged, steps - 2);
  }

  lemma ClaimedAddsUp(plan: Option<Plan>, tag: Tag, s1: Slot, a: Attempt, steps: nat)
    requires s1.op == RecordClaimed(a) && steps >= 4
    ensures Finish(plan, tag, s1, steps) ==
            (if s1.result.Some? then s1.(duplicate := true)
             else s1.(result := Some(Judge(plan, s1.request, tag, a)), written := s1.written + 1))
               .(lock := false, op := Idle)
  {
    if s1.result.Some? {
      FinishRepeated(plan, tag, s1, s1.(op := RecordRepeated), steps);
    } else {
      var r := Judge(plan, s1.request, tag, a);
      var s2 := s1.(op := RecordChecked(a));
      var s3 := s2.(op := RecordJudged(r));
      var s4 := s3.(result := Some(r), op := Finishing, written := s3.written + 1);
      OneStep(plan, tag, s1, s2, steps);
      OneStep(plan, tag, s2, s3, steps - 1);
      OneStep(plan, tag, s3, s4, steps - 2);
      FinishReleasing(plan, tag, s4, steps - 3);
    }
  }

  /** Nothing is in flight, nothing is poisoned, no result is valid, and the history has room. */
  predicate Reissuable(plan: Plan, tag: Tag, s: Slot)
  {
    && plan.inputComplete && tag in plan.required
    && !s.terminal && |s.history| <= MAX_HISTORY
    && (s.result.Some? ==> !s.result.value.valid && !HasTerminal(s.result.value) && |s.history| < MAX_HISTORY)
  }

  function Good(n: Nonce, r: Response): Attempt { Attempt(n, true, true, None, Some(r)) }

  /**
   * Exactly the roles without a valid result that are not poisoned and have room in their
   * history can still be made to pass by one more issue and one good record.
   */
  lemma CleanAttemptPasses(plan: Plan, tag: Tag, s: Slot, n: Nonce, r: Response)
    requires Inv(s) && Free(s) && n !in s.used && tag in plan.required && plan.inputComplete
    requires s.result.Some? ==> !s.result.value.valid
    ensures Passes(plan, tag, Recorded(Some(plan), tag, Issued(Some(plan), tag, s, n), Good(n, r)))
       <==> !Poisoned(s) && (s.result.Some? ==> |s.history| < 32)
  {}

  // ---- what a preparation leaves ----------------------------------------------------------------------

  /**
   * A preparation installs the plan and removes every file of every role but its lock; an operation
   * in flight goes on.
   */
  lemma PrepareClears(w: Workspace, plan: Option<Plan>, t: Tag)
    requires AllTags(w.slots)
    ensures var w' := Do(w, PrepareAll(plan)); var s, s' := w.slots[t], w'.slots[t];
      && w'.plan == plan && w'.upstream == w.upstream
      && s'.result.None? && s'.request.None? && !s'.claim && s'.history == [] && !s'.duplicate && !s'.terminal
      && s'.written == 0 && s'.reopened == 0
      && s'.lock == s.lock && s'.op == s.op && s'.refused == s.refused && s'.used == s.used
      && (s.request.Some? ==> s.request.value.nonce in s'.retired) && s.retired <= s'.retired
  {}

  /** Right after a preparation nothing passes but a complete plan without required roles. */
  lemma PreparedMode(w: Workspace, plan: Option<Plan>)
    requires AllTags(w.slots)
    ensures Aggregate(Do(w, PrepareAll(plan)))
         == if plan.Some? && plan.value.inputComplete && !w.upstream && plan.value.required == {} then Deterministic
            else Blocked
  {
    var w' := Do(w, PrepareAll(plan));
    AggregateMode(w');
    forall t: Tag
      ensures w'.slots[t].result.None?
      ensures plan.Some? ==> (Passes(plan.value, t, w'.slots[t]) <==> t !in plan.value.required)
    {
      PrepareClears(w, plan, t);
    }
    if plan.Some? && plan.value.required != {} {
      var t :| t in plan.value.required;
      assert !Passes(plan.value, t, w'.slots[t]);
    }
  }

  /** A flag of another origin blocks while it is there, and changes nothing else. */
  lemma UpstreamBlocks(w: Workspace, present: bool)
    requires AllTags(w.slots)
    ensures var w' := Do(w, SetUpstream(present));
      w'.plan == w.plan && w'.slots == w.slots && (if present then Aggregate(w') == Blocked else !w'.upstream)
  {}

  /** The empty workspace of a run: no file of any role. */
  lemma StartsEmpty(ws: seq<Workspace>, acts: seq<Action>, t: Tag)
    requires IsRun(ws, acts)
    ensures var s := ws[0].slots[t];
      && !s.lock && s.op.Idle? && !s.claim && s.result.None? && s.request.None? && s.history == []
      && !s.duplicate && !s.terminal && s.refused == 0 && s.used == {}
  {}

  // ---- what an interrupted operation leaves behind ----------------------------------------------------

  /** An issue that is stopped by an exception after the claim is gone but before the receipt is written. */
  function CutIssue(plan: Plan, s: Slot, n: Nonce): Slot
    requires s.result.Some?
  {
    s.(used := s.used + {n}, history := s.history + [s.result.value], result := None, claim := false,
       duplicate := false, reopened := s.reopened + 1)
  }

  /** Six file operations into a reissue, an exception leaves the files in that state. */
  lemma CutIssueHappens(plan: Plan, tag: Tag, s: Slot, n: Nonce, steps: nat)
    requires Free(s) && n !in s.used && plan.inputComplete && tag in plan.required && steps == 6
    requires s.result.Some? && !s.result.value.valid && |s.history| < 32
      && (HasTerminal(s.result.value) ==> s.terminal)
    ensures var started := Finish(Some(plan), tag, Apply(Some(plan), tag, s, BeginIssue(n)), steps);
            Enabled(started, Raise) && Apply(Some(plan), tag, started, Raise) == CutIssue(plan, s, n)
  {
    var p, prior := Some(plan), s.result.value;
    var s0 := s.(lock := true, op := IssueStarted(n), used := s.used + {n});
    var s1 := s0.(op := IssueLoaded(n, plan, prior, s.history + [prior]));
    var s2 := s1.(history := s.history + [prior], op := IssueHistoryWritten(n, plan, prior));
    var s3 := s2.(op := IssueSaved(n, plan));
    var s4 := s3.(result := None, op := IssueResultRemoved(n, plan));
    var s5 := s4.(claim := false, op := IssueClaimRemoved(n, plan));
    var s6 := s5.(duplicate := false, op := IssueFlagRemoved(n, plan));
    OneStep(p, tag, s0, s1, steps);
    OneStep(p, tag, s1, s2, steps - 1);
    OneStep(p, tag, s2, s3, steps - 2);
    OneStep(p, tag, s3, s4, steps - 3);
    OneStep(p, tag, s4, s5, steps - 4);
    OneStep(p, tag, s5, s6, steps - 5);
  }

  /**
   * "One result per issued nonce" fails exactly there: for every failed, non-terminal attempt,
   * an issue interrupted in that window lets a second record with the same old nonce be
   * written, be judged valid and make the role pass.
   */
  lemma CutIssueReopensTheNonce(plan: Plan, tag: Tag, s: Slot, n: Nonce, r: Response)
    requires Inv(s) && Free(s) && Reissuable(plan, tag, s) && n !in s.used
    requires s.result.Some? && s.request.Some? && s.request.value.plan == plan
    ensures var again := Recorded(Some(plan), tag, CutIssue(plan, s, n), Good(s.request.value.nonce, r));
            Passes(plan, tag, again) && again.request == s.request && again.written == s.written + 1 >= 2
  {}

  /** A killed operation leaves its lock: nothing is in flight and nothing can start. */
  predicate Wedged(s: Slot) { s.lock && s.op.Idle? }

  /**
   * A wedged role stays wedged through every later preparation, and once one has removed its
   * result it never gets another: as long as the role is required, aggregation stays blocked.
   */
  lemma {:induction false} WedgedForever(ws: seq<Workspace>, acts: seq<Action>, i: nat, j: nat, t: Tag)
    requires IsRun(ws, acts) && i <= j < |ws| && Wedged(At(ws, i, t)) && At(ws, i, t).result.None?
    ensures Wedged(At(ws, j, t)) && At(ws, j, t).result.None?
    ensures ws[j].plan.Some? && t in ws[j].plan.value.required ==> Aggregate(ws[j]) == Blocked
    decreases j
  {
    if i < j {
      WedgedForever(ws, acts, i, j - 1, t);
      WedgedStep(ws, acts, j - 1, t);
    }
    if ws[j].plan.Some? && t in ws[j].plan.value.required { assert !Passes(ws[j].plan.value, t, ws[j].slots[t]); }
  }

  lemma WedgedStep(ws: seq<Workspace>, acts: seq<Action>, i: nat, t: Tag)
    requires IsRun(ws, acts) && i < |acts| && Wedged(At(ws, i, t)) && At(ws, i, t).result.None?
    ensures Wedged(At(ws, i + 1, t)) && At(ws, i + 1, t).result.None?
  {
    var plan := RoleStep(ws, acts, i, t);
  }

  lemma KillThenPrepareWedges(plan: Option<Plan>, tag: Tag, s: Slot)
    requires Inv(s) && !s.op.Idle?
    ensures var w := Apply(plan, tag, Apply(plan, tag, s, Kill), Prepare); Wedged(w) && w.result.None?
  {}

  // ---- the files as an object ----------------------------------------------------------------------------

  class RoleFiles {
    const tag: Tag
    var lock: bool
    var claim: bool
    var result: Option<Result>
    var request: Option<Receipt>
    var history: seq<Result>
    var duplicate: bool
    var terminal: bool
    ghost var written: nat
    ghost var refused: nat
    ghost var reopened: nat
    ghost var used: set<Nonce>
    ghost var retired: set<Nonce>

    constructor (tag: Tag)
      ensures this.tag == tag && View() == FRESH
    {
      this.tag := tag;
      lock, claim, result, request, history, duplicate, terminal := false, false, None, None, [], false, false;
      refused, written, reopened, used, retired := 0, 0, 0, {}, {};
    }

    ghost function View(): Slot
      reads this
    {
      Slot(lock, Idle, claim, result, request, history, duplicate, terminal, refused, written, reopened, used, retired)
    }

    /** `issue`: returns whether a request was issued; None stands for the raised error. */
    method IssueRequest(plan: Option<Plan>, nonce: Nonce) returns (issued: bool)
      requires nonce !in used
      modifies this
      ensures View() == if old(lock) then old(View()) else Issued(plan, tag, old(View()), nonce)
      ensures issued ==> plan.Some? && request == Some(Receipt(plan.value, nonce))
      ensures issued <==> !old(lock) && plan.Some? && plan.value.inputComplete && tag in plan.value.required
                          && (old(result).Some? ==> !old(result).value.valid && |old(history)| < 32)
    {
      if lock { return false; }
      lock := true;
      used := used + {nonce};
      issued := plan.Some? && plan.value.inputComplete && tag in plan.value.required;
      if issued && result.Some? { issued := KeepPrior(result.value); }
      if issued { Replace(plan.value, nonce); }
      lock := false;
    }

    /** A failed result joins the history, unless it is valid or the history is full. */
    method KeepPrior(prior: Result) returns (kept: bool)
      requires result == Some(prior)
      modifies this`history, this`terminal
      ensures kept <==> !prior.valid && |old(history)| < MAX_HISTORY
      ensures history == if kept then old(history) + [prior] else old(history)
      ensures terminal == (old(terminal) || (kept && HasTerminal(prior)))
    {
      if prior.valid || |history| >= MAX_HISTORY { return false; }
      history := history + [prior];
      if HasTerminal(prior) { terminal := true; }
      kept := true;
    }

    /** The removals of an issue, then its new receipt. */
    method Replace(plan: Plan, nonce: Nonce)
      modifies this
      ensures View() == Replaced(old(View()), plan, nonce)
    {
      retired := if request.Some? then retired + {request.value.nonce} else retired;
      result := None;
      claim := false;
      duplicate := false;
      request := Some(Receipt(plan, nonce));
      written, reopened := 0, 0;
    }

    /** `record`: returns whether the recorded result is valid. */
    method Record(plan: Option<Plan>, a: Attempt) returns (valid: bool)
      modifies this
      ensures View() == if old(lock) then old(View()).(duplicate := true) else Recorded(plan, tag, old(View()), a)
      ensures valid <==> !old(lock) && !old(claim) && old(result).None? && Current(plan, tag, old(request), a)
                         && a.exitOk && a.stderrReadable && a.diagnostic.None? && a.response.Some?
    {
      ghost var files := View();
      if lock {
        duplicate := true;
        return false;
      }
      lock := true;
      if claim {
        duplicate := true;
        lock := false;
        return false;
      }
      claim := true;
      if result.Some? {
        duplicate := true;
        lock := false;
        return false;
      }
      RecordedIsValidIff(plan, tag, files, a);
      result := Some(Judge(plan, request, tag, a));
      written := written + 1;
      lock := false;
      valid := result.value.valid;
    }

    /** What `prepare` does to the files of this role. */
    method Invalidate()
      modifies this
      ensures View() == Apply(None, tag, old(View()), Prepare)
    {
      retired := if request.Some? then retired + {request.value.nonce} else retired;
      result, request := None, None;
      claim, duplicate := false, false;
      history := [];
      terminal := false;
      written, reopened := 0, 0;
    }
  }
}
