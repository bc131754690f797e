/**
 What a takeover does to automatic sends: what it leaves in the outbox, which
 sends can still reach the transport afterwards, and which later step can make
 a stale row live again.
*/
module SendFencing {
  import opened Wrappers
  import opened Ownership
  import opened OwnershipRuns

  // ----- the takeover transaction ------------------------------------------------------

  predicate FencedOn(row: Row, scope: string) {
    row.fence.Some? && row.fence.value.scope == scope
  }

  /**
   A takeover settles every live row of its scope: one waiting is cancelled, the outcome of one in flight is
   unknown, each with the delivery event that says so and without a lease; and it leaves every other row and
   every other scope's owner as they were.
  */
  lemma TakeoverSettlesRows(t: Tables, scope: string, conversation: string, now: int)
    requires Takeover(t, scope, conversation, now).Ok?
    requires Inv(t)
    ensures
      var t' := Takeover(t, scope, conversation, now).value;
      && t'.outbox.Keys == t.outbox.Keys
      && (forall other :: other != scope && other in t.owners ==> other in t'.owners && t'.owners[other] == t.owners[other])
      && forall id :: id in t.outbox ==>
           var row, row' := t.outbox[id], t'.outbox[id];
           if FencedOn(row, scope) && row.status == Pending then
             row' == Row(row.key, row.effect, row.fence, Failed, row.attempts, None,
                         row.timeline + [Delivery("cancelled_by_takeover", now, row.attempts)])
           else if FencedOn(row, scope) && row.status == InFlight then
             row' == Row(row.key, row.effect, row.fence, Unknown, row.attempts, None,
                         row.timeline + [Delivery("takeover_outcome_unknown", now, row.attempts)])
           else row' == row
  {
  }

  // ----- sends after a takeover ---------------------------------------------------------

  /** The scope's generation never falls below what it was, so a stale row stays stale. */
  lemma StaleStaysStale(s: System, steps: seq<Step>, id: nat, scope: string, generation: nat)
    requires Inv(s.tables) && Anchored(s.tables, scope) && generation <= s.tables.owners[scope].generation
    requires StaleOn(Exec(s, steps).tables, id, scope, generation)
    ensures !OwnerAllows(Exec(s, steps).tables, id)
  {
    OwnershipOverRun(s, steps, scope);
  }

  lemma FenceIsFixed(s: System, step: Step, id: nat)
    requires Inv(s.tables) && id in s.tables.outbox
    ensures id in Next(s, step).tables.outbox
    ensures Next(s, step).tables.outbox[id].fence == s.tables.outbox[id].fence
  {
    if !OwnershipStep(step) {
      OtherStepsKeepFences(s, step);
    }
  }

  /** Workers hold rows that exist. */
  ghost predicate WorkersHoldRows(s: System) {
    forall w :: w in s.workers && !s.workers[w].Idle? ==> s.workers[w].id in s.tables.outbox
  }

  lemma WorkersHoldRowsStep(s: System, step: Step)
    requires Inv(s.tables) && WorkersHoldRows(s)
    ensures WorkersHoldRows(Next(s, step))
  {
    forall id | id in s.tables.outbox ensures id in Next(s, step).tables.outbox {
      FenceIsFixed(s, step, id);
    }
  }

  lemma {:induction false} WorkersHoldRowsRun(s: System, steps: seq<Step>)
    requires Inv(s.tables) && WorkersHoldRows(s)
    ensures WorkersHoldRows(Exec(s, steps))
  {
    if steps != [] {
      var before := steps[..|steps| - 1];
      WorkersHoldRowsRun(s, before);
      InvRun(s, before);
      WorkersHoldRowsStep(Exec(s, before), steps[|steps| - 1]);
    }
  }

  /** A stale row is past the owner check after a step only if it was before. */
  lemma CheckedBefore(
      s: System, before: seq<Step>, last: Step, worker: WorkerId, id: nat, scope: string, generation: nat)
    requires Inv(s.tables) && WorkersHoldRows(s)
    requires Anchored(s.tables, scope) && generation <= s.tables.owners[scope].generation
    requires WorkerAt(Next(Exec(s, before), last), worker) == Checked(id)
    requires StaleOn(Next(Exec(s, before), last).tables, id, scope, generation)
    ensures WorkerAt(Exec(s, before), worker) == Checked(id) && StaleOn(Exec(s, before).tables, id, scope, generation)
  {
    var mid := Exec(s, before);
    InvRun(s, before);
    WorkersHoldRowsRun(s, before);
    FenceIsFixed(mid, last, id);
    if WorkerAt(mid, worker) != Checked(id) {
      StaleStaysStale(s, before, id, scope, generation);
      assert false;
    }
  }

  /**
   After a takeover, in every interleaving of every scope's steps: a worker about
   to call the transport for a row of an earlier generation had already passed
   the ownership check when the takeover committed, and has done nothing since.
  */
  lemma OnlyCheckedSendsSurvive(
      s: System, steps: seq<Step>, worker: WorkerId, id: nat, scope: string, generation: nat)
    requires Inv(s.tables) && WorkersHoldRows(s)
    requires Anchored(s.tables, scope) && generation <= s.tables.owners[scope].generation
    requires WorkerAt(Exec(s, steps), worker) == Checked(id)
    requires StaleOn(Exec(s, steps).tables, id, scope, generation)
    ensures forall n :: 0 <= n <= |steps| ==> WorkerAt(Exec(s, steps[..n]), worker) == Checked(id)
  {
    forall n | 0 <= n <= |steps| ensures WorkerAt(Exec(s, steps[..n]), worker) == Checked(id) {
      CheckedAt(s, steps, n, worker, id, scope, generation);
    }
  }

  lemma {:induction false} CheckedAt(
      s: System, steps: seq<Step>, n: nat, worker: WorkerId, id: nat, scope: string, generation: nat)
    requires Inv(s.tables) && WorkersHoldRows(s) && n <= |steps|
    requires Anchored(s.tables, scope) && generation <= s.tables.owners[scope].generation
    requires WorkerAt(Exec(s, steps), worker) == Checked(id)
    requires StaleOn(Exec(s, steps).tables, id, scope, generation)
    ensures WorkerAt(Exec(s, steps[..n]), worker) == Checked(id)
    decreases |steps|
  {
    if n == |steps| {
      assert steps[..n] == steps;
    } else {
      var before := steps[..|steps| - 1];
      CheckedBefore(s, before, steps[|steps| - 1], worker, id, scope, generation);
      CheckedAt(s, before, n, worker, id, scope, generation);
      assert before[..n] == steps[..n];
    }
  }

  /** The fence itself: what a send of a stale row, any time after a takeover, implies. */
  lemma TakeoverFencesSends(
      s: System, conversation: string, now: int, steps: seq<Step>, send: Step, id: nat, scope: string)
    requires Inv(s.tables) && WorkersHoldRows(s) && Anchored(s.tables, scope)
    requires Takeover(s.tables, scope, conversation, now).Ok?
    requires
      var taken := Next(s, TakeOver(scope, conversation, now));
      var t := Exec(taken, steps);
      Sends(t, send, id) && StaleOn(t.tables, id, scope, taken.tables.owners[scope].generation)
    ensures WorkerAt(s, send.worker) == Checked(id)
    ensures forall n :: 0 <= n < |steps| ==> !(steps[n].Send? && steps[n].worker == send.worker)
  {
    var step := TakeOver(scope, conversation, now);
    var taken := Next(s, step);
    InvStep(s, step);
    WorkersHoldRowsStep(s, step);
    OwnershipOverStep(s, step, scope);
    var g := taken.tables.owners[scope].generation;
    OnlyCheckedSendsSurvive(taken, steps, send.worker, id, scope, g);
    assert steps[..0] == [];
    forall n | 0 <= n < |steps|
      ensures !steps[n].Send? || steps[n].worker != send.worker
    {
      ExecUpTo(taken, steps, n);
    }
  }

  // ----- live rows and the ownership they carry ------------------------------------------

  /** Every pending or in-flight automatic send carries its scope's current owner and generation. */
  ghost predicate LiveRowsCurrent(t: Tables) {
    forall id :: id in t.outbox && Live(t.outbox[id].status) ==> OwnerAllows(t, id)
  }

  predicate Retried(t: Tables, id: nat, budget: int) {
    id in t.outbox && t.outbox[id].attempts + 1 < budget
  }

  /** The row the step puts back to pending. */
  function Requeued(s: System, step: Step): Option<nat> {
    var t := s.tables;
    match step
    case Check(w, budget, _) =>
      var worker := WorkerAt(s, w);
      if worker.Claimed? && worker.seen != InFlight && Retried(t, worker.id, budget) && !OwnerAllows(t, worker.id)
      then Some(worker.id) else None
    case Refuse(w, budget, _) =>
      var worker := WorkerAt(s, w);
      if ((worker.Claimed? && worker.seen != InFlight) || worker.Checked?) && Retried(t, worker.id, budget)
      then Some(worker.id) else None
    case Finish(w, budget, _) =>
      var worker := WorkerAt(s, w);
      if worker.Answered? && worker.outcome == NotAccepted && Retried(t, worker.id, budget)
      then Some(worker.id) else None
    case AuthorizeRetry(id, _) => if id in t.outbox && t.outbox[id].status == Unknown then Some(id) else None
    case Redrive(id, _) => if id in t.outbox && t.outbox[id].status == DeadLetter then Some(id) else None
    case _ => None
  }

  /** The step requeues a row whose owner is no longer current. */
  predicate RequeuesStale(s: System, step: Step) {
    var row := Requeued(s, step);
    row.Some? && row.value in s.tables.outbox && !OwnerAllows(s.tables, row.value)
  }

  lemma OwnershipStepKeepsLiveRowsCurrent(s: System, step: Step)
    requires Inv(s.tables) && OwnershipStep(step) && LiveRowsCurrent(s.tables)
    ensures LiveRowsCurrent(Next(s, step).tables)
  {
    var t, t' := s.tables, Next(s, step).tables;
    forall id | id in t'.outbox && Live(t'.outbox[id].status) ensures OwnerAllows(t', id) {
      if id in t.outbox {
        assert OwnerAllows(t, id) by {
          if step.TakeOver? && Changes(s, step, step.scope) {
            TakeoverSettlesRows(t, step.scope, step.conversation, step.now);
          }
        }
      }
    }
  }

  lemma RequeuedIsStale(s: System, step: Step)
    requires Inv(s.tables) && WorkersHoldRows(s) && !OwnershipStep(step) && RequeuesStale(s, step)
    ensures !LiveRowsCurrent(Next(s, step).tables)
  {
    OtherStepsKeepFences(s, step);
    var id, t' := Requeued(s, step).value, Next(s, step).tables;
    assert t'.outbox[id].status == Pending && !OwnerAllows(t', id);
  }

  /** A row made live by the step was put back to pending by it. */
  lemma NewlyLiveIsRequeued(s: System, step: Step, id: nat)
    requires !OwnershipStep(step) && id in s.tables.outbox && id in Next(s, step).tables.outbox
    requires Live(Next(s, step).tables.outbox[id].status)
    ensures Live(s.tables.outbox[id].status) || Requeued(s, step) == Some(id)
  {
  }

  lemma OtherStepsOnLiveRows(s: System, step: Step)
    requires Inv(s.tables) && WorkersHoldRows(s) && !OwnershipStep(step) && LiveRowsCurrent(s.tables)
    ensures LiveRowsCurrent(Next(s, step).tables) <==> !RequeuesStale(s, step)
  {
    var t, t' := s.tables, Next(s, step).tables;
    if RequeuesStale(s, step) {
      RequeuedIsStale(s, step);
    } else {
      OtherStepsKeepFences(s, step);
      forall id | id in t'.outbox && Live(t'.outbox[id].status) ensures OwnerAllows(t', id) {
        NewlyLiveIsRequeued(s, step, id);
      }
    }
  }

  /** Exactly the steps that requeue a stale row break the invariant on live rows. */
  lemma LiveRowsCurrentStep(s: System, step: Step)
    requires Inv(s.tables) && WorkersHoldRows(s) && LiveRowsCurrent(s.tables)
    ensures LiveRowsCurrent(Next(s, step).tables) <==> !RequeuesStale(s, step)
  {
    if OwnershipStep(step) {
      OwnershipStepKeepsLiveRowsCurrent(s, step);
    } else {
      OtherStepsOnLiveRows(s, step);
    }
  }

  /** Over a run from the empty database without such a step, live rows are always current. */
  lemma {:induction false} LiveRowsCurrentRun(steps: seq<Step>)
    requires forall n :: 0 <= n < |steps| ==> !RequeuesStale(Exec(START, steps[..n]), steps[n])
    ensures LiveRowsCurrent(Exec(START, steps).tables)
  {
    if steps != [] {
      var before := steps[..|steps| - 1];
      forall n | 0 <= n < |before| ensures !RequeuesStale(Exec(START, before[..n]), before[n]) {
        assert before[..n] == steps[..n];
      }
      LiveRowsCurrentRun(before);
      InvRun(START, before);
      WorkersHoldRowsRun(START, before);
      LiveRowsCurrentStep(Exec(START, before), steps[|steps| - 1]);
    }
  }

  /**
   The relay reaches such a step by itself: a row claimed before a takeover and
   checked after it is pending again under the old generation.
  */
  lemma TakeoverBetweenClaimAndCheckRequeues(
      s: System, worker: WorkerId, id: nat, conversation: string, budget: int, now: int, later: int)
    requires Inv(s.tables)
    requires WorkerAt(s, worker) == Claimed(id, Pending) && id in s.tables.outbox
    requires s.tables.outbox[id].status == InFlight && s.tables.outbox[id].attempts + 1 < budget
    requires s.tables.outbox[id].fence.Some? && OwnerAllows(s.tables, id)
    requires Takeover(s.tables, s.tables.outbox[id].fence.value.scope, conversation, now).Ok?
    ensures
      var scope := s.tables.outbox[id].fence.value.scope;
      var taken := Next(s, TakeOver(scope, conversation, now));
      var checked := Next(taken, Check(worker, budget, later));
      && taken.tables.outbox[id].status == Unknown
      && checked.tables.outbox[id].status == Pending
      && !OwnerAllows(checked.tables, id)
      && WorkerAt(checked, worker) == Idle
  {
    var scope := s.tables.outbox[id].fence.value.scope;
    var taken := Next(s, TakeOver(scope, conversation, now));
    TakeoverSettlesRows(s.tables, scope, conversation, now);
    OtherStepsKeepFences(taken, Check(worker, budget, later));
  }

  /** A row of an assigned scope, claimed by a worker. */
  function ClaimedRun(scope: string, conversation: string, agent: string): seq<Step> {
    [Assign(scope, conversation, agent, 1), Enqueue("k", "e", Some(Fence(scope, agent, 1)), 2)]
    + [Fetch(0, 0, 3), Lease(0, 4)]
  }

  lemma EnqueuedRun(scope: string, conversation: string, agent: string)
    ensures
      var t := Exec(START, ClaimedRun(scope, conversation, agent)[..2]).tables;
      && t.owners == map[scope := Owner(conversation, Agent, Some(agent), None, 1, 1)] && t.handoffs == map[]
      && t.outbox == map[0 := Row("k", "e", Some(Fence(scope, agent, 1)), Pending, 0, None, [Delivery("enqueued", 2, 0)])]
    ensures Exec(START, ClaimedRun(scope, conversation, agent)[..2]).workers == map[]
  {
    var steps := ClaimedRun(scope, conversation, agent);
    assert Exec(START, steps[..0]) == START;
    ExecUpTo(START, steps, 0);
    ExecUpTo(START, steps, 1);
  }

  lemma ClaimedRunResult(scope: string, conversation: string, agent: string)
    ensures
      var s := Exec(START, ClaimedRun(scope, conversation, agent));
      && WorkerAt(s, 0) == Claimed(0, Pending) && 0 in s.tables.outbox
      && s.tables.outbox[0].status == InFlight && s.tables.outbox[0].attempts == 0
      && s.tables.outbox[0].fence == Some(Fence(scope, agent, 1))
      && OwnerAllows(s.tables, 0) && s.tables.handoffs == map[]
  {
    var steps := ClaimedRun(scope, conversation, agent);
    EnqueuedRun(scope, conversation, agent);
    ExecUpTo(START, steps, 2);
    ExecUpTo(START, steps, 3);
    assert steps[..4] == steps;
  }

  /** From the empty database: such a row is claimed, its scope taken over, its owner checked, and it is pending again. */
  lemma StaleRowIsReachable(scope: string, conversation: string, agent: string, budget: int)
    requires budget > 1
    ensures
      var s := Exec(START, ClaimedRun(scope, conversation, agent));
      var checked := Next(Next(s, TakeOver(scope, conversation, 5)), Check(0, budget, 6));
      0 in checked.tables.outbox && checked.tables.outbox[0].status == Pending && !OwnerAllows(checked.tables, 0)
  {
    ClaimedRunResult(scope, conversation, agent);
    var s := Exec(START, ClaimedRun(scope, conversation, agent));
    InvRun(START, ClaimedRun(scope, conversation, agent));
    ClaimedRowGoesStale(s, scope, conversation, budget);
  }

  lemma ClaimedRowGoesStale(s: System, scope: string, conversation: string, budget: int)
    requires Inv(s.tables) && WorkerAt(s, 0) == Claimed(0, Pending) && 0 in s.tables.outbox && budget > 1
    requires s.tables.outbox[0].status == InFlight && s.tables.outbox[0].attempts == 0
    requires s.tables.outbox[0].fence.Some? && s.tables.outbox[0].fence.value.scope == scope
    requires OwnerAllows(s.tables, 0) && s.tables.handoffs == map[]
    ensures
      var checked := Next(Next(s, TakeOver(scope, conversation, 5)), Check(0, budget, 6));
      0 in checked.tables.outbox && checked.tables.outbox[0].status == Pending && !OwnerAllows(checked.tables, 0)
  {
    TakeoverBetweenClaimAndCheckRequeues(s, 0, 0, conversation, budget, 5, 6);
  }
}
