/**
 Every interleaving of the ownership transactions with the outbox relay and the
 operator's outbox decisions. A run is a list of steps; the environment's
 choices (which step, which worker, what a send reports) are the step's data.

 A worker handles one outbox row of one drain pass: it reads the row, claims it,
 checks its owner, calls the transport, and records the outcome.
*/
module OwnershipRuns {
  import opened Wrappers
  import opened Json
  import opened Ownership

  datatype Outcome = Accepted | NotAccepted | Uncertain

  datatype Worker =
    | Idle
    | Fetched(id: nat, seen: Status)
    | Claimed(id: nat, seen: Status)
    | Checked(id: nat)
    | Answered(id: nat, outcome: Outcome)

  type WorkerId = nat

  datatype System = System(tables: Tables, workers: map<WorkerId, Worker>)

  datatype Step =
    // the ownership store
    | Assign(scope: string, conversation: string, agent: string, now: int)
    | TakeOver(scope: string, conversation: string, now: int)
    | HandBack(scope: string, generation: nat, now: int)
    | Record(scope: string, eventId: string, sequence: int, payload: Json, now: int)
    // admission
    | Enqueue(key: string, effect: string, fence: Option<Fence>, now: int)
    // the relay
    | Fetch(worker: WorkerId, id: nat, now: int)
    | Lease(worker: WorkerId, now: int)
    | Check(worker: WorkerId, budget: int, now: int)
    | Refuse(worker: WorkerId, budget: int, now: int)
    | Send(worker: WorkerId, outcome: Outcome)
    | Finish(worker: WorkerId, budget: int, now: int)
    | Crash(worker: WorkerId)
    // the operator
    | AuthorizeRetry(id: nat, now: int)
    | Redrive(id: nat, now: int)
    | Confirm(id: nat, now: int)

  const START := System(EMPTY, map[])

  function WorkerAt(s: System, w: WorkerId): Worker {
    if w in s.workers then s.workers[w] else Idle
  }

  /** A send the ownership rules bind to the scope under an older generation than `generation`. */
  predicate StaleOn(t: Tables, id: nat, scope: string, generation: nat) {
    && id in t.outbox
    && t.outbox[id].fence.Some?
    && t.outbox[id].fence.value.scope == scope
    && t.outbox[id].fence.value.generation < generation
  }

  predicate OwnerAllows(t: Tables, id: nat)
    requires id in t.outbox
  {
    t.outbox[id].fence.None? || Current(t, t.outbox[id].fence.value)
  }

  ghost function TablesAfter(s: System, step: Step): Tables {
    var t := s.tables;
    match step
    case Assign(scope, conversation, agent, now) => AssignAgent(t, scope, conversation, agent, now)
    case TakeOver(scope, conversation, now) =>
      var r := Takeover(t, scope, conversation, now);
      if r.Ok? then r.value else t
    case HandBack(scope, generation, now) =>
      var r := Handback(t, scope, generation, now);
      if r.Ok? then r.value.tables else t
    case Record(scope, eventId, sequence, payload, now) =>
      RecordAction(t, scope, eventId, sequence, payload, now).0
    case Enqueue(key, effect, fence, now) =>
      var r := Admit(t, key, effect, fence, now);
      if r.Ok? then r.value.0 else t
    case Fetch(_, _, _) => t
    case Lease(w, now) =>
      var worker := WorkerAt(s, w);
      if worker.Fetched? && worker.id in t.outbox then Claim(t, worker.id, now) else t
    case Check(w, budget, now) =>
      var worker := WorkerAt(s, w);
      if !worker.Claimed? || worker.id !in t.outbox then t
      else if worker.seen == InFlight then MarkUnknown(t, worker.id, now)
      else if OwnerAllows(t, worker.id) then t
      else RecordFailure(t, worker.id, budget, now)
    case Refuse(w, budget, now) =>
      var worker := WorkerAt(s, w);
      if ((worker.Claimed? && worker.seen != InFlight) || worker.Checked?) && worker.id in t.outbox
      then RecordFailure(t, worker.id, budget, now) else t
    case Send(_, _) => t
    case Finish(w, budget, now) =>
      var worker := WorkerAt(s, w);
      if !worker.Answered? || worker.id !in t.outbox then t
      else
        (match worker.outcome
         case Accepted => MarkDelivered(t, worker.id, now)
         case NotAccepted => RecordFailure(t, worker.id, budget, now)
         case Uncertain => MarkUnknown(t, worker.id, now))
    case Crash(_) => t
    case AuthorizeRetry(id, now) => Resolve(t, id, Unknown, Pending, "retry_authorized", now)
    case Redrive(id, now) => Resolve(t, id, DeadLetter, Pending, "operator_redrive", now)
    case Confirm(id, now) => Resolve(t, id, Unknown, Delivered, "operator_confirmed_delivered", now)
  }

  /** The step's effect on the worker that takes it. */
  function WorkerAfter(s: System, step: Step): Worker
    requires step.Fetch? || step.Lease? || step.Check? || step.Refuse? || step.Send? || step.Finish? || step.Crash?
  {
    var t, worker := s.tables, WorkerAt(s, step.worker);
    match step
    case Fetch(_, id, now) =>
      if worker.Idle? && id in t.outbox && Claimable(t.outbox[id], now)
      then Fetched(id, t.outbox[id].status) else worker
    case Lease(_, now) =>
      if worker.Fetched? then
        if worker.id in t.outbox && Claimable(t.outbox[worker.id], now) then Claimed(worker.id, worker.seen) else Idle
      else worker
    case Check(_, _, _) =>
      if !worker.Claimed? then worker
      else if worker.id in t.outbox && worker.seen != InFlight && OwnerAllows(t, worker.id) then Checked(worker.id)
      else Idle
    case Refuse(_, _, _) =>
      if (worker.Claimed? && worker.seen != InFlight) || worker.Checked? then Idle else worker
    case Send(_, outcome) => if worker.Checked? then Answered(worker.id, outcome) else worker
    case Finish(_, _, _) => if worker.Answered? then Idle else worker
    case Crash(_) => Idle
  }

  ghost function Next(s: System, step: Step): System {
    System(
      TablesAfter(s, step),
      if step.Fetch? || step.Lease? || step.Check? || step.Refuse? || step.Send? || step.Finish? || step.Crash?
      then s.workers[step.worker := WorkerAfter(s, step)]
      else s.workers)
  }

  ghost function Exec(s: System, steps: seq<Step>): System {
    if steps == [] then s else Next(Exec(s, steps[..|steps| - 1]), steps[|steps| - 1])
  }

  /** A step in which the transport is actually called for a row. */
  predicate Sends(s: System, step: Step, id: nat) {
    step.Send? && WorkerAt(s, step.worker) == Checked(id)
  }

  // ----- invariants -------------------------------------------------------------

  /** The owner table's CHECK constraint and the store's use of the two agent columns. */
  ghost predicate OwnersWellFormed(t: Tables) {
    forall scope :: scope in t.owners ==>
      && (t.owners[scope].kind == Agent <==> t.owners[scope].agent.Some?)
      && (t.owners[scope].agent.Some? ==> t.owners[scope].previous.None?)
      && t.owners[scope].generation >= 1
  }

  /** Admitted rows name the scope's specialist and a generation it has reached. */
  ghost predicate RowsAnchored(t: Tables) {
    forall id :: id in t.outbox ==>
      && id < t.nextId
      && (t.outbox[id].fence.Some? ==>
            var f := t.outbox[id].fence.value;
            && Anchored(t, f.scope)
            && Specialist(t.owners[f.scope]) == Some(f.agent)
            && f.generation <= t.owners[f.scope].generation)
  }

  /** Every generation the Controller ever held is marked by its takeover event. */
  ghost predicate TakeoversLogged(t: Tables) {
    && (forall scope :: scope in t.owners && t.owners[scope].kind == Controller ==>
          TakeoverKey(scope, t.owners[scope].generation) in t.handoffs)
    && (forall key :: key in t.handoffs && t.handoffs[key].kind == OperatorAction ==>
          TakeoverKey(key.scope, key.generation) in t.handoffs && t.handoffs[key].sequence.Some?)
  }

  ghost predicate Inv(t: Tables) {
    OwnersWellFormed(t) && RowsAnchored(t) && TakeoversLogged(t)
  }

  /** Relay and operator steps move a row's status and timeline, never what it is fenced by. */
  ghost predicate SameFences(before: Tables, after: Tables) {
    && after.owners == before.owners
    && after.handoffs == before.handoffs
    && after.nextId == before.nextId
    && after.outbox.Keys == before.outbox.Keys
    && forall id :: id in before.outbox ==> after.outbox[id].fence == before.outbox[id].fence
  }

  predicate OwnershipStep(step: Step) {
    step.Assign? || step.TakeOver? || step.HandBack? || step.Record? || step.Enqueue?
  }

  lemma OtherStepsKeepFences(s: System, step: Step)
    requires !OwnershipStep(step)
    ensures SameFences(s.tables, Next(s, step).tables)
  {
  }

  lemma AssignKeepsInv(t: Tables, scope: string, conversation: string, agent: string, now: int)
    requires Inv(t)
    ensures Inv(AssignAgent(t, scope, conversation, agent, now))
  {
  }

  lemma TakeoverKeepsInv(t: Tables, scope: string, conversation: string, now: int)
    requires Inv(t) && Takeover(t, scope, conversation, now).Ok?
    ensures Inv(Takeover(t, scope, conversation, now).value)
  {
    var t' := Takeover(t, scope, conversation, now).value;
    assert RowsAnchored(t') by {
      forall id | id in t'.outbox && t'.outbox[id].fence.Some?
        ensures Anchored(t', t'.outbox[id].fence.value.scope)
      {
        assert t'.outbox[id].fence == t.outbox[id].fence;
      }
    }
    assert TakeoversLogged(t') by {
      forall key | key in t'.handoffs && t'.handoffs[key].kind == OperatorAction
        ensures TakeoverKey(key.scope, key.generation) in t'.handoffs && t'.handoffs[key].sequence.Some?
      {
        assert key in t.handoffs;
      }
    }
  }

  lemma HandbackKeepsInv(t: Tables, scope: string, generation: nat, now: int)
    requires Inv(t) && Handback(t, scope, generation, now).Ok?
    ensures Inv(Handback(t, scope, generation, now).value.tables)
  {
    var t' := Handback(t, scope, generation, now).value.tables;
    assert RowsAnchored(t');
    assert TakeoversLogged(t') by {
      forall key | key in t'.handoffs && t'.handoffs[key].kind == OperatorAction
        ensures TakeoverKey(key.scope, key.generation) in t'.handoffs && t'.handoffs[key].sequence.Some?
      {
        assert key in t.handoffs;
      }
    }
  }

  lemma RecordKeepsInv(t: Tables, scope: string, eventId: string, sequence: int, payload: Json, now: int)
    requires Inv(t)
    ensures Inv(RecordAction(t, scope, eventId, sequence, payload, now).0)
  {
  }

  lemma AdmitKeepsInv(t: Tables, key: string, effect: string, fence: Option<Fence>, now: int)
    requires Inv(t) && Admit(t, key, effect, fence, now).Ok?
    ensures Inv(Admit(t, key, effect, fence, now).value.0)
  {
  }

  lemma SameFencesKeepInv(t: Tables, t': Tables)
    requires Inv(t) && SameFences(t, t')
    ensures Inv(t')
  {
  }

  lemma InvStep(s: System, step: Step)
    requires Inv(s.tables)
    ensures Inv(Next(s, step).tables)
  {
    var t := s.tables;
    match step {
      case Assign(scope, conversation, agent, now) => AssignKeepsInv(t, scope, conversation, agent, now);
      case TakeOver(scope, conversation, now) =>
        if Takeover(t, scope, conversation, now).Ok? { TakeoverKeepsInv(t, scope, conversation, now); }
      case HandBack(scope, generation, now) =>
        if Handback(t, scope, generation, now).Ok? { HandbackKeepsInv(t, scope, generation, now); }
      case Record(scope, eventId, sequence, payload, now) =>
        RecordKeepsInv(t, scope, eventId, sequence, payload, now);
      case Enqueue(key, effect, fence, now) =>
        if Admit(t, key, effect, fence, now).Ok? { AdmitKeepsInv(t, key, effect, fence, now); }
      case _ =>
        OtherStepsKeepFences(s, step);
        SameFencesKeepInv(t, Next(s, step).tables);
    }
  }

  lemma {:induction false} InvRun(s: System, steps: seq<Step>)
    requires Inv(s.tables)
    ensures Inv(Exec(s, steps).tables)
  {
    if steps != [] {
      InvRun(s, steps[..|steps| - 1]);
      InvStep(Exec(s, steps[..|steps| - 1]), steps[|steps| - 1]);
    }
  }

  lemma ExecUpTo(s: System, steps: seq<Step>, i: nat)
    requires i < |steps|
    ensures Exec(s, steps[..i + 1]) == Next(Exec(s, steps[..i]), steps[i])
  {
    assert steps[..i + 1][..i] == steps[..i];
  }

  // ----- generations and owners over whole runs ---------------------------------------

  /** The step moves the scope to a new generation. */
  predicate Changes(s: System, step: Step, scope: string) {
    || (step.TakeOver? && step.scope == scope && Takeover(s.tables, scope, step.conversation, step.now).Ok?)
    || (step.HandBack? && step.scope == scope && Handback(s.tables, scope, step.generation, step.now).Ok?)
  }

  ghost function ChangeCount(s: System, steps: seq<Step>, scope: string): nat {
    if steps == [] then 0
    else
      var before := steps[..|steps| - 1];
      ChangeCount(s, before, scope) + if Changes(Exec(s, before), steps[|steps| - 1], scope) then 1 else 0
  }

  lemma OwnershipOverStep(s: System, step: Step, scope: string)
    requires Inv(s.tables) && Anchored(s.tables, scope)
    ensures Anchored(Next(s, step).tables, scope)
    ensures
      var owner, owner' := s.tables.owners[scope], Next(s, step).tables.owners[scope];
      && Specialist(owner') == Specialist(owner)
      && (if Changes(s, step, scope) then owner'.generation == owner.generation + 1 else owner' == owner)
  {
    if !OwnershipStep(step) {
      OtherStepsKeepFences(s, step);
    }
  }

  /**
   Once an agent is assigned the owner row survives every run, keeps its
   specialist, and its generation counts the takeovers and handbacks that
   succeeded.
  */
  lemma {:induction false} OwnershipOverRun(s: System, steps: seq<Step>, scope: string)
    requires Inv(s.tables) && Anchored(s.tables, scope)
    ensures Anchored(Exec(s, steps).tables, scope)
    ensures
      var owner, owner' := s.tables.owners[scope], Exec(s, steps).tables.owners[scope];
      && Specialist(owner') == Specialist(owner)
      && owner'.generation == owner.generation + ChangeCount(s, steps, scope)
      && (ChangeCount(s, steps, scope) == 0 ==> owner' == owner)
  {
    if steps != [] {
      var before := steps[..|steps| - 1];
      OwnershipOverRun(s, before, scope);
      InvRun(s, before);
      OwnershipOverStep(Exec(s, before), steps[|steps| - 1], scope);
    }
  }

  /** However often the Controller took over, a handback returns the scope to the agent first assigned. */
  lemma HandbackRestoresSpecialist(s: System, steps: seq<Step>, scope: string, generation: nat, now: int)
    requires Inv(s.tables) && Anchored(s.tables, scope)
    ensures
      var handed := Handback(Exec(s, steps).tables, scope, generation, now);
      handed.Ok? ==>
        && handed.value.agent == Specialist(s.tables.owners[scope])
        && handed.value.tables.owners[scope].kind == Agent
        && handed.value.tables.owners[scope].agent == Specialist(s.tables.owners[scope])
  {
    OwnershipOverRun(s, steps, scope);
    InvRun(s, steps);
  }

  /** A generation read before any later takeover or handback no longer hands the scope back. */
  lemma StaleHandbackRefused(s: System, steps: seq<Step>, scope: string, now: int)
    requires Inv(s.tables) && Anchored(s.tables, scope)
    requires ChangeCount(s, steps, scope) > 0
    ensures
      var stale := HandBack(scope, s.tables.owners[scope].generation, now);
      Next(Exec(s, steps), stale).tables == Exec(s, steps).tables
  {
    OwnershipOverRun(s, steps, scope);
  }

  // ----- when takeover and handback succeed --------------------------------------------

  /** No handoff event of the scope lies above its current generation. */
  ghost predicate HandoffsReached(t: Tables, scope: string) {
    scope in t.owners &&
    forall key :: key in t.handoffs && key.scope == scope ==> key.generation <= t.owners[scope].generation
  }

  lemma HandoffsReachedStep(s: System, step: Step, scope: string)
    requires Inv(s.tables) && Anchored(s.tables, scope) && HandoffsReached(s.tables, scope)
    ensures HandoffsReached(Next(s, step).tables, scope)
  {
    if !OwnershipStep(step) {
      OtherStepsKeepFences(s, step);
    } else {
      OwnershipOverStep(s, step, scope);
    }
  }

  /** While no event of an assigned scope lies above its generation, it can be taken over at any later time. */
  lemma {:induction false} TakeoverNeverBlocked(s: System, steps: seq<Step>, scope: string, conversation: string, now: int)
    requires Inv(s.tables) && Anchored(s.tables, scope) && HandoffsReached(s.tables, scope)
    ensures HandoffsReached(Exec(s, steps).tables, scope)
    ensures Takeover(Exec(s, steps).tables, scope, conversation, now).Ok?
  {
    if steps != [] {
      var before := steps[..|steps| - 1];
      TakeoverNeverBlocked(s, before, scope, conversation, now);
      InvRun(s, before);
      OwnershipOverRun(s, before, scope);
      HandoffsReachedStep(Exec(s, before), steps[|steps| - 1], scope);
    }
  }

  /** The agent owns the scope and the next generation's takeover event is already stored. */
  ghost predicate Blocked(t: Tables, scope: string) {
    && Anchored(t, scope)
    && t.owners[scope].kind == Agent
    && TakeoverKey(scope, NextGeneration(t, scope)) in t.handoffs
  }

  lemma BlockedStep(s: System, step: Step, scope: string)
    requires Inv(s.tables) && Blocked(s.tables, scope)
    ensures Blocked(Next(s, step).tables, scope)
    ensures Next(s, step).tables.owners[scope] == s.tables.owners[scope]
  {
    if !OwnershipStep(step) {
      OtherStepsKeepFences(s, step);
    } else {
      OwnershipOverStep(s, step, scope);
    }
  }

  /** A blocked scope stays with its agent in every run: no takeover can ever succeed again. */
  lemma {:induction false} BlockedForever(s: System, steps: seq<Step>, scope: string)
    requires Inv(s.tables) && Blocked(s.tables, scope)
    ensures Blocked(Exec(s, steps).tables, scope)
    ensures Exec(s, steps).tables.owners[scope] == s.tables.owners[scope]
  {
    if steps != [] {
      BlockedForever(s, steps[..|steps| - 1], scope);
      InvRun(s, steps[..|steps| - 1]);
      BlockedStep(Exec(s, steps[..|steps| - 1]), steps[|steps| - 1], scope);
    }
  }

  /** The Controller holds a scope that no agent was ever assigned to. */
  ghost predicate HeldUnassigned(t: Tables, scope: string, generation: nat) {
    && ControlledAt(t, scope, generation)
    && !Anchored(t, scope)
    && TakeoverKey(scope, generation) in t.handoffs
    && forall key :: key in t.handoffs ==> key.generation <= generation && "t" <= key.eventId
  }

  lemma TakeoverHolds(t: Tables, scope: string, conversation: string, now: int)
    requires t == EMPTY || exists g :: HeldUnassigned(t, scope, g)
    ensures
      var next := NextGeneration(t, scope);
      Takeover(t, scope, conversation, now).Ok? && HeldUnassigned(Takeover(t, scope, conversation, now).value, scope, next)
  {
    var next := NextGeneration(t, scope);
    assert "t" <= TakeoverKey(scope, next).eventId;
  }

  lemma HandbackThenAssignBlocks(t: Tables, scope: string, conversation: string, agent: string, now: int)
    requires HeldUnassigned(t, scope, 2)
    ensures Handback(t, scope, 2, now).Ok?
    ensures Blocked(AssignAgent(Handback(t, scope, 2, now).value.tables, scope, conversation, agent, now), scope)
  {
    assert HandbackKey(scope, 2).eventId[0] == 'h';
    var t' := Handback(t, scope, 2, now).value.tables;
    assert scope !in t'.owners && TakeoverKey(scope, 2) in t'.handoffs;
  }

  /** Two takeovers of an unassigned scope, a handback and a first assignment lead there. */
  lemma BlockedIsReachable(scope: string, conversation: string, agent: string)
    ensures
      var steps := [TakeOver(scope, conversation, 1), TakeOver(scope, conversation, 2),
                    HandBack(scope, 2, 3), Assign(scope, conversation, agent, 3)];
      Blocked(Exec(START, steps).tables, scope)
  {
    var steps := [TakeOver(scope, conversation, 1), TakeOver(scope, conversation, 2),
                  HandBack(scope, 2, 3), Assign(scope, conversation, agent, 3)];
    TakeoverHolds(EMPTY, scope, conversation, 1);
    var t1 := Takeover(EMPTY, scope, conversation, 1).value;
    TakeoverHolds(t1, scope, conversation, 2);
    var t2 := Takeover(t1, scope, conversation, 2).value;
    HandbackThenAssignBlocks(t2, scope, conversation, agent, 3);
    ExecFour(START, steps[0], steps[1], steps[2], steps[3]);
    assert Next(START, steps[0]).tables == t1;
    assert Next(Next(START, steps[0]), steps[1]).tables == t2;
  }

  lemma ExecFour(s: System, a: Step, b: Step, c: Step, d: Step)
    ensures Exec(s, [a, b, c, d]) == Next(Next(Next(Next(s, a), b), c), d)
  {
    ExecUpTo(s, [a, b, c, d], 0);
    ExecUpTo(s, [a, b, c, d], 1);
    ExecUpTo(s, [a, b, c, d], 2);
    ExecUpTo(s, [a, b, c, d], 3);
    assert [a, b, c, d][..4] == [a, b, c, d] && [a, b, c, d][..0] == [];
  }

  // ----- when a takeover can be relied on ------------------------------------------------

  /** The scope's takeovers up to `top` are all stored, and no event above. */
  ghost predicate LoggedTo(t: Tables, scope: string, top: nat) {
    && (forall g: nat :: 1 <= g <= top ==> TakeoverKey(scope, g) in t.handoffs)
    && (forall key :: key in t.handoffs && key.scope == scope ==> 1 <= key.generation <= top)
  }

  /** What any run from the empty database leaves of a scope. */
  ghost predicate Reachable(t: Tables, scope: string) {
    if scope !in t.owners then exists top: nat :: LoggedTo(t, scope, top)
    else if !Anchored(t, scope) then t.owners[scope].kind == Controller && LoggedTo(t, scope, t.owners[scope].generation)
    else HandoffsReached(t, scope) || Blocked(t, scope)
  }

  lemma AssignReachable(t: Tables, scope: string, conversation: string, agent: string, now: int, top: nat)
    requires scope !in t.owners && LoggedTo(t, scope, top)
    ensures
      var t' := AssignAgent(t, scope, conversation, agent, now);
      && Anchored(t', scope)
      && (HandoffsReached(t', scope) <==> TakeoverKey(scope, 2) !in t.handoffs)
      && (HandoffsReached(t', scope) || Blocked(t', scope))
  {
    var t' := AssignAgent(t, scope, conversation, agent, now);
    if top >= 2 {
      assert TakeoverKey(scope, 2) in t.handoffs;
      assert !HandoffsReached(t', scope);
    }
  }

  lemma TakeoverReachable(t: Tables, scope: string, conversation: string, now: int)
    requires !Anchored(t, scope) && Reachable(t, scope) && Takeover(t, scope, conversation, now).Ok?
    ensures Reachable(Takeover(t, scope, conversation, now).value, scope)
  {
    var next, t' := NextGeneration(t, scope), Takeover(t, scope, conversation, now).value;
    if scope !in t.owners {
      var top: nat :| LoggedTo(t, scope, top);
    }
    assert LoggedTo(t', scope, next);
  }

  lemma HandbackReachable(t: Tables, scope: string, generation: nat, now: int)
    requires OwnersWellFormed(t) && scope in t.owners && !Anchored(t, scope) && Reachable(t, scope)
    requires Handback(t, scope, generation, now).Ok?
    ensures Reachable(Handback(t, scope, generation, now).value.tables, scope)
  {
    assert LoggedTo(Handback(t, scope, generation, now).value.tables, scope, generation);
  }

  lemma RecordReachable(
      t: Tables, scope: string, eventId: string, sequence: int, payload: Json, now: int)
    requires OwnersWellFormed(t) && scope in t.owners && !Anchored(t, scope) && Reachable(t, scope)
    ensures Reachable(RecordAction(t, scope, eventId, sequence, payload, now).0, scope)
  {
    assert LoggedTo(RecordAction(t, scope, eventId, sequence, payload, now).0, scope, t.owners[scope].generation);
  }

  /** Only the scope's owner row and its events matter. */
  lemma SameScopeReachable(t: Tables, t': Tables, scope: string)
    requires Reachable(t, scope)
    requires (scope in t'.owners <==> scope in t.owners) && (scope in t.owners ==> t'.owners[scope] == t.owners[scope])
    requires forall key: HandoffKey :: key.scope == scope ==> (key in t'.handoffs <==> key in t.handoffs)
    ensures Reachable(t', scope)
  {
    if scope !in t.owners {
      var top: nat :| LoggedTo(t, scope, top);
      assert LoggedTo(t', scope, top);
    }
  }

  /** A transaction of the ownership store on that scope. */
  predicate OnScope(step: Step, scope: string) {
    (step.Assign? || step.TakeOver? || step.HandBack? || step.Record?) && step.scope == scope
  }

  lemma OtherScopeStep(s: System, step: Step, scope: string)
    requires !OnScope(step, scope) && Reachable(s.tables, scope)
    ensures Reachable(Next(s, step).tables, scope)
  {
    if !OwnershipStep(step) {
      OtherStepsKeepFences(s, step);
    }
    SameScopeReachable(s.tables, Next(s, step).tables, scope);
  }

  lemma UnanchoredStep(s: System, step: Step, scope: string)
    requires Inv(s.tables) && Reachable(s.tables, scope) && !Anchored(s.tables, scope) && OnScope(step, scope)
    ensures Reachable(Next(s, step).tables, scope)
  {
    var t := s.tables;
    match step
    case Assign(_, conversation, agent, now) =>
      if scope !in t.owners {
        var top: nat :| LoggedTo(t, scope, top);
        AssignReachable(t, scope, conversation, agent, now, top);
      }
    case TakeOver(_, conversation, now) =>
      if Takeover(t, scope, conversation, now).Ok? {
        TakeoverReachable(t, scope, conversation, now);
      }
    case HandBack(_, generation, now) =>
      if Handback(t, scope, generation, now).Ok? {
        HandbackReachable(t, scope, generation, now);
      }
    case Record(_, eventId, sequence, payload, now) =>
      if scope in t.owners {
        RecordReachable(t, scope, eventId, sequence, payload, now);
      }
  }

  lemma ReachableStep(s: System, step: Step, scope: string)
    requires Inv(s.tables) && Reachable(s.tables, scope)
    ensures Reachable(Next(s, step).tables, scope)
  {
    if !OnScope(step, scope) {
      OtherScopeStep(s, step, scope);
    } else if !Anchored(s.tables, scope) {
      UnanchoredStep(s, step, scope);
    } else {
      OwnershipOverStep(s, step, scope);
      if HandoffsReached(s.tables, scope) {
        HandoffsReachedStep(s, step, scope);
      } else {
        BlockedStep(s, step, scope);
      }
    }
  }

  lemma {:induction false} ReachableRun(steps: seq<Step>, scope: string)
    ensures Reachable(Exec(START, steps).tables, scope)
  {
    if steps == [] {
      assert LoggedTo(EMPTY, scope, 0);
    } else {
      ReachableRun(steps[..|steps| - 1], scope);
      InvRun(START, steps[..|steps| - 1]);
      ReachableStep(Exec(START, steps[..|steps| - 1]), steps[|steps| - 1], scope);
    }
  }

  /** Every takeover of the scope succeeds, at any later time. */
  ghost predicate AlwaysTakeable(s: System, scope: string, conversation: string) {
    forall more, now :: Takeover(Exec(s, more).tables, scope, conversation, now).Ok?
  }

  /**
   In every reachable database an assigned scope can be taken over at any later time exactly when none of
   its events lies above its generation; otherwise its next takeover event is stored already, and it never can.
  */
  lemma TakeoverAlwaysSucceedsIff(steps: seq<Step>, scope: string, conversation: string)
    requires Anchored(Exec(START, steps).tables, scope)
    ensures AlwaysTakeable(Exec(START, steps), scope, conversation) <==> HandoffsReached(Exec(START, steps).tables, scope)
    ensures HandoffsReached(Exec(START, steps).tables, scope) <==> !Blocked(Exec(START, steps).tables, scope)
  {
    var s := Exec(START, steps);
    ReachableRun(steps, scope);
    InvRun(START, steps);
    if HandoffsReached(s.tables, scope) {
      forall more, now ensures Takeover(Exec(s, more).tables, scope, conversation, now).Ok? {
        TakeoverNeverBlocked(s, more, scope, conversation, now);
      }
    } else {
      assert Exec(s, []) == s;
      assert Takeover(Exec(s, []).tables, scope, conversation, 0).Err?;
    }
  }

  /** The first assignment makes takeovers reliable exactly when the scope was not taken over twice before it. */
  lemma AssignmentIsSafeIff(steps: seq<Step>, scope: string, conversation: string, agent: string, now: int)
    requires scope !in Exec(START, steps).tables.owners
    ensures
      var s := Exec(START, steps);
      AlwaysTakeable(Next(s, Assign(scope, conversation, agent, now)), scope, conversation) <==>
        TakeoverKey(scope, 2) !in s.tables.handoffs
  {
    var s, step := Exec(START, steps), Assign(scope, conversation, agent, now);
    ReachableRun(steps, scope);
    var top: nat :| LoggedTo(s.tables, scope, top);
    AssignReachable(s.tables, scope, conversation, agent, now, top);
    assert (steps + [step])[..|steps|] == steps;
    assert Exec(START, steps + [step]) == Next(s, step);
    TakeoverAlwaysSucceedsIff(steps + [step], scope, conversation);
  }

  /** A scope without an owner row can be taken over exactly when it has no event at all: its generations restart at 1. */
  lemma UnownedTakeoverIff(steps: seq<Step>, scope: string, conversation: string, now: int)
    requires scope !in Exec(START, steps).tables.owners
    ensures
      var t := Exec(START, steps).tables;
      Takeover(t, scope, conversation, now).Ok? <==> forall key :: key in t.handoffs ==> key.scope != scope
  {
    var t := Exec(START, steps).tables;
    ReachableRun(steps, scope);
    var top: nat :| LoggedTo(t, scope, top);
    if key :| key in t.handoffs && key.scope == scope {
      assert TakeoverKey(scope, 1) in t.handoffs;
    }
  }

  /** So taking over, handing back and taking over again fails on a scope no agent was assigned to. */
  lemma SecondTakeoverFails(scope: string, conversation: string, now: int)
    ensures
      var s := Exec(START, [TakeOver(scope, conversation, 1), HandBack(scope, 1, 2)]);
      scope !in s.tables.owners && Takeover(s.tables, scope, conversation, now) == Err(Constraint)
  {
    var steps := [TakeOver(scope, conversation, 1), HandBack(scope, 1, 2)];
    ExecUpTo(START, steps, 0);
    ExecUpTo(START, steps, 1);
    assert Exec(START, steps[..0]) == START && steps[..2] == steps;
    TakeoverAndHandbackKeysDiffer(scope, 1, scope, 1);
    assert TakeoverKey(scope, 1) in Exec(START, steps[..1]).tables.handoffs;
  }

  lemma TakeoverAndHandbackKeysDiffer(scope: string, g: nat, scope': string, g': nat)
    ensures TakeoverKey(scope, g) != HandbackKey(scope', g')
  {
    assert TakeoverKey(scope, g).eventId[0] == 't';
    assert HandbackKey(scope', g').eventId[0] == 'h';
  }
}
