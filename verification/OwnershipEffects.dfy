/**
 What each transaction leaves in the tables, row by row, and what every row's
 delivery timeline says of its status over all runs.
*/
module OwnershipEffects {
  import opened Wrappers
  import opened Json
  import opened Ownership
  import opened OwnershipRuns

  // ----- owners and handoff events ------------------------------------------------------

  /** The first agent to be assigned owns the scope under generation 1; no later one does. */
  lemma AssignEffect(t: Tables, scope: string, conversation: string, agent: string, now: int)
    ensures
      var t' := AssignAgent(t, scope, conversation, agent, now);
      && t'.handoffs == t.handoffs && t'.outbox == t.outbox && t'.nextId == t.nextId
      && t'.owners.Keys == t.owners.Keys + {scope}
      && (forall other <- t.owners :: t'.owners[other] == t.owners[other])
      && (scope !in t.owners ==> t'.owners[scope] == Owner(conversation, Agent, Some(agent), None, 1, now))
  {
  }

  /** A takeover makes the Controller the owner under the next generation, and remembers the agent it took from. */
  lemma TakeoverEffect(t: Tables, scope: string, conversation: string, now: int)
    requires OwnersWellFormed(t) && Takeover(t, scope, conversation, now).Ok?
    ensures
      var t' := Takeover(t, scope, conversation, now).value;
      && t'.owners.Keys == t.owners.Keys + {scope} && t'.nextId == t.nextId
      && (scope !in t.owners ==> t'.owners[scope] == Owner(conversation, Controller, None, None, 1, now))
      && (scope in t.owners ==>
            var o := t.owners[scope];
            t'.owners[scope] ==
              Owner(o.conversation, Controller, None, if o.kind == Agent then o.agent else o.previous, o.generation + 1, now))
      && var g := t'.owners[scope].generation;
         && TakeoverKey(scope, g) !in t.handoffs
         && t'.handoffs == t.handoffs[TakeoverKey(scope, g) := Handoff(TakeoverEvent, None, Obj([]), now)]
  {
  }

  /** A handback gives the scope to the remembered agent under the next generation, or to nobody. */
  lemma HandbackEffect(t: Tables, scope: string, generation: nat, now: int)
    requires Handback(t, scope, generation, now).Ok?
    ensures
      var handed := Handback(t, scope, generation, now).value;
      var t' := handed.tables;
      && scope in t.owners && t.owners[scope].kind == Controller && t.owners[scope].generation == generation
      && handed.agent == t.owners[scope].previous
      && t'.outbox == t.outbox && t'.nextId == t.nextId
      && (forall other <- t.owners | other != scope :: other in t'.owners && t'.owners[other] == t.owners[other])
      && (forall other <- t'.owners :: other in t.owners)
      && (handed.agent.None? ==> scope !in t'.owners)
      && (handed.agent.Some? ==>
            scope in t'.owners &&
            t'.owners[scope] == Owner(t.owners[scope].conversation, Agent, handed.agent, None, generation + 1, now))
      && HandbackKey(scope, generation) !in t.handoffs
      && t'.handoffs ==
         t.handoffs[HandbackKey(scope, generation) := Handoff(HandbackEvent, None, Arr(handed.actions), now)]
  {
  }

  /** It is refused, and then nothing changes, for a generation the Controller does not hold or an event id in use. */
  lemma HandbackRefusals(t: Tables, scope: string, generation: nat, now: int)
    ensures Handback(t, scope, generation, now) == Err(Invariant) <==>
      !(scope in t.owners && t.owners[scope].kind == Controller && t.owners[scope].generation == generation)
    ensures Handback(t, scope, generation, now) == Err(Constraint) <==>
      && scope in t.owners && t.owners[scope].kind == Controller && t.owners[scope].generation == generation
      && HandbackKey(scope, generation) in t.handoffs
  {
  }

  /** An action is stored under the generation the Controller holds, once for each event id. */
  lemma RecordEffect(t: Tables, scope: string, eventId: string, sequence: int, payload: Json, now: int)
    ensures
      var (t', stored) := RecordAction(t, scope, eventId, sequence, payload, now);
      && t' == t.(handoffs := t'.handoffs)
      && (stored <==>
            && scope in t.owners && t.owners[scope].kind == Controller
            && HandoffKey(scope, t.owners[scope].generation, eventId) !in t.handoffs)
      && t'.handoffs ==
         if stored then
           t.handoffs[HandoffKey(scope, t.owners[scope].generation, eventId) :=
             Handoff(OperatorAction, Some(sequence), payload, now)]
         else t.handoffs
  {
  }

  // ----- the outbox -------------------------------------------------------------------------

  /** The row with one more event; nothing else in the tables changes. */
  predicate Becomes(t: Tables, t': Tables, id: nat, status: Status, attempts: int, lease: Option<int>, event: Delivery)
    requires id in t.outbox
  {
    var row := t.outbox[id];
    t' == t.(outbox := t.outbox[id := Row(row.key, row.effect, row.fence, status, attempts, lease, row.timeline + [event])])
  }

  predicate Permitted(t: Tables, fence: Option<Fence>) {
    fence.Some? ==>
      && fence.value.scope in t.owners
      && t.owners[fence.value.scope].kind == Agent
      && t.owners[fence.value.scope].agent == Some(fence.value.agent)
      && t.owners[fence.value.scope].generation == fence.value.generation
  }

  /** `idempotency_key` is unique. */
  ghost predicate KeysDistinct(t: Tables) {
    forall a, b | a in t.outbox && b in t.outbox && t.outbox[a].key == t.outbox[b].key :: a == b
  }

  /** Without the owner's permission there is no row; under a new key there is one, in state Pending. */
  lemma AdmitEffect(t: Tables, key: string, effect: string, fence: Option<Fence>, now: int)
    ensures !Permitted(t, fence) ==> Admit(t, key, effect, fence, now) == Err(Invariant)
    ensures Permitted(t, fence) && !Taken(t, key) ==>
      Admit(t, key, effect, fence, now) ==
      Ok((t.(outbox := t.outbox[t.nextId := Row(key, effect, fence, Pending, 0, None, [Delivery("enqueued", now, 0)])],
             nextId := t.nextId + 1),
          t.nextId, true))
  {
    if fence.Some? && !Current(t, fence.value) {
    } else {
      assert Permitted(t, fence);
    }
  }

  /** Under a key in use the same effect gets its old row, unless that row has failed, is dead, or is in doubt. */
  lemma AdmitAgain(t: Tables, id: nat, effect: string, fence: Option<Fence>, now: int)
    requires KeysDistinct(t) && id in t.outbox && Permitted(t, fence)
    ensures
      var row := t.outbox[id];
      Admit(t, row.key, effect, fence, now) ==
      if row.effect == effect && row.fence == fence && row.status in {Pending, InFlight, Delivered}
      then Ok((t, id, false)) else Err(Invariant)
  {
    assert Taken(t, t.outbox[id].key);
    assert forall other | other in t.outbox && t.outbox[other].key == t.outbox[id].key :: other == id;
    assert fence.Some? ==> Current(t, fence.value);
    var row := t.outbox[id];
    assert row.status in {Pending, InFlight, Delivered} || row.status in {Unknown, DeadLetter, Failed} by {
      match row.status
      case Pending => case InFlight => case Delivered =>
      case Failed => case DeadLetter => case Unknown =>
    }
  }

  lemma {:induction false} KeysStayDistinct(steps: seq<Step>)
    ensures KeysDistinct(Exec(START, steps).tables)
  {
    if steps != [] {
      var before, last := Exec(START, steps[..|steps| - 1]), steps[|steps| - 1];
      KeysStayDistinct(steps[..|steps| - 1]);
      SameKeys(before, last);
    }
  }

  ghost predicate KeysKept(t: Tables, t': Tables) {
    forall id | id in t'.outbox :: id in t.outbox && t'.outbox[id].key == t.outbox[id].key
  }

  lemma AdmittedKeys(t: Tables, key: string, effect: string, fence: Option<Fence>, now: int)
    requires KeysDistinct(t)
    ensures
      var r := Admit(t, key, effect, fence, now);
      r.Ok? ==> KeysDistinct(r.value.0)
  {
  }

  lemma OwnershipKeepsKeys(s: System, step: Step)
    requires OwnershipStep(step) && !step.Enqueue?
    ensures KeysKept(s.tables, Next(s, step).tables)
  {
  }

  lemma RelayKeepsKeys(s: System, step: Step)
    requires !OwnershipStep(step)
    ensures KeysKept(s.tables, Next(s, step).tables)
  {
  }

  lemma SameKeys(s: System, step: Step)
    requires KeysDistinct(s.tables)
    ensures KeysDistinct(Next(s, step).tables)
  {
    if step.Enqueue? {
      AdmittedKeys(s.tables, step.key, step.effect, step.fence, step.now);
    } else if OwnershipStep(step) {
      OwnershipKeepsKeys(s, step);
    } else {
      RelayKeepsKeys(s, step);
    }
  }

  lemma ClaimEffect(t: Tables, id: nat, now: int)
    requires id in t.outbox
    ensures
      var row := t.outbox[id];
      var expired := row.status == InFlight && row.leaseExpires.Some? && row.leaseExpires.value <= now;
      if row.status == Pending then
        Becomes(t, Claim(t, id, now), id, InFlight, row.attempts, Some(now + 120),
                Delivery("send_requested", now, row.attempts + 1))
      else if expired then
        Becomes(t, Claim(t, id, now), id, InFlight, row.attempts, Some(now + 120),
                Delivery("lease_reclaimed", now, row.attempts + 1))
      else Claim(t, id, now) == t
  {
  }

  /** A row sent under a lease; what each outcome leaves of it. */
  lemma OutcomeEffects(s: System, w: WorkerId, budget: int, now: int)
    requires WorkerAt(s, w).Answered? && WorkerAt(s, w).id in s.tables.outbox
    ensures
      var id := WorkerAt(s, w).id;
      var row, t' := s.tables.outbox[id], Next(s, Finish(w, budget, now)).tables;
      match WorkerAt(s, w).outcome
      case Accepted =>
        Becomes(s.tables, t', id, Delivered, row.attempts, None, Delivery("delivered", now, row.attempts + 1))
      case NotAccepted =>
        if row.attempts + 1 < budget then
          Becomes(s.tables, t', id, Pending, row.attempts + 1, None, Delivery("retry_scheduled", now, row.attempts + 1))
        else
          Becomes(s.tables, t', id, DeadLetter, row.attempts + 1, None, Delivery("dead_letter", now, row.attempts + 1))
      case Uncertain =>
        if row.status == InFlight then
          Becomes(s.tables, t', id, Unknown, row.attempts + 1, None, Delivery("outcome_unknown", now, row.attempts + 1))
        else t' == s.tables
  {
  }

  /** A row found in flight after its lease is not sent; a row whose owner changed is not either. */
  lemma CheckEffects(s: System, w: WorkerId, budget: int, now: int)
    requires WorkerAt(s, w).Claimed? && WorkerAt(s, w).id in s.tables.outbox
    ensures
      var id := WorkerAt(s, w).id;
      var row, s' := s.tables.outbox[id], Next(s, Check(w, budget, now));
      && (WorkerAt(s', w) == Checked(id) <==> WorkerAt(s, w).seen != InFlight && OwnerAllows(s.tables, id))
      && (WorkerAt(s', w) != Checked(id) ==> WorkerAt(s', w) == Idle)
      && (WorkerAt(s', w) == Checked(id) ==> s'.tables == s.tables)
      && (WorkerAt(s, w).seen == InFlight && row.status == InFlight ==>
            Becomes(s.tables, s'.tables, id, Unknown, row.attempts + 1, None,
                    Delivery("outcome_unknown", now, row.attempts + 1)))
      && (WorkerAt(s, w).seen != InFlight && !OwnerAllows(s.tables, id) ==>
            Becomes(s.tables, s'.tables, id, if row.attempts + 1 < budget then Pending else DeadLetter, row.attempts + 1,
                    None, Delivery(if row.attempts + 1 < budget then "retry_scheduled" else "dead_letter", now,
                                   row.attempts + 1)))
  {
  }

  /** A refusal known before the transport is called counts as an attempt. */
  lemma RefusalEffects(s: System, w: WorkerId, budget: int, now: int)
    requires WorkerAt(s, w).Checked? && WorkerAt(s, w).id in s.tables.outbox
    ensures
      var id := WorkerAt(s, w).id;
      var row := s.tables.outbox[id];
      && WorkerAt(Next(s, Refuse(w, budget, now)), w) == Idle
      && Becomes(s.tables, Next(s, Refuse(w, budget, now)).tables, id,
                 if row.attempts + 1 < budget then Pending else DeadLetter, row.attempts + 1, None,
                 Delivery(if row.attempts + 1 < budget then "retry_scheduled" else "dead_letter", now, row.attempts + 1))
  {
  }

  /** An operator may retry or confirm what is unknown, and revive what is dead; nothing else. */
  lemma OperatorEffects(s: System, id: nat, now: int)
    requires id in s.tables.outbox
    ensures
      var row := s.tables.outbox[id];
      var retried, confirmed, revived :=
        Next(s, AuthorizeRetry(id, now)).tables, Next(s, Confirm(id, now)).tables, Next(s, Redrive(id, now)).tables;
      && (if row.status == Unknown then
            && Becomes(s.tables, retried, id, Pending, row.attempts, row.leaseExpires,
                       Delivery("retry_authorized", now, row.attempts))
            && Becomes(s.tables, confirmed, id, Delivered, row.attempts, row.leaseExpires,
                       Delivery("operator_confirmed_delivered", now, row.attempts))
          else retried == confirmed == s.tables)
      && (if row.status == DeadLetter then
            Becomes(s.tables, revived, id, Pending, row.attempts, row.leaseExpires,
                    Delivery("operator_redrive", now, row.attempts))
          else revived == s.tables)
  {
  }

  // ----- what the timeline says ----------------------------------------------------------------

  /** A row whose last event is that one has that status. */
  predicate Says(transition: string, status: Status) {
    || (status == Pending && transition in {"enqueued", "retry_scheduled", "retry_authorized", "operator_redrive"})
    || (status == InFlight && transition in {"send_requested", "lease_reclaimed"})
    || (status == Delivered && transition in {"delivered", "operator_confirmed_delivered"})
    || (status == Unknown && transition in {"outcome_unknown", "takeover_outcome_unknown"})
    || (status == DeadLetter && transition == "dead_letter")
    || (status == Failed && transition == "cancelled_by_takeover")
  }

  predicate Told(row: Row) {
    row.timeline != [] && Says(row.timeline[|row.timeline| - 1].transition, row.status)
  }

  ghost predicate AllTold(t: Tables) {
    forall id <- t.outbox :: Told(t.outbox[id])
  }

  /** Every row is still there and its timeline goes on. */
  ghost predicate Grown(t: Tables, t': Tables) {
    forall id <- t.outbox :: id in t'.outbox && t.outbox[id].timeline <= t'.outbox[id].timeline
  }

  lemma BecomesTells(t: Tables, t': Tables, id: nat, status: Status, attempts: int, lease: Option<int>, event: Delivery)
    requires AllTold(t) && id in t.outbox
    requires Becomes(t, t', id, status, attempts, lease, event) && Says(event.transition, status)
    ensures AllTold(t') && Grown(t, t')
  {
    forall other | other in t'.outbox ensures Told(t'.outbox[other]) {
      if other != id {
        assert t'.outbox[other] == t.outbox[other];
      }
    }
  }

  lemma SameTells(t: Tables, t': Tables)
    requires AllTold(t) && t'.outbox == t.outbox
    ensures AllTold(t') && Grown(t, t')
  {
  }

  lemma TakeoverTells(t: Tables, scope: string, generation: nat, now: int, t': Tables)
    requires AllTold(t) && t'.outbox == CancelOutdated(t.outbox, scope, generation, now)
    ensures AllTold(t') && Grown(t, t')
  {
    forall id | id in t'.outbox ensures Told(t'.outbox[id]) && t.outbox[id].timeline <= t'.outbox[id].timeline {
      assert Told(t.outbox[id]);
    }
  }

  lemma AdmitTells(t: Tables, key: string, effect: string, fence: Option<Fence>, now: int)
    requires AllTold(t) && RowsAnchored(t) && Admit(t, key, effect, fence, now).Ok?
    ensures AllTold(Admit(t, key, effect, fence, now).value.0)
    ensures Grown(t, Admit(t, key, effect, fence, now).value.0)
  {
    var t' := Admit(t, key, effect, fence, now).value.0;
    if !Taken(t, key) {
      AdmitEffect(t, key, effect, fence, now);
      forall id | id in t'.outbox ensures Told(t'.outbox[id]) {
        if id != t.nextId {
          assert t'.outbox[id] == t.outbox[id];
        }
      }
      assert t.nextId !in t.outbox;
    }
  }

  lemma OwnershipTells(s: System, step: Step)
    requires Inv(s.tables) && AllTold(s.tables) && OwnershipStep(step)
    ensures AllTold(Next(s, step).tables) && Grown(s.tables, Next(s, step).tables)
  {
    var t, t' := s.tables, Next(s, step).tables;
    match step
    case TakeOver(scope, conversation, now) =>
      if Takeover(t, scope, conversation, now).Ok? {
        TakeoverTells(t, scope, NextGeneration(t, scope), now, t');
      } else {
        SameTells(t, t');
      }
    case Enqueue(key, effect, fence, now) =>
      if Admit(t, key, effect, fence, now).Ok? {
        AdmitTells(t, key, effect, fence, now);
      } else {
        SameTells(t, t');
      }
    case _ => SameTells(t, t');
  }

  lemma LeaseTells(s: System, step: Step)
    requires AllTold(s.tables) && step.Lease?
    ensures AllTold(Next(s, step).tables) && Grown(s.tables, Next(s, step).tables)
  {
    var t, t' := s.tables, Next(s, step).tables;
    var worker := WorkerAt(s, step.worker);
    if t' == t {
      SameTells(t, t');
    } else {
      ClaimEffect(t, worker.id, step.now);
      BecomesTells(t, t', worker.id, InFlight, t.outbox[worker.id].attempts, Some(step.now + 120),
                   t'.outbox[worker.id].timeline[|t.outbox[worker.id].timeline|]);
    }
  }

  lemma CheckTells(s: System, step: Step)
    requires AllTold(s.tables) && step.Check?
    ensures AllTold(Next(s, step).tables) && Grown(s.tables, Next(s, step).tables)
  {
    var t, t' := s.tables, Next(s, step).tables;
    var worker := WorkerAt(s, step.worker);
    if t' == t {
      SameTells(t, t');
    } else {
      CheckEffects(s, step.worker, step.budget, step.now);
      BecomesTells(t, t', worker.id, t'.outbox[worker.id].status, t'.outbox[worker.id].attempts, None,
                   t'.outbox[worker.id].timeline[|t.outbox[worker.id].timeline|]);
    }
  }

  lemma FailureTells(t: Tables, id: nat, budget: int, now: int)
    requires AllTold(t) && id in t.outbox
    ensures AllTold(RecordFailure(t, id, budget, now)) && Grown(t, RecordFailure(t, id, budget, now))
  {
    var t' := RecordFailure(t, id, budget, now);
    BecomesTells(t, t', id, t'.outbox[id].status, t'.outbox[id].attempts, None, t'.outbox[id].timeline[|t.outbox[id].timeline|]);
  }

  lemma FinishTells(s: System, step: Step)
    requires AllTold(s.tables) && step.Finish?
    ensures AllTold(Next(s, step).tables) && Grown(s.tables, Next(s, step).tables)
  {
    var t, t' := s.tables, Next(s, step).tables;
    var worker := WorkerAt(s, step.worker);
    if t' == t {
      SameTells(t, t');
    } else {
      OutcomeEffects(s, step.worker, step.budget, step.now);
      BecomesTells(t, t', worker.id, t'.outbox[worker.id].status, t'.outbox[worker.id].attempts, None,
                   t'.outbox[worker.id].timeline[|t.outbox[worker.id].timeline|]);
    }
  }

  lemma OperatorTells(s: System, step: Step)
    requires AllTold(s.tables) && (step.AuthorizeRetry? || step.Redrive? || step.Confirm?)
    ensures AllTold(Next(s, step).tables) && Grown(s.tables, Next(s, step).tables)
  {
    var t, t' := s.tables, Next(s, step).tables;
    if t' == t {
      SameTells(t, t');
    } else {
      OperatorEffects(s, step.id, step.now);
      BecomesTells(t, t', step.id, t'.outbox[step.id].status, t.outbox[step.id].attempts, t.outbox[step.id].leaseExpires,
                   t'.outbox[step.id].timeline[|t.outbox[step.id].timeline|]);
    }
  }

  lemma RelayTells(s: System, step: Step)
    requires AllTold(s.tables) && !OwnershipStep(step)
    ensures AllTold(Next(s, step).tables) && Grown(s.tables, Next(s, step).tables)
  {
    if step.Lease? {
      LeaseTells(s, step);
    } else if step.Check? {
      CheckTells(s, step);
    } else if step.Finish? {
      FinishTells(s, step);
    } else if step.AuthorizeRetry? || step.Redrive? || step.Confirm? {
      OperatorTells(s, step);
    } else if step.Refuse? && Next(s, step).tables != s.tables {
      FailureTells(s.tables, WorkerAt(s, step.worker).id, step.budget, step.now);
    } else {
      SameTells(s.tables, Next(s, step).tables);
    }
  }

  /** In every interleaving each row's status is the one its last delivery event tells, and no event is ever lost. */
  lemma {:induction false} TimelineTellsStatus(steps: seq<Step>)
    ensures AllTold(Exec(START, steps).tables)
    ensures steps != [] ==> Grown(Exec(START, steps[..|steps| - 1]).tables, Exec(START, steps).tables)
  {
    if steps != [] {
      var before, last := steps[..|steps| - 1], steps[|steps| - 1];
      TimelineTellsStatus(before);
      InvRun(START, before);
      if OwnershipStep(last) {
        OwnershipTells(Exec(START, before), last);
      } else {
        RelayTells(Exec(START, before), last);
      }
    }
  }
}
