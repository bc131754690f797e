/**
 The context a handback returns: over every run it is the list of operator
 actions accepted since the takeover, and nothing else.
*/
module HandbackContext {
  import opened Wrappers
  import opened Text
  import opened Json
  import opened Ownership
  import opened OwnershipRuns

  /** The step stores a new operator action for the scope. */
  predicate Accepts(s: System, step: Step, scope: string) {
    && step.Record?
    && step.scope == scope
    && RecordAction(s.tables, scope, step.eventId, step.sequence, step.payload, step.now).1
  }

  /** The actions the run accepted for the scope, by event id. */
  ghost function AcceptedIn(s: System, steps: seq<Step>, scope: string): map<string, Action> {
    if steps == [] then map[]
    else
      var before, last := steps[..|steps| - 1], steps[|steps| - 1];
      if Accepts(Exec(s, before), last, scope)
      then AcceptedIn(s, before, scope)[last.eventId := Action(last.sequence, last.payload)]
      else AcceptedIn(s, before, scope)
  }

  ghost function AcceptedCount(s: System, steps: seq<Step>, scope: string): nat {
    if steps == [] then 0
    else
      var before := steps[..|steps| - 1];
      AcceptedCount(s, before, scope) + if Accepts(Exec(s, before), steps[|steps| - 1], scope) then 1 else 0
  }

  lemma StoredActionIsAdded(t: Tables, scope: string, eventId: string, sequence: int, payload: Json, now: int)
    requires RecordAction(t, scope, eventId, sequence, payload, now).1
    ensures
      var generation := t.owners[scope].generation;
      var actions := ActionsAt(t.handoffs, scope, generation);
      && eventId !in actions
      && ActionsAt(RecordAction(t, scope, eventId, sequence, payload, now).0.handoffs, scope, generation)
           == actions[eventId := Action(sequence, payload)]
  {
    var generation := t.owners[scope].generation;
    var added := HandoffKey(scope, generation, eventId);
    var h, h' := t.handoffs, RecordAction(t, scope, eventId, sequence, payload, now).0.handoffs;
    assert h' == h[added := Handoff(OperatorAction, Some(sequence), payload, now)];
    var actions, actions' := ActionsAt(h, scope, generation), ActionsAt(h', scope, generation);
    forall id | id in actions'
      ensures id == eventId || (id in actions && actions'[id] == actions[id])
    {
      assert HandoffKey(scope, generation, id) in h';
    }
    forall id | id in actions
      ensures id in actions' && id != eventId
    {
      assert HandoffKey(scope, generation, id) in h;
    }
    assert added in h';
    assert eventId in actions';
  }

  /** A step that stores no action of this scope and generation leaves its actions alone. */
  lemma OtherEventsKeepActions(
      h: map<HandoffKey, Handoff>, h': map<HandoffKey, Handoff>, scope: string, generation: nat)
    requires forall key :: key in h ==> key in h' && h'[key] == h[key]
    requires forall key :: key in h' && key !in h && key.scope == scope && key.generation == generation ==>
      h'[key].kind != OperatorAction
    ensures ActionsAt(h', scope, generation) == ActionsAt(h, scope, generation)
  {
    var actions, actions' := ActionsAt(h, scope, generation), ActionsAt(h', scope, generation);
    forall id | id in actions'
      ensures id in actions && actions'[id] == actions[id]
    {
      assert HandoffKey(scope, generation, id) in h';
    }
    forall id | id in actions
      ensures id in actions'
    {
      assert HandoffKey(scope, generation, id) in h;
    }
  }

  lemma OwnershipStepsKeepEvents(s: System, step: Step)
    requires OwnershipStep(step)
    ensures forall key :: key in s.tables.handoffs ==>
      key in Next(s, step).tables.handoffs && Next(s, step).tables.handoffs[key] == s.tables.handoffs[key]
  {
  }

  lemma UnchangedScopeIsHeld(s: System, step: Step, scope: string, generation: nat)
    requires Inv(s.tables) && ControlledAt(s.tables, scope, generation) && OwnershipStep(step) && !Changes(s, step, scope)
    ensures ControlledAt(Next(s, step).tables, scope, generation)
  {
  }

  lemma OnlyRecordsAddActions(s: System, step: Step, key: HandoffKey)
    requires Inv(s.tables) && OwnershipStep(step)
    requires ControlledAt(s.tables, key.scope, key.generation) && !Accepts(s, step, key.scope)
    requires key in Next(s, step).tables.handoffs && key !in s.tables.handoffs
    ensures Next(s, step).tables.handoffs[key].kind != OperatorAction
  {
  }

  lemma OtherOwnershipStepsKeepActions(s: System, step: Step, scope: string, generation: nat)
    requires Inv(s.tables) && ControlledAt(s.tables, scope, generation)
    requires OwnershipStep(step) && !Changes(s, step, scope) && !Accepts(s, step, scope)
    ensures ControlledAt(Next(s, step).tables, scope, generation)
    ensures ActionsAt(Next(s, step).tables.handoffs, scope, generation) == ActionsAt(s.tables.handoffs, scope, generation)
  {
    var h, h' := s.tables.handoffs, Next(s, step).tables.handoffs;
    UnchangedScopeIsHeld(s, step, scope, generation);
    OwnershipStepsKeepEvents(s, step);
    forall key | key in h' && key !in h && key.scope == scope && key.generation == generation
      ensures h'[key].kind != OperatorAction
    {
      OnlyRecordsAddActions(s, step, key);
    }
    OtherEventsKeepActions(h, h', scope, generation);
  }

  /** While the Controller holds one generation, only `Record` steps add actions to it. */
  lemma ActionsOverStep(s: System, step: Step, scope: string, generation: nat)
    requires Inv(s.tables) && ControlledAt(s.tables, scope, generation) && !Changes(s, step, scope)
    ensures ControlledAt(Next(s, step).tables, scope, generation)
    ensures
      var actions, actions' :=
        ActionsAt(s.tables.handoffs, scope, generation), ActionsAt(Next(s, step).tables.handoffs, scope, generation);
      if Accepts(s, step, scope)
      then step.eventId !in actions && actions' == actions[step.eventId := Action(step.sequence, step.payload)]
      else actions' == actions
  {
    if !OwnershipStep(step) {
      OtherStepsKeepFences(s, step);
    } else if Accepts(s, step, scope) {
      StoredActionIsAdded(s.tables, scope, step.eventId, step.sequence, step.payload, step.now);
    } else {
      OtherOwnershipStepsKeepActions(s, step, scope, generation);
    }
  }

  lemma {:induction false} ActionsOverRun(s: System, steps: seq<Step>, scope: string, generation: nat)
    requires Inv(s.tables) && ControlledAt(s.tables, scope, generation)
    requires ActionsAt(s.tables.handoffs, scope, generation) == map[]
    requires ChangeCount(s, steps, scope) == 0
    ensures ControlledAt(Exec(s, steps).tables, scope, generation)
    ensures ActionsAt(Exec(s, steps).tables.handoffs, scope, generation) == AcceptedIn(s, steps, scope)
    ensures |AcceptedIn(s, steps, scope)| == AcceptedCount(s, steps, scope)
  {
    if steps != [] {
      var before, last := steps[..|steps| - 1], steps[|steps| - 1];
      ActionsOverRun(s, before, scope, generation);
      InvRun(s, before);
      ActionsOverStep(Exec(s, before), last, scope, generation);
    }
  }

  /** A takeover opens a generation that holds no operator action yet. */
  lemma TakeoverStartsEmpty(t: Tables, scope: string, conversation: string, now: int)
    requires Inv(t) && Takeover(t, scope, conversation, now).Ok?
    ensures
      var t', next := Takeover(t, scope, conversation, now).value, NextGeneration(t, scope);
      ControlledAt(t', scope, next) && ActionsAt(t'.handoffs, scope, next) == map[]
  {
    var t', next := Takeover(t, scope, conversation, now).value, NextGeneration(t, scope);
    forall key | key in t'.handoffs && key.scope == scope && key.generation == next
      ensures t'.handoffs[key].kind != OperatorAction
    {
      assert key == TakeoverKey(scope, next) || key in t.handoffs;
    }
  }

  /** `payloads` lists exactly `actions`, each once, by sequence and then event id. */
  ghost predicate ListsInOrder(payloads: seq<Json>, actions: map<string, Action>) {
    exists order: seq<string> :: ListedBy(order, payloads, actions)
  }

  ghost predicate ListedBy(order: seq<string>, payloads: seq<Json>, actions: map<string, Action>) {
    && |order| == |payloads| == |actions|
    && (forall id :: id in order <==> id in actions)
    && (forall i, j :: 0 <= i < j < |order| ==> order[i] != order[j])
    && (forall i :: 0 <= i < |order| ==> order[i] in actions && payloads[i] == actions[order[i]].payload)
    && (forall i, j :: 0 <= i < j < |order| ==>
          order[i] in actions && order[j] in actions && BySequenceAndId(actions, order[i], order[j]))
  }

  /** The smaller sequence first; of the same, the id that comes first in the order of code points. */
  ghost predicate BySequenceAndId(actions: map<string, Action>, a: string, b: string)
    requires a in actions && b in actions
  {
    || actions[a].sequence < actions[b].sequence
    || (actions[a].sequence == actions[b].sequence && exists k: nat :: AtMostAt(a, b, k))
  }

  lemma {:induction false} InOrderLength(actions: map<string, Action>, ids: set<string>)
    requires ids <= actions.Keys
    ensures |InOrder(actions, ids)| == |ids|
    decreases |ids|
  {
    if ids != {} {
      var first := InOrder(actions, ids)[0];
      assert first in InOrder(actions, ids);
      InOrderLength(actions, ids - {first});
    }
  }

  lemma OrderedPayloadsList(actions: map<string, Action>)
    ensures ListsInOrder(OrderedPayloads(actions), actions)
  {
    InOrderLength(actions, actions.Keys);
    var order := InOrder(actions, actions.Keys);
    assert |actions| == |actions.Keys|;
    assert forall i :: 0 <= i < |order| ==> order[i] in order;
    forall i, j | 0 <= i < j < |order| ensures BySequenceAndId(actions, order[i], order[j]) {
      AtMostIff(order[i], order[j]);
    }
    assert ListedBy(order, OrderedPayloads(actions), actions);
  }

  /**
   Between a takeover and the next handback of a scope, with any steps of any
   scope in between, the handback returns the accepted actions: each exactly
   once, in order, and none of an earlier generation.
  */
  lemma HandbackContextIsExact(
      s: System, conversation: string, now: int, steps: seq<Step>, scope: string, generation: nat, later: int)
    requires Inv(s.tables) && Takeover(s.tables, scope, conversation, now).Ok?
    requires ChangeCount(Next(s, TakeOver(scope, conversation, now)), steps, scope) == 0
    requires Handback(Exec(Next(s, TakeOver(scope, conversation, now)), steps).tables, scope, generation, later).Ok?
    ensures
      var taken := Next(s, TakeOver(scope, conversation, now));
      var handed := Handback(Exec(taken, steps).tables, scope, generation, later).value;
      && ListsInOrder(handed.actions, AcceptedIn(taken, steps, scope))
      && |handed.actions| == AcceptedCount(taken, steps, scope)
  {
    var taken := Next(s, TakeOver(scope, conversation, now));
    InvStep(s, TakeOver(scope, conversation, now));
    TakeoverStartsEmpty(s.tables, scope, conversation, now);
    var next := NextGeneration(s.tables, scope);
    ActionsOverRun(taken, steps, scope, next);
    OrderedPayloadsList(AcceptedIn(taken, steps, scope));
  }

  // ----- when a handback succeeds ----------------------------------------------------------

  /** A stored handback event closes its generation for good. */
  ghost predicate HandbacksClosed(t: Tables) {
    forall key :: key in t.handoffs && t.handoffs[key].kind == HandbackEvent ==>
      TakeoverKey(key.scope, key.generation) in t.handoffs && !ControlledAt(t, key.scope, key.generation)
  }

  /** Takeover events are stored under their own ids only. */
  ghost predicate TakeoverIds(t: Tables) {
    forall key :: key in t.handoffs && t.handoffs[key].kind == TakeoverEvent ==>
      key == TakeoverKey(key.scope, key.generation)
  }

  lemma NewHandbackCloses(s: System, step: Step, key: HandoffKey)
    requires Inv(s.tables) && OwnershipStep(step)
    requires key in Next(s, step).tables.handoffs && key !in s.tables.handoffs
    requires Next(s, step).tables.handoffs[key].kind == HandbackEvent
    ensures TakeoverKey(key.scope, key.generation) in s.tables.handoffs
    ensures !ControlledAt(Next(s, step).tables, key.scope, key.generation)
  {
    assert step.HandBack? && key == HandbackKey(step.scope, step.generation);
  }

  /** A generation that is over, or not yet reached by its takeover event, is not taken up again. */
  lemma ClosedStaysClosed(s: System, step: Step, key: HandoffKey)
    requires Inv(s.tables) && OwnershipStep(step) && TakeoverKey(key.scope, key.generation) in s.tables.handoffs
    requires !ControlledAt(s.tables, key.scope, key.generation)
    ensures !ControlledAt(Next(s, step).tables, key.scope, key.generation)
  {
  }

  lemma TakeoverIdsStep(s: System, step: Step)
    requires OwnershipStep(step) && TakeoverIds(s.tables)
    ensures TakeoverIds(Next(s, step).tables)
  {
  }

  lemma HandbacksClosedStep(s: System, step: Step)
    requires Inv(s.tables) && HandbacksClosed(s.tables) && TakeoverIds(s.tables)
    ensures HandbacksClosed(Next(s, step).tables) && TakeoverIds(Next(s, step).tables)
  {
    var t, t' := s.tables, Next(s, step).tables;
    if !OwnershipStep(step) {
      OtherStepsKeepFences(s, step);
    } else {
      TakeoverIdsStep(s, step);
      OwnershipStepsKeepEvents(s, step);
      forall key | key in t'.handoffs && t'.handoffs[key].kind == HandbackEvent
        ensures TakeoverKey(key.scope, key.generation) in t'.handoffs && !ControlledAt(t', key.scope, key.generation)
      {
        if key in t.handoffs {
          ClosedStaysClosed(s, step, key);
        } else {
          NewHandbackCloses(s, step, key);
        }
      }
    }
  }

  lemma {:induction false} HandbacksClosedRun(steps: seq<Step>)
    ensures HandbacksClosed(Exec(START, steps).tables) && TakeoverIds(Exec(START, steps).tables)
  {
    if steps != [] {
      HandbacksClosedRun(steps[..|steps| - 1]);
      InvRun(START, steps[..|steps| - 1]);
      HandbacksClosedStep(Exec(START, steps[..|steps| - 1]), steps[|steps| - 1]);
    }
  }

  /**
   In every reachable database a handback succeeds exactly when the Controller
   holds that generation and no operator action was stored under the id the
   handback event itself needs.
  */
  lemma HandbackSucceedsIff(steps: seq<Step>, scope: string, generation: nat, now: int)
    ensures
      var t := Exec(START, steps).tables;
      Handback(t, scope, generation, now).Ok? <==>
        ControlledAt(t, scope, generation) &&
        "handback:" + PrintNat(generation) !in ActionsAt(t.handoffs, scope, generation)
  {
    var t := Exec(START, steps).tables;
    InvRun(START, steps);
    HandbacksClosedRun(steps);
    var key := HandbackKey(scope, generation);
    if key in t.handoffs && ControlledAt(t, scope, generation) {
      TakeoverAndHandbackKeysDiffer(scope, generation, scope, generation);
      assert t.handoffs[key].kind == OperatorAction;
    }
  }

  /** Such an action is accepted like any other, and from then on that generation cannot be handed back. */
  lemma ReservedActionBlocksHandback(s: System, scope: string, sequence: int, payload: Json, now: int, steps: seq<Step>)
    requires Inv(s.tables) && scope in s.tables.owners && s.tables.owners[scope].kind == Controller
    requires HandbackKey(scope, s.tables.owners[scope].generation) !in s.tables.handoffs
    ensures
      var generation := s.tables.owners[scope].generation;
      var record := Record(scope, "handback:" + PrintNat(generation), sequence, payload, now);
      && Accepts(s, record, scope)
      && Handback(Exec(Next(s, record), steps).tables, scope, generation, now).Err?
  {
    var generation := s.tables.owners[scope].generation;
    var record := Record(scope, "handback:" + PrintNat(generation), sequence, payload, now);
    HandoffsGrow(Next(s, record), steps, HandbackKey(scope, generation));
  }

  lemma {:induction false} HandoffsGrow(s: System, steps: seq<Step>, key: HandoffKey)
    requires key in s.tables.handoffs
    ensures key in Exec(s, steps).tables.handoffs
  {
    if steps != [] {
      HandoffsGrow(s, steps[..|steps| - 1], key);
      if !OwnershipStep(steps[|steps| - 1]) {
        OtherStepsKeepFences(Exec(s, steps[..|steps| - 1]), steps[|steps| - 1]);
      }
    }
  }
}
