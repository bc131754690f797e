/**
 The tables behind recipient ownership and the transactions that change them.
 Each transaction is a function from the tables it starts on to the tables it
 commits, or to a failure that leaves them alone.

 A scope is one (conversation, channel, recipient) triple. An agent or the
 Controller owns it, under a generation number that moves at every takeover and
 every handback to an agent.
*/
module Ownership {
  import opened Wrappers
  import opened Text
  import opened Json

  // ----- scope keys ----------------------------------------------------------

  const SEPARATOR: char := '\U{1F}'

  /** The text whose digest keys every table; the digest itself is taken as collision free. */
  function ScopeKey(conversation: string, channel: string, recipient: string): string {
    conversation + [SEPARATOR] + channel + [SEPARATOR] + recipient
  }

  lemma ScopeKeyInjective(c1: string, h1: string, r1: string, c2: string, h2: string, r2: string)
    requires SEPARATOR !in c1 && SEPARATOR !in c2 && SEPARATOR !in h1 && SEPARATOR !in h2
    requires ScopeKey(c1, h1, r1) == ScopeKey(c2, h2, r2)
    ensures c1 == c2 && h1 == h2 && r1 == r2
  {
    assert ScopeKey(c1, h1, r1) == c1 + [SEPARATOR] + (h1 + [SEPARATOR] + r1);
    assert ScopeKey(c2, h2, r2) == c2 + [SEPARATOR] + (h2 + [SEPARATOR] + r2);
    SplitOnceJoined(c1, SEPARATOR, h1 + [SEPARATOR] + r1);
    SplitOnceJoined(c2, SEPARATOR, h2 + [SEPARATOR] + r2);
    SplitOnceJoined(h1, SEPARATOR, r1);
    SplitOnceJoined(h2, SEPARATOR, r2);
  }

  /** A separator inside a component makes two different scopes share a key. */
  lemma ScopeKeyNeedsCleanComponents()
    ensures ScopeKey("a" + [SEPARATOR] + "b", "c", "d") == ScopeKey("a", "b" + [SEPARATOR] + "c", "d")
  {
  }

  // ----- tables ---------------------------------------------------------------

  datatype OwnerKind = Agent | Controller

  /** A row of `state_agent_ownership`. */
  datatype Owner = Owner(
    conversation: string, kind: OwnerKind, agent: Option<string>, previous: Option<string>,
    generation: nat, updatedAt: int)

  datatype HandoffKind = TakeoverEvent | OperatorAction | HandbackEvent

  /** The primary key of `state_agent_handoff_events`; the event kind is not part of it. */
  datatype HandoffKey = HandoffKey(scope: string, generation: nat, eventId: string)

  datatype Handoff = Handoff(kind: HandoffKind, sequence: Option<int>, payload: Json, occurredAt: int)

  datatype Status = Pending | InFlight | Delivered | Failed | DeadLetter | Unknown

  /** The owner an automatic send was admitted under. */
  datatype Fence = Fence(scope: string, agent: string, generation: nat)

  datatype Delivery = Delivery(transition: string, occurredAt: int, attempt: int)

  /** A row of `state_outbox` with its own delivery timeline in append order. */
  datatype Row = Row(
    key: string, effect: string, fence: Option<Fence>, status: Status, attempts: int,
    leaseExpires: Option<int>, timeline: seq<Delivery>)

  datatype Tables = Tables(
    owners: map<string, Owner>, handoffs: map<HandoffKey, Handoff>, outbox: map<nat, Row>, nextId: nat)

  const EMPTY := Tables(map[], map[], map[], 0)

  predicate Live(status: Status) {
    status == Pending || status == InFlight
  }

  /** An agent has been assigned to the scope and is, or will again be, its owner. */
  predicate Anchored(t: Tables, scope: string) {
    scope in t.owners && Specialist(t.owners[scope]).Some?
  }

  function Specialist(owner: Owner): Option<string> {
    if owner.agent.Some? then owner.agent else owner.previous
  }

  /** The ownership test made at admission and again before dispatch. */
  predicate Current(t: Tables, fence: Fence) {
    && fence.scope in t.owners
    && t.owners[fence.scope].kind == Agent
    && t.owners[fence.scope].agent == Some(fence.agent)
    && t.owners[fence.scope].generation == fence.generation
  }

  // ----- ownership transactions ------------------------------------------------

  function AssignAgent(t: Tables, scope: string, conversation: string, agent: string, now: int): Tables {
    if scope in t.owners then t
    else t.(owners := t.owners[scope := Owner(conversation, Agent, Some(agent), None, 1, now)])
  }

  function TakeoverKey(scope: string, generation: nat): HandoffKey {
    HandoffKey(scope, generation, "takeover:" + PrintNat(generation))
  }

  function HandbackKey(scope: string, generation: nat): HandoffKey {
    HandoffKey(scope, generation, "handback:" + PrintNat(generation))
  }

  function NextGeneration(t: Tables, scope: string): nat {
    (if scope in t.owners then t.owners[scope].generation else 0) + 1
  }

  function ControllerOwner(t: Tables, scope: string, conversation: string, now: int): Owner {
    if scope in t.owners then
      t.owners[scope].(kind := Controller, previous := Specialist(t.owners[scope]), agent := None,
                       generation := NextGeneration(t, scope), updatedAt := now)
    else Owner(conversation, Controller, None, None, 1, now)
  }

  /** A live row admitted under an earlier generation of the scope. */
  predicate Outdated(row: Row, scope: string, generation: nat) {
    && Live(row.status)
    && row.fence.Some?
    && row.fence.value.scope == scope
    && row.fence.value.generation < generation
  }

  /** What a takeover does to one such row. */
  function Cancelled(row: Row, now: int): Row {
    var transition :=
      if row.status == Pending then "cancelled_by_takeover" else "takeover_outcome_unknown";
    row.(status := if row.status == Pending then Failed else Unknown,
         leaseExpires := None,
         timeline := row.timeline + [Delivery(transition, now, row.attempts)])
  }

  function CancelOutdated(outbox: map<nat, Row>, scope: string, generation: nat, now: int): map<nat, Row> {
    map id | id in outbox ::
      if Outdated(outbox[id], scope, generation) then Cancelled(outbox[id], now) else outbox[id]
  }

  datatype DbError = Constraint | Invariant

  /** Fails when the takeover event's primary key is taken; the transaction then rolls back. */
  function Takeover(t: Tables, scope: string, conversation: string, now: int): Result<Tables, DbError> {
    var next := NextGeneration(t, scope);
    if TakeoverKey(scope, next) in t.handoffs then Err(Constraint)
    else Ok(Tables(
      t.owners[scope := ControllerOwner(t, scope, conversation, now)],
      t.handoffs[TakeoverKey(scope, next) := Handoff(TakeoverEvent, None, Obj([]), now)],
      CancelOutdated(t.outbox, scope, next, now),
      t.nextId))
  }

  predicate ControlledAt(t: Tables, scope: string, generation: nat) {
    scope in t.owners && t.owners[scope].kind == Controller && t.owners[scope].generation == generation
  }

  datatype Action = Action(sequence: int, payload: Json)

  /** The operator actions stored under one generation of a scope, by event id. */
  function ActionsAt(handoffs: map<HandoffKey, Handoff>, scope: string, generation: nat): map<string, Action> {
    map key | key in handoffs && key.scope == scope && key.generation == generation
           && handoffs[key].kind == OperatorAction && handoffs[key].sequence.Some?
      :: key.eventId := Action(handoffs[key].sequence.value, handoffs[key].payload)
  }

  /** `ORDER BY conversation_seq,event_id` */
  predicate Earlier(actions: map<string, Action>, a: string, b: string)
    requires a in actions && b in actions
  {
    || actions[a].sequence < actions[b].sequence
    || (actions[a].sequence == actions[b].sequence && AtMost(a, b))
  }

  lemma EarlierTotal(actions: map<string, Action>, a: string, b: string)
    requires a in actions && b in actions
    ensures Earlier(actions, a, b) || Earlier(actions, b, a)
  {
    AtMostTotal(a, b);
  }

  lemma EarlierTransitive(actions: map<string, Action>, a: string, b: string, c: string)
    requires a in actions && b in actions && c in actions
    requires Earlier(actions, a, b) && Earlier(actions, b, c)
    ensures Earlier(actions, a, c)
  {
    if AtMost(a, b) && AtMost(b, c) {
      AtMostTransitive(a, b, c);
    }
  }

  ghost predicate Earliest(actions: map<string, Action>, ids: set<string>, first: string)
    requires ids <= actions.Keys
  {
    first in ids && forall b :: b in ids ==> Earlier(actions, first, b)
  }

  lemma {:induction false} EarliestExists(actions: map<string, Action>, ids: set<string>) returns (first: string)
    requires ids <= actions.Keys && ids != {}
    ensures Earliest(actions, ids, first)
    decreases |ids|
  {
    var one :| one in ids;
    var rest := ids - {one};
    assert ids == rest + {one};
    EarlierTotal(actions, one, one);
    if rest == {} {
      first := one;
    } else {
      var a := EarliestExists(actions, rest);
      EarlierTotal(actions, a, one);
      first := if Earlier(actions, a, one) then a else one;
      forall b | b in ids ensures Earlier(actions, first, b) {
        if b != one && first == one {
          EarlierTransitive(actions, one, a, b);
        }
      }
    }
  }

  /** The ids of `ids` in query order. */
  function InOrder(actions: map<string, Action>, ids: set<string>): (order: seq<string>)
    requires ids <= actions.Keys
    ensures forall a :: a in order <==> a in ids
    ensures forall i, j :: 0 <= i < j < |order| ==> order[i] != order[j] && Earlier(actions, order[i], order[j])
    decreases |ids|
  {
    if ids == {} then []
    else
      assert exists first :: Earliest(actions, ids, first) by { var first := EarliestExists(actions, ids); }
      EarliestUnique(actions, ids);
      var first :| first in ids && forall b :: b in ids ==> Earlier(actions, first, b);
      [first] + InOrder(actions, ids - {first})
  }

  lemma EarliestUnique(actions: map<string, Action>, ids: set<string>)
    requires ids <= actions.Keys
    ensures forall a, b ::
      a in ids && b in ids && Earlier(actions, a, b) && Earlier(actions, b, a) ==> a == b
  {
    forall a, b | a in ids && b in ids && Earlier(actions, a, b) && Earlier(actions, b, a)
      ensures a == b
    {
      AtMostAntisymmetric(a, b);
    }
  }

  function OrderedPayloads(actions: map<string, Action>): (payloads: seq<Json>)
  {
    var order := InOrder(actions, actions.Keys);
    seq(|order|, i requires 0 <= i < |order| => actions[order[i]].payload)
  }

  datatype Handed = Handed(tables: Tables, agent: Option<string>, actions: seq<Json>)

  function Handback(t: Tables, scope: string, generation: nat, now: int): Result<Handed, DbError> {
    if !ControlledAt(t, scope, generation) then Err(Invariant)
    else if HandbackKey(scope, generation) in t.handoffs then Err(Constraint)
    else
      var previous := t.owners[scope].previous;
      var actions := OrderedPayloads(ActionsAt(t.handoffs, scope, generation));
      var owners :=
        if previous.Some? then
          t.owners[scope := t.owners[scope].(kind := Agent, agent := previous, previous := None,
                                             generation := generation + 1, updatedAt := now)]
        else t.owners - {scope};
      Ok(Handed(
        t.(owners := owners,
           handoffs := t.handoffs[HandbackKey(scope, generation) :=
             Handoff(HandbackEvent, None, Arr(actions), now)]),
        previous, actions))
  }

  /** Stores the event under the Controller's generation; a repeated event id is ignored. */
  function RecordAction(t: Tables, scope: string, eventId: string, sequence: int, payload: Json, now: int)
    : (Tables, bool)
  {
    if scope in t.owners && t.owners[scope].kind == Controller
       && HandoffKey(scope, t.owners[scope].generation, eventId) !in t.handoffs then
      (t.(handoffs := t.handoffs[HandoffKey(scope, t.owners[scope].generation, eventId) :=
         Handoff(OperatorAction, Some(sequence), payload, now)]), true)
    else (t, false)
  }

  // ----- outbox transactions ---------------------------------------------------

  ghost predicate Taken(t: Tables, key: string) {
    exists id :: id in t.outbox && t.outbox[id].key == key
  }

  /** Guarded idempotent enqueue: the row's id and whether it is new. */
  ghost function Admit(t: Tables, key: string, effect: string, fence: Option<Fence>, now: int)
    : Result<(Tables, nat, bool), DbError>
  {
    if fence.Some? && !Current(t, fence.value) then Err(Invariant)
    else if Taken(t, key) then
      var id :| id in t.outbox && t.outbox[id].key == key;
      if t.outbox[id].effect != effect || t.outbox[id].fence != fence then Err(Invariant)
      else if t.outbox[id].status in {Unknown, DeadLetter, Failed} then Err(Invariant)
      else Ok((t, id, false))
    else
      var row := Row(key, effect, fence, Pending, 0, None, [Delivery("enqueued", now, 0)]);
      Ok((t.(outbox := t.outbox[t.nextId := row], nextId := t.nextId + 1), t.nextId, true))
  }

  predicate Claimable(row: Row, now: int) {
    || row.status == Pending
    || (row.status == InFlight && row.leaseExpires.Some? && row.leaseExpires.value <= now)
  }

  const LEASE_SECS: int := 120

  function WithRow(t: Tables, id: nat, row: Row): Tables {
    t.(outbox := t.outbox[id := row])
  }

  function Claim(t: Tables, id: nat, now: int): Tables
    requires id in t.outbox
  {
    var row := t.outbox[id];
    if Claimable(row, now) then
      var transition := if row.status == InFlight then "lease_reclaimed" else "send_requested";
      WithRow(t, id, row.(status := InFlight, leaseExpires := Some(now + LEASE_SECS),
                          timeline := row.timeline + [Delivery(transition, now, row.attempts + 1)]))
    else t
  }

  /** Updates by id alone, whatever the row's status has become. */
  function MarkDelivered(t: Tables, id: nat, now: int): Tables
    requires id in t.outbox
  {
    var row := t.outbox[id];
    WithRow(t, id, row.(status := Delivered, leaseExpires := None,
                        timeline := row.timeline + [Delivery("delivered", now, row.attempts + 1)]))
  }

  /** Changes in-flight rows only. */
  function MarkUnknown(t: Tables, id: nat, now: int): Tables
    requires id in t.outbox
  {
    var row := t.outbox[id];
    if row.status == InFlight then
      WithRow(t, id, row.(status := Unknown, attempts := row.attempts + 1, leaseExpires := None,
                          timeline := row.timeline + [Delivery("outcome_unknown", now, row.attempts + 1)]))
    else t
  }

  /** Updates by id alone: back to pending under the retry budget, else to dead letter. */
  function RecordFailure(t: Tables, id: nat, budget: int, now: int): Tables
    requires id in t.outbox
  {
    var row := t.outbox[id];
    var retrying := row.attempts + 1 < budget;
    WithRow(t, id, row.(status := if retrying then Pending else DeadLetter, attempts := row.attempts + 1,
                        leaseExpires := None,
                        timeline := row.timeline
                          + [Delivery(if retrying then "retry_scheduled" else "dead_letter", now, row.attempts + 1)]))
  }

  /** An operator moves a row from one settled status to another. */
  function Resolve(t: Tables, id: nat, from: Status, to: Status, transition: string, now: int): Tables {
    if id in t.outbox && t.outbox[id].status == from then
      var row := t.outbox[id];
      WithRow(t, id, row.(status := to,
                          timeline := row.timeline + [Delivery(transition, now, row.attempts)]))
    else t
  }
}
