/**
 The ownership store over its mutable tables: one method per transaction, each
 proved equal to the transaction function of `Ownership`.
*/
module OwnershipStore {
  import opened Wrappers
  import opened Json
  import opened Ownership

  class Store {
    var owners: map<string, Owner>
    var handoffs: map<HandoffKey, Handoff>
    var outbox: map<nat, Row>
    var nextId: nat

    ghost function Contents(): Tables
      reads this
    {
      Tables(owners, handoffs, outbox, nextId)
    }

    constructor ()
      ensures Contents() == EMPTY
    {
      owners, handoffs, outbox, nextId := map[], map[], map[], 0;
    }

    function Get(conversation: string, channel: string, recipient: string): (r: Option<Owner>)
      reads this
    {
      var scope := ScopeKey(conversation, channel, recipient);
      if scope in owners then Some(owners[scope]) else None
    }

    method AssignAgent(conversation: string, channel: string, recipient: string, agent: string, now: int)
      returns (owner: Owner)
      modifies `owners
      ensures Contents() ==
        Ownership.AssignAgent(old(Contents()), ScopeKey(conversation, channel, recipient), conversation, agent, now)
      ensures Get(conversation, channel, recipient) == Some(owner)
    {
      var scope := ScopeKey(conversation, channel, recipient);
      if scope !in owners {
        owners := owners[scope := Owner(conversation, Agent, Some(agent), None, 1, now)];
      }
      owner := owners[scope];
    }

    method Takeover(conversation: string, channel: string, recipient: string, now: int)
      returns (r: Result<Owner, DbError>)
      modifies this
      ensures
        match Ownership.Takeover(old(Contents()), ScopeKey(conversation, channel, recipient), conversation, now)
        case Err(error) => r == Err(error) && Contents() == old(Contents())
        case Ok(after) => Contents() == after && Get(conversation, channel, recipient) == r.ToOption()
    {
      var scope := ScopeKey(conversation, channel, recipient);
      var next := NextGeneration(Tables(owners, handoffs, outbox, nextId), scope);
      var ownersBefore := owners;
      owners := owners[scope := ControllerOwner(Tables(owners, handoffs, outbox, nextId), scope, conversation, now)];
      if TakeoverKey(scope, next) in handoffs {
        owners := ownersBefore;  // rollback
        return Err(Constraint);
      }
      handoffs := handoffs[TakeoverKey(scope, next) := Handoff(TakeoverEvent, None, Obj([]), now)];
      CancelOutdatedRows(scope, next, now);
      r := Ok(owners[scope]);
    }

    /** The takeover's loop over the live rows of older generations. */
    method CancelOutdatedRows(scope: string, next: nat, now: int)
      modifies `outbox
      ensures outbox == CancelOutdated(old(outbox), scope, next, now)
    {
      var before := outbox;
      var todo := set id | id in outbox && Outdated(outbox[id], scope, next);
      while todo != {}
        modifies `outbox
        invariant outbox.Keys == before.Keys
        invariant forall id :: id in todo ==> id in before && Outdated(before[id], scope, next)
        invariant forall id :: id in before ==>
          outbox[id] == if Outdated(before[id], scope, next) && id !in todo then Cancelled(before[id], now) else before[id]
        decreases todo
      {
        var id :| id in todo;
        var row := outbox[id];
        var (status, transition) :=
          if row.status == Pending then (Failed, "cancelled_by_takeover") else (Unknown, "takeover_outcome_unknown");
        outbox := outbox[id := row.(status := status, leaseExpires := None,
                                    timeline := row.timeline + [Delivery(transition, now, row.attempts)])];
        todo := todo - {id};
      }
      assert outbox == CancelOutdated(before, scope, next, now);
    }

    method HandbackWithContext(conversation: string, channel: string, recipient: string, generation: nat, now: int)
      returns (r: Result<(Option<string>, seq<Json>), DbError>)
      modifies this
      ensures
        match Ownership.Handback(old(Contents()), ScopeKey(conversation, channel, recipient), generation, now)
        case Err(error) => r == Err(error) && Contents() == old(Contents())
        case Ok(handed) => r == Ok((handed.agent, handed.actions)) && Contents() == handed.tables
    {
      var scope := ScopeKey(conversation, channel, recipient);
      var held := ControlledAt(Tables(owners, handoffs, outbox, nextId), scope, generation);
      var previous: Option<string> := if held then owners[scope].previous else None;
      var actions := OrderedPayloads(ActionsAt(handoffs, scope, generation));
      var ownersBefore := owners;
      if !held {
        return Err(Invariant);
      }
      if previous.Some? {
        owners := owners[scope := owners[scope].(kind := Agent, agent := previous, previous := None,
                                                 generation := generation + 1, updatedAt := now)];
      } else {
        owners := owners - {scope};
      }
      if HandbackKey(scope, generation) in handoffs {
        owners := ownersBefore;  // rollback
        return Err(Constraint);
      }
      handoffs := handoffs[HandbackKey(scope, generation) := Handoff(HandbackEvent, None, Arr(actions), now)];
      r := Ok((previous, actions));
    }

    method Handback(conversation: string, channel: string, recipient: string, generation: nat, now: int)
      returns (r: Result<(), DbError>)
      modifies this
      ensures
        match Ownership.Handback(old(Contents()), ScopeKey(conversation, channel, recipient), generation, now)
        case Err(error) => r == Err(error) && Contents() == old(Contents())
        case Ok(handed) => r == Ok(()) && Contents() == handed.tables
    {
      var context := HandbackWithContext(conversation, channel, recipient, generation, now);
      r := match context case Ok(_) => Ok(()) case Err(error) => Err(error);
    }

    method RecordOperatorAction(conversation: string, channel: string, recipient: string,
                                eventId: string, sequence: int, payload: Json, now: int)
      returns (stored: bool)
      modifies `handoffs
      ensures (Contents(), stored) ==
        RecordAction(old(Contents()), ScopeKey(conversation, channel, recipient), eventId, sequence, payload, now)
    {
      var scope := ScopeKey(conversation, channel, recipient);
      stored := false;
      if scope in owners && owners[scope].kind == Controller {
        var key := HandoffKey(scope, owners[scope].generation, eventId);
        if key !in handoffs {
          handoffs := handoffs[key := Handoff(OperatorAction, Some(sequence), payload, now)];
          stored := true;
        }
      }
    }
  }
}
