/**
 Whether the transport is called again for a row whose earlier send may have been
 accepted, with no operator's decision in between: exactly which steps make that
 possible, and a run in which the relay does it by itself.
*/
module SingleSend {
  import opened Wrappers
  import opened Ownership
  import opened OwnershipRuns

  /** The worker may still send the row, or put it back because its send was not accepted. */
  predicate Holds(s: System, w: WorkerId, id: nat) {
    match WorkerAt(s, w)
    case Claimed(row, seen) => row == id && seen != InFlight
    case Checked(row) => row == id
    case Answered(row, outcome) => row == id && outcome == NotAccepted
    case _ => false
  }

  ghost predicate Held(s: System, id: nat) {
    exists w :: Holds(s, w, id)
  }

  /** An operator's decision puts the row back. */
  predicate PutsBack(s: System, step: Step, id: nat) {
    id in s.tables.outbox &&
    match step
    case AuthorizeRetry(row, _) => row == id && s.tables.outbox[id].status == Unknown
    case Redrive(row, _) => row == id && s.tables.outbox[id].status == DeadLetter
    case _ => false
  }

  /** The step calls the transport for the row, which may have accepted it. */
  predicate MaySettle(s: System, step: Step, id: nat) {
    Sends(s, step, id) && step.outcome != NotAccepted
  }

  /** A send of the row may have been accepted, and no operator has decided since. */
  ghost predicate InDoubt(steps: seq<Step>, id: nat) {
    steps != [] &&
    var before, last := steps[..|steps| - 1], steps[|steps| - 1];
    !PutsBack(Exec(START, before), last, id) && (InDoubt(before, id) || MaySettle(Exec(START, before), last, id))
  }

  // ----- one step -----------------------------------------------------------------------

  /** One worker at most holds the row, none while it is in doubt, and it is not pending in either case. */
  ghost predicate Safe(s: System, id: nat, doubt: bool) {
    && (forall v, w :: Holds(s, v, id) && Holds(s, w, id) ==> v == w)
    && (Held(s, id) || doubt ==> id in s.tables.outbox && s.tables.outbox[id].status != Pending)
    && !(doubt && Held(s, id))
  }

  predicate DoubtAfter(s: System, step: Step, id: nat, doubt: bool) {
    !PutsBack(s, step, id) && (doubt || MaySettle(s, step, id))
  }

  /** The step claims the row for a worker that saw it pending. */
  predicate Claims(s: System, step: Step, w: WorkerId, id: nat) {
    && step.Lease? && step.worker == w && WorkerAt(s, w).Fetched? && WorkerAt(s, w).id == id
    && WorkerAt(s, w).seen != InFlight
    && id in s.tables.outbox && Claimable(s.tables.outbox[id], step.now)
  }

  /** A worker that saw the row pending claims it, though another one holds it or it is in doubt. */
  ghost predicate StaleClaim(s: System, step: Step, id: nat, doubt: bool) {
    step.Lease? && Claims(s, step, step.worker, id) && (Held(s, id) || doubt)
  }

  /** The operator puts a row back that a worker still holds. */
  ghost predicate HastyDecision(s: System, step: Step, id: nat) {
    PutsBack(s, step, id) && Held(s, id)
  }

  predicate OfWorker(step: Step) {
    step.Fetch? || step.Lease? || step.Check? || step.Refuse? || step.Send? || step.Finish? || step.Crash?
  }

  lemma OtherWorkers(s: System, step: Step, w: WorkerId)
    requires OfWorker(step) ==> step.worker != w
    ensures WorkerAt(Next(s, step), w) == WorkerAt(s, w)
  {
  }

  /** Only such a worker comes to hold it. */
  lemma HeldLater(s: System, step: Step, w: WorkerId, id: nat)
    ensures Holds(Next(s, step), w, id) ==> Holds(s, w, id) || Claims(s, step, w, id)
    ensures Claims(s, step, w, id) ==>
      && Holds(Next(s, step), w, id) && WorkerAt(Next(s, step), w).Claimed? && !Holds(s, w, id)
      && Next(s, step).tables.outbox[id].status == InFlight
  {
    if !OfWorker(step) || step.worker != w {
      OtherWorkers(s, step, w);
    }
  }

  lemma RowStays(s: System, step: Step, id: nat)
    requires id in s.tables.outbox
    ensures id in Next(s, step).tables.outbox
  {
  }

  /** A row becomes pending only when it is new, its holder records a failure, or an operator puts it back. */
  ghost predicate PendingBecause(s: System, step: Step, id: nat) {
    || (id in s.tables.outbox && s.tables.outbox[id].status == Pending)
    || (id !in s.tables.outbox && step.Enqueue?)
    || PutsBack(s, step, id)
    || (id in s.tables.outbox && OfWorker(step) && Holds(s, step.worker, id) && !Holds(Next(s, step), step.worker, id))
  }

  lemma WorkerPending(s: System, step: Step, id: nat)
    requires OfWorker(step) && id in Next(s, step).tables.outbox && Next(s, step).tables.outbox[id].status == Pending
    ensures PendingBecause(s, step, id)
  {
  }

  lemma OtherPending(s: System, step: Step, id: nat)
    requires Inv(s.tables) && !OfWorker(step)
    requires id in Next(s, step).tables.outbox && Next(s, step).tables.outbox[id].status == Pending
    ensures PendingBecause(s, step, id)
  {
  }

  lemma PendingLater(s: System, step: Step, id: nat)
    requires Inv(s.tables) && id in Next(s, step).tables.outbox && Next(s, step).tables.outbox[id].status == Pending
    ensures PendingBecause(s, step, id)
  {
    if OfWorker(step) {
      WorkerPending(s, step, id);
    } else {
      OtherPending(s, step, id);
    }
  }

  /** A send that may have been accepted ends the hold. */
  lemma SettlingReleases(s: System, step: Step, id: nat)
    requires MaySettle(s, step, id)
    ensures Holds(s, step.worker, id) && !Holds(Next(s, step), step.worker, id)
  {
  }

  /** While the invariant holds, a step without such a claim or decision keeps it. */
  lemma SafeStepKeeps(s: System, step: Step, id: nat, doubt: bool)
    requires Inv(s.tables) && Safe(s, id, doubt)
    requires !StaleClaim(s, step, id, doubt) && !HastyDecision(s, step, id)
    ensures Safe(Next(s, step), id, DoubtAfter(s, step, id, doubt))
  {
    var s', doubt' := Next(s, step), DoubtAfter(s, step, id, doubt);
    forall v, w | Holds(s', v, id) && Holds(s', w, id) ensures v == w {
      HeldLater(s, step, v, id);
      HeldLater(s, step, w, id);
    }
    if Held(s', id) {
      var w :| Holds(s', w, id);
      HeldIsNotPending(s, step, id, doubt, w);
    }
    if doubt' {
      DoubtIsNotPending(s, step, id, doubt);
      if Held(s', id) {
        var w :| Holds(s', w, id);
        NotHeldInDoubt(s, step, id, doubt, w);
      }
    }
  }

  lemma HeldIsNotPending(s: System, step: Step, id: nat, doubt: bool, w: WorkerId)
    requires Inv(s.tables) && Safe(s, id, doubt) && Holds(Next(s, step), w, id) && !HastyDecision(s, step, id)
    ensures id in Next(s, step).tables.outbox && Next(s, step).tables.outbox[id].status != Pending
  {
    HeldLater(s, step, w, id);
    if Holds(s, w, id) {
      assert Held(s, id);
      RowStays(s, step, id);
      if Next(s, step).tables.outbox[id].status == Pending {
        PendingLater(s, step, id);
        assert false;
      }
    }
  }

  lemma DoubtIsNotPending(s: System, step: Step, id: nat, doubt: bool)
    requires Inv(s.tables) && Safe(s, id, doubt) && DoubtAfter(s, step, id, doubt)
    ensures id in Next(s, step).tables.outbox && Next(s, step).tables.outbox[id].status != Pending
  {
    if !doubt {
      assert Holds(s, step.worker, id);
      assert Held(s, id);
    }
    RowStays(s, step, id);
    if Next(s, step).tables.outbox[id].status == Pending {
      PendingLater(s, step, id);
      assert false;
    }
  }

  lemma NotHeldInDoubt(s: System, step: Step, id: nat, doubt: bool, w: WorkerId)
    requires Safe(s, id, doubt) && DoubtAfter(s, step, id, doubt) && !StaleClaim(s, step, id, doubt)
    ensures !Holds(Next(s, step), w, id)
  {
    HeldLater(s, step, w, id);
    if doubt && Holds(s, w, id) {
      assert Held(s, id);
    }
    if !doubt {
      SettlingReleases(s, step, id);
    }
  }

  /** And a step with one of them breaks it. */
  lemma HazardBreaks(s: System, step: Step, id: nat, doubt: bool)
    requires Inv(s.tables) && Safe(s, id, doubt)
    requires StaleClaim(s, step, id, doubt) || HastyDecision(s, step, id)
    ensures !Safe(Next(s, step), id, DoubtAfter(s, step, id, doubt))
  {
    var s' := Next(s, step);
    if StaleClaim(s, step, id, doubt) {
      HeldLater(s, step, step.worker, id);
      if Held(s, id) {
        var w :| Holds(s, w, id);
        OtherWorkers(s, step, w);
        assert Holds(s', w, id);
      }
    } else {
      var w :| Holds(s, w, id);
      OtherWorkers(s, step, w);
      assert Holds(s', w, id);
    }
  }

  lemma SafeStepIff(s: System, step: Step, id: nat, doubt: bool)
    requires Inv(s.tables) && Safe(s, id, doubt)
    ensures Safe(Next(s, step), id, DoubtAfter(s, step, id, doubt)) <==>
      !StaleClaim(s, step, id, doubt) && !HastyDecision(s, step, id)
  {
    if StaleClaim(s, step, id, doubt) || HastyDecision(s, step, id) {
      HazardBreaks(s, step, id, doubt);
    } else {
      SafeStepKeeps(s, step, id, doubt);
    }
  }

  // ----- runs -----------------------------------------------------------------------------

  /** No step so far was a stale claim of the row, or an operator's decision while it was held. */
  ghost predicate Careful(steps: seq<Step>, id: nat) {
    steps == [] ||
    var before, last := steps[..|steps| - 1], steps[|steps| - 1];
    && Careful(before, id)
    && !StaleClaim(Exec(START, before), last, id, InDoubt(before, id)) && !HastyDecision(Exec(START, before), last, id)
  }

  lemma {:induction false} SafeRun(steps: seq<Step>, id: nat)
    requires Careful(steps, id)
    ensures Safe(Exec(START, steps), id, InDoubt(steps, id))
  {
    if steps != [] {
      var before := steps[..|steps| - 1];
      SafeRun(before, id);
      InvRun(START, before);
      SafeStepKeeps(Exec(START, before), steps[|steps| - 1], id, InDoubt(before, id));
    }
  }

  /** In such runs no row is sent that is in doubt. */
  lemma DoubtfulRowsAreNotSent(steps: seq<Step>, send: Step, id: nat)
    requires Careful(steps, id) && Sends(Exec(START, steps), send, id)
    ensures !InDoubt(steps, id)
  {
    SafeRun(steps, id);
    assert Holds(Exec(START, steps), send.worker, id);
  }

  // ----- what such a step leads to -----------------------------------------------------------

  /** Within `n` steps of the workers alone the row is sent while in doubt. */
  ghost predicate SendsAgain(s: System, id: nat, doubt: bool, n: nat)
    decreases n
  {
    n > 0 && exists step ::
      OfWorker(step) &&
      ((doubt && Sends(s, step, id)) || SendsAgain(Next(s, step), id, DoubtAfter(s, step, id, doubt), n - 1))
  }

  lemma Prepend(s: System, step: Step, id: nat, doubt: bool, n: nat)
    requires OfWorker(step) && SendsAgain(Next(s, step), id, DoubtAfter(s, step, id, doubt), n)
    ensures SendsAgain(s, id, doubt, n + 1)
  {
  }

  /** The row can be sent as far as its owner is concerned. */
  ghost predicate Sendable(s: System, id: nat) {
    id in s.tables.outbox && OwnerAllows(s.tables, id)
  }

  lemma WorkersKeepSendable(s: System, step: Step, id: nat)
    requires Inv(s.tables) && OfWorker(step) && Sendable(s, id)
    ensures Inv(Next(s, step).tables) && Sendable(Next(s, step), id)
  {
    InvStep(s, step);
    OtherStepsKeepFences(s, step);
  }

  lemma Checks(s: System, w: WorkerId, id: nat, doubt: bool)
    requires Sendable(s, id) && WorkerAt(s, w).Claimed? && Holds(s, w, id)
    ensures
      var step := Check(w, 0, 0);
      && WorkerAt(Next(s, step), w) == Checked(id) && Next(s, step).tables == s.tables
      && DoubtAfter(s, step, id, doubt) == doubt
  {
  }

  lemma FreshClaim(s: System, x: WorkerId, id: nat, doubt: bool)
    requires id in s.tables.outbox && s.tables.outbox[id].status == Pending && x !in s.workers
    ensures
      var fetch, lease := Fetch(x, id, 0), Lease(x, 0);
      var s' := Next(Next(s, fetch), lease);
      && WorkerAt(s', x) == Claimed(id, Pending)
      && DoubtAfter(s, fetch, id, doubt) == doubt && DoubtAfter(Next(s, fetch), lease, id, doubt) == doubt
  {
  }

  lemma PutBack(s: System, w: WorkerId, id: nat, doubt: bool)
    requires id in s.tables.outbox && WorkerAt(s, w) == Answered(id, NotAccepted)
    ensures
      var step := Finish(w, s.tables.outbox[id].attempts + 2, 0);
      && id in Next(s, step).tables.outbox && Next(s, step).tables.outbox[id].status == Pending
      && DoubtAfter(s, step, id, doubt) == doubt
  {
  }

  lemma {:induction false} Above(workers: set<WorkerId>) returns (x: WorkerId)
    ensures forall w <- workers :: w < x
  {
    x := 0;
    if workers != {} {
      var w :| w in workers;
      var y := Above(workers - {w});
      x := if y > w then y else w + 1;
      assert forall u <- workers :: u == w || u in workers - {w};
    }
  }

  /** In doubt and in the hands of a worker that can send it. */
  lemma DoubtAndClaimed(s: System, w: WorkerId, id: nat)
    requires Inv(s.tables) && Sendable(s, id) && Holds(s, w, id) && !WorkerAt(s, w).Answered?
    ensures SendsAgain(s, id, true, 2)
  {
    if WorkerAt(s, w).Claimed? {
      Checks(s, w, id, true);
      var s' := Next(s, Check(w, 0, 0));
      assert Sends(s', Send(w, Accepted), id);
      assert SendsAgain(s', id, true, 1);
      Prepend(s, Check(w, 0, 0), id, true, 1);
    } else {
      assert Sends(s, Send(w, Accepted), id);
    }
  }

  /** In doubt and pending. */
  lemma DoubtAndPending(s: System, id: nat)
    requires Inv(s.tables) && Sendable(s, id) && s.tables.outbox[id].status == Pending
    ensures SendsAgain(s, id, true, 4)
  {
    var x := Above(s.workers.Keys);
    FreshClaim(s, x, id, true);
    var fetched := Next(s, Fetch(x, id, 0));
    WorkersKeepSendable(s, Fetch(x, id, 0), id);
    WorkersKeepSendable(fetched, Lease(x, 0), id);
    DoubtAndClaimed(Next(fetched, Lease(x, 0)), x, id);
    Prepend(fetched, Lease(x, 0), id, true, 2);
    Prepend(s, Fetch(x, id, 0), id, true, 3);
  }

  /** In doubt and held. */
  lemma DoubtAndHeld(s: System, w: WorkerId, id: nat)
    requires Inv(s.tables) && Sendable(s, id) && Holds(s, w, id)
    ensures exists n: nat :: SendsAgain(s, id, true, n)
  {
    if WorkerAt(s, w).Answered? {
      var step := Finish(w, s.tables.outbox[id].attempts + 2, 0);
      PutBack(s, w, id, true);
      WorkersKeepSendable(s, step, id);
      DoubtAndPending(Next(s, step), id);
      Prepend(s, step, id, true, 4);
    } else {
      DoubtAndClaimed(s, w, id);
    }
  }

  lemma SendIsDoubted(s: System, v: WorkerId, w: WorkerId, id: nat)
    requires WorkerAt(s, v) == Checked(id) && Holds(s, w, id) && v != w
    ensures
      var step := Send(v, Accepted);
      DoubtAfter(s, step, id, false) && Holds(Next(s, step), w, id)
  {
    OtherWorkers(s, Send(v, Accepted), w);
  }

  /** Held twice, by one that has yet to send it. */
  lemma HeldTwiceUnsent(s: System, v: WorkerId, w: WorkerId, id: nat)
    requires Inv(s.tables) && Sendable(s, id) && v != w && Holds(s, v, id) && Holds(s, w, id) && !WorkerAt(s, v).Answered?
    ensures exists n: nat :: SendsAgain(s, id, false, n)
  {
    var s', first := s, Check(v, 0, 0);
    if WorkerAt(s, v).Claimed? {
      Checks(s, v, id, false);
      OtherWorkers(s, first, w);
      WorkersKeepSendable(s, first, id);
      s' := Next(s, first);
    }
    SendIsDoubted(s', v, w, id);
    WorkersKeepSendable(s', Send(v, Accepted), id);
    DoubtAndHeld(Next(s', Send(v, Accepted)), w, id);
    var n: nat :| SendsAgain(Next(s', Send(v, Accepted)), id, true, n);
    Prepend(s', Send(v, Accepted), id, false, n);
    if s' != s {
      Prepend(s, first, id, false, n + 1);
    }
  }

  /** Another worker claims a pending row. */
  lemma SecondClaim(s: System, x: WorkerId, w: WorkerId, id: nat)
    requires Inv(s.tables) && Sendable(s, id) && s.tables.outbox[id].status == Pending
    requires Holds(s, w, id) && x !in s.workers
    ensures
      var s' := Next(Next(s, Fetch(x, id, 0)), Lease(x, 0));
      && Inv(s'.tables) && Sendable(s', id) && x != w
      && Holds(s', x, id) && WorkerAt(s', x).Claimed? && Holds(s', w, id)
  {
    FreshClaim(s, x, id, false);
    WorkersKeepSendable(s, Fetch(x, id, 0), id);
    WorkersKeepSendable(Next(s, Fetch(x, id, 0)), Lease(x, 0), id);
    OtherWorkers(s, Fetch(x, id, 0), w);
    OtherWorkers(Next(s, Fetch(x, id, 0)), Lease(x, 0), w);
  }

  /** Pending and held. */
  lemma PendingAndHeld(s: System, w: WorkerId, id: nat)
    requires Inv(s.tables) && Sendable(s, id) && s.tables.outbox[id].status == Pending && Holds(s, w, id)
    ensures exists n: nat :: SendsAgain(s, id, false, n)
  {
    var x := Above(s.workers.Keys);
    SecondClaim(s, x, w, id);
    FreshClaim(s, x, id, false);
    var fetched := Next(s, Fetch(x, id, 0));
    HeldTwiceUnsent(Next(fetched, Lease(x, 0)), x, w, id);
    var n: nat :| SendsAgain(Next(fetched, Lease(x, 0)), id, false, n);
    Prepend(fetched, Lease(x, 0), id, false, n);
    Prepend(s, Fetch(x, id, 0), id, false, n + 1);
  }

  lemma HeldTwice(s: System, v: WorkerId, w: WorkerId, id: nat)
    requires Inv(s.tables) && Sendable(s, id) && v != w && Holds(s, v, id) && Holds(s, w, id)
    ensures exists n: nat :: SendsAgain(s, id, false, n)
  {
    if !WorkerAt(s, v).Answered? {
      HeldTwiceUnsent(s, v, w, id);
    } else if !WorkerAt(s, w).Answered? {
      HeldTwiceUnsent(s, w, v, id);
    } else {
      var step := Finish(v, s.tables.outbox[id].attempts + 2, 0);
      PutBack(s, v, id, false);
      WorkersKeepSendable(s, step, id);
      OtherWorkers(s, step, w);
      PendingAndHeld(Next(s, step), w, id);
      var n: nat :| SendsAgain(Next(s, step), id, false, n);
      Prepend(s, step, id, false, n);
    }
  }

  /** Once the invariant is broken for a row its owner allows, the workers alone can send it while it is in doubt. */
  lemma UnsafeSendsAgain(s: System, id: nat, doubt: bool)
    requires Inv(s.tables) && Sendable(s, id) && !Safe(s, id, doubt)
    ensures exists n: nat :: SendsAgain(s, id, doubt, n)
  {
    if Held(s, id) {
      var w :| Holds(s, w, id);
      if doubt {
        DoubtAndHeld(s, w, id);
      } else if s.tables.outbox[id].status == Pending {
        PendingAndHeld(s, w, id);
      } else {
        var u, v :| Holds(s, u, id) && Holds(s, v, id) && u != v;
        HeldTwice(s, u, v, id);
      }
    } else {
      DoubtAndPending(s, id);
    }
  }

  /** So each such step does what the careful runs never do, as soon as its owner allows the row. */
  lemma HazardSendsAgain(steps: seq<Step>, step: Step, id: nat)
    requires Careful(steps, id) && Sendable(Exec(START, steps + [step]), id)
    requires
      var s := Exec(START, steps);
      StaleClaim(s, step, id, InDoubt(steps, id)) || HastyDecision(s, step, id)
    ensures exists n: nat :: SendsAgain(Exec(START, steps + [step]), id, InDoubt(steps + [step], id), n)
  {
    var s, all := Exec(START, steps), steps + [step];
    assert all[..|steps|] == steps;
    SafeRun(steps, id);
    InvRun(START, steps);
    InvRun(START, all);
    HazardBreaks(s, step, id, InDoubt(steps, id));
    UnsafeSendsAgain(Exec(START, all), id, InDoubt(all, id));
  }

  // ----- the relay by itself ----------------------------------------------------------------

  /** Two workers read the row; the first claims and sends it and dies, and when its lease is over the second does. */
  const TWICE: seq<Step> :=
    [Enqueue("k", "e", None, 1), Fetch(0, 0, 2), Fetch(1, 0, 2),
     Lease(0, 3), Check(0, 5, 4), Send(0, Accepted),
     Crash(0), Lease(1, 123), Check(1, 5, 124)]

  /** The unfenced row 0 and the two workers. */
  predicate Stage(s: System, status: Status, lease: Option<int>, first: Worker, second: Worker) {
    && 0 in s.tables.outbox && s.tables.outbox[0].fence == None
    && s.tables.outbox[0].status == status && s.tables.outbox[0].leaseExpires == lease
    && WorkerAt(s, 0) == first && WorkerAt(s, 1) == second
  }

  lemma RunNext(steps: seq<Step>, n: nat, id: nat)
    requires n < |steps|
    ensures Exec(START, steps[..n + 1]) == Next(Exec(START, steps[..n]), steps[n])
    ensures InDoubt(steps[..n + 1], id) <==> DoubtAfter(Exec(START, steps[..n]), steps[n], id, InDoubt(steps[..n], id))
  {
    assert steps[..n + 1][..n] == steps[..n];
    ExecUpTo(START, steps, n);
  }

  lemma TwiceEnqueued()
    ensures Stage(Exec(START, TWICE[..1]), Pending, None, Idle, Idle) && !InDoubt(TWICE[..1], 0)
  {
    assert Exec(START, TWICE[..0]) == START && !InDoubt(TWICE[..0], 0);
    RunNext(TWICE, 0, 0);
  }

  lemma TwiceFetched()
    ensures Stage(Exec(START, TWICE[..3]), Pending, None, Fetched(0, Pending), Fetched(0, Pending))
  {
    TwiceEnqueued();
    RunNext(TWICE, 1, 0);
    RunNext(TWICE, 2, 0);
  }

  lemma TwiceClaimed()
    ensures Stage(Exec(START, TWICE[..4]), InFlight, Some(123), Claimed(0, Pending), Fetched(0, Pending))
  {
    TwiceFetched();
    RunNext(TWICE, 3, 0);
  }

  lemma TwiceCleared()
    ensures Stage(Exec(START, TWICE[..5]), InFlight, Some(123), Checked(0), Fetched(0, Pending))
  {
    TwiceClaimed();
    RunNext(TWICE, 4, 0);
  }

  lemma TwiceSent()
    ensures Stage(Exec(START, TWICE[..6]), InFlight, Some(123), Answered(0, Accepted), Fetched(0, Pending))
    ensures InDoubt(TWICE[..6], 0)
  {
    TwiceCleared();
    RunNext(TWICE, 5, 0);
  }

  lemma TwiceDead()
    ensures Stage(Exec(START, TWICE[..7]), InFlight, Some(123), Idle, Fetched(0, Pending)) && InDoubt(TWICE[..7], 0)
  {
    TwiceSent();
    RunNext(TWICE, 6, 0);
  }

  lemma TwiceReclaimed()
    ensures Stage(Exec(START, TWICE[..8]), InFlight, Some(243), Idle, Claimed(0, Pending)) && InDoubt(TWICE[..8], 0)
  {
    TwiceDead();
    RunNext(TWICE, 7, 0);
  }

  lemma TwiceChecked()
    ensures Stage(Exec(START, TWICE[..9]), InFlight, Some(243), Idle, Checked(0)) && InDoubt(TWICE[..9], 0)
  {
    TwiceReclaimed();
    RunNext(TWICE, 8, 0);
  }

  /** The second send, with the first accepted and nobody asked. */
  lemma RelaySendsTwice(outcome: Outcome)
    ensures Sends(Exec(START, TWICE), Send(1, outcome), 0) && InDoubt(TWICE, 0) && !Careful(TWICE, 0)
  {
    TwiceChecked();
    assert TWICE[..9] == TWICE;
    if Careful(TWICE, 0) {
      DoubtfulRowsAreNotSent(TWICE, Send(1, outcome), 0);
    }
  }
}
