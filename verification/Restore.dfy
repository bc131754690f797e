/**
 Restoring a snapshot over the live database: copy to a temporary file, carry
 over what the live database was told to forget, verify, remove the live file,
 rename. Attempts may stop at any step and be repeated, with normal use between.
 The command does not ask for its copy to reach the disk: a copy that is not written
 to again does so at some time of its own, and a stop of the machine before that can
 spoil it, under either name.

 Either file may have a log beside it. Closing the last connection folds the log in,
 syncs the file and removes the log; it may fail to, or not be the last. The command
 removes and renames the main files only, and a log left beside a name is replayed
 into whatever file next opens under it.

 Trusted: verification passes complete files only; a snapshot is of a database that
 held nothing it had to forget; carrying tombstones over is one step that may fail.
*/
module Restore {
  import opened Wrappers

  type Item = nat

  /** Stored items, and the items that must never come back. */
  datatype Db = Db(rows: set<Item>, forgotten: set<Item>)

  datatype File = Absent | Unfinished | Complete(db: Db)

  datatype Phase = Clearing | Ready | Copying | Copied | Reapplied | Verified | LiveRemoved

  /** `replaced` is the live file when the attempt began. */
  datatype Attempt = Attempt(phase: Phase, from: Db, replaced: File)

  /**
   `live` and `temporary` are the files as they open, with the log beside them;
   `liveSynced` and `temporarySynced` say whether the file of that name survives a stop,
   `liveLog` and `temporaryLog` whether a log with content is beside the name;
   `owed` collects everything the live database was ever told to forget.
  */
  datatype System = System(
    live: File, liveSynced: bool, liveLog: bool, temporary: File, temporarySynced: bool, temporaryLog: bool,
    attempt: Option<Attempt>, owed: set<Item>)

  datatype Step =
    | Begin(from: Db, force: bool)
    | ClearTemporary(works: bool)
    | StartCopy
    | FinishCopy(works: bool)
    | CarryTombstones(works: bool, liveFolds: bool, temporaryFolds: bool)
    | Verify(passes: bool, temporaryFolds: bool)
    | RemoveLive(works: bool)
    | Rename(works: bool)
    | Crash                                           // the process ends
    | StopMachine(loseLive: bool, loseTemporary: bool)  // and with it files not yet on disk
    | Flush                                           // both files reach the disk
    | CloseLive                                       // the last user of the live database closes it
    | Insert(item: Item)
    | Forget(item: Item)

  function Carry(db: Db, forgotten: set<Item>): Db {
    Db(db.rows - forgotten, db.forgotten + forgotten)
  }

  predicate InPhase(s: System, phase: Phase) {
    s.attempt.Some? && s.attempt.value.phase == phase
  }

  function At(s: System, phase: Phase): System
    requires s.attempt.Some?
  {
    s.(attempt := Some(s.attempt.value.(phase := phase)))
  }

  function Stop(s: System): System {
    s.(attempt := None)
  }

  /**
   What opens under the live name once the temporary main file has it: a log of the old file is replayed
   into it, and what is still in the temporary file's log is left behind.
  */
  function Installed(s: System): File
    requires s.attempt.Some?
  {
    if s.liveLog then Unfinished
    else if s.temporaryLog then Complete(s.attempt.value.from)
    else s.temporary
  }

  function Next(s: System, step: Step): System {
    match step
    case Begin(from, force) =>
      if s.attempt.Some? || !(from.rows !! from.forgotten) || (s.live != Absent && !force) then s
      else s.(attempt := Some(Attempt(Clearing, from, s.live)))
    case ClearTemporary(works) =>
      if !InPhase(s, Clearing) then s
      else if s.temporary == Absent || works then At(s.(temporary := Absent), Ready)
      else Stop(s)
    case StartCopy => if !InPhase(s, Ready) then s else At(s.(temporary := Unfinished, temporarySynced := false), Copying)
    case FinishCopy(works) =>
      if !InPhase(s, Copying) then s
      else if works then
        At(s.(temporary := if s.temporaryLog then Unfinished else Complete(s.attempt.value.from), temporarySynced := false),
           Copied)
      else Stop(s)
    case CarryTombstones(works, liveFolds, temporaryFolds) =>
      if !InPhase(s, Copied) then s
      else if s.live == Absent then At(s, Reapplied)
      else if !s.live.Complete? then Stop(s)
      else
        var closed := s.(liveLog := s.liveLog && !liveFolds);
        if !s.temporary.Complete? then Stop(closed.(temporaryLog := s.temporaryLog && !temporaryFolds))
        else if !works then Stop(closed.(temporary := Unfinished, temporaryLog := !temporaryFolds))
        else
          var carried := Carry(s.temporary.db, s.live.db.forgotten);
          var changed := carried != s.temporary.db;
          At(closed.(temporary := Complete(carried), temporaryLog := changed && !temporaryFolds,
                     temporarySynced := if changed then temporaryFolds else s.temporarySynced),
             Reapplied)
    case Verify(passes, temporaryFolds) =>
      if !InPhase(s, Reapplied) then s
      else
        var closed :=
          s.(temporaryLog := s.temporaryLog && !temporaryFolds,
             temporarySynced := s.temporarySynced || (s.temporaryLog && temporaryFolds));
        if passes && s.temporary.Complete? then At(closed, Verified) else Stop(closed)
    case RemoveLive(works) =>
      if !InPhase(s, Verified) then s
      else if works then At(s.(live := Absent), LiveRemoved)
      else Stop(s)
    case Rename(works) =>
      if !InPhase(s, LiveRemoved) then s
      else if works then Stop(s.(live := Installed(s), liveSynced := s.temporarySynced, temporary := Absent))
      else Stop(s)
    case Crash => Stop(s)
    case StopMachine(loseLive, loseTemporary) =>
      Stop(s.(live := if loseLive && !s.liveSynced && s.live.Complete? then Unfinished else s.live,
              temporary :=
                if loseTemporary && !s.temporarySynced && s.temporary.Complete? then Unfinished else s.temporary))
    case Flush => s.(liveSynced := true, temporarySynced := true)
    case CloseLive => if s.live.Complete? then s.(liveLog := false) else s
    case Insert(item) =>
      if s.attempt.None? && s.live.Complete? && item !in s.live.db.forgotten then
        s.(live := Complete(s.live.db.(rows := s.live.db.rows + {item})), liveLog := true)
      else s
    case Forget(item) =>
      if s.attempt.None? && s.live.Complete? then
        s.(live := Complete(Carry(s.live.db, {item})), liveLog := true, owed := s.owed + {item})
      else s
  }

  function Exec(s: System, steps: seq<Step>): System {
    if steps == [] then s else Next(Exec(s, steps[..|steps| - 1]), steps[|steps| - 1])
  }

  // ----- one attempt ---------------------------------------------------------------------

  /** What the attempt is to install. */
  function Restored(a: Attempt): Db {
    if a.replaced.Complete? then Carry(a.from, a.replaced.db.forgotten) else a.from
  }

  /** The old live file, or the finished temporary file, is on disk. */
  predicate AttemptInv(s: System) {
    s.attempt.Some? ==>
      var a := s.attempt.value;
      && a.from.rows !! a.from.forgotten
      && (a.phase != LiveRemoved ==> s.live == a.replaced)
      && (a.phase == LiveRemoved ==> s.live == Absent)
      && (a.phase == Ready ==> s.temporary == Absent)
      && (a.phase == Copying ==> s.temporary == Unfinished)
      && (a.phase == Copied ==> s.temporary == Unfinished || (s.temporary == Complete(a.from) && !s.temporaryLog))
      && (a.phase == Reapplied ==> s.temporary == Complete(Restored(a)) || (s.temporary == Unfinished && a.replaced == Absent))
      && (a.phase in {Verified, LiveRemoved} ==> s.temporary == Complete(Restored(a)))
      && (a.phase in {Reapplied, Verified, LiveRemoved} ==>
            && a.replaced != Unfinished
            && (s.temporary.Complete? && s.temporaryLog ==> a.replaced.Complete? && Restored(a) != a.from))
  }

  lemma AttemptInvStep(s: System, step: Step)
    requires AttemptInv(s)
    ensures AttemptInv(Next(s, step))
  {
  }

  lemma {:induction false} AttemptInvRun(s: System, steps: seq<Step>)
    requires AttemptInv(s)
    ensures AttemptInv(Exec(s, steps))
  {
    if steps != [] {
      AttemptInvRun(s, steps[..|steps| - 1]);
      AttemptInvStep(Exec(s, steps[..|steps| - 1]), steps[|steps| - 1]);
    }
  }

  /** The old live file as it was, or the finished restored database under either name. */
  predicate Kept(s: System, a: Attempt) {
    s.live == a.replaced || s.temporary == Complete(Restored(a)) || s.live == Complete(Restored(a))
  }

  /** A log of the file to be replaced, or one holding what was carried over, is left for the rename. */
  predicate LogLeft(s: System) {
    s.liveLog || s.temporaryLog
  }

  /** The step that installs the restored file. */
  predicate Installs(s: System, step: Step) {
    InPhase(s, LiveRemoved) && step == Rename(true)
  }

  /**
   At every point of a run, an attempt over a live database has on disk either that
   database or the finished restored one, also if its process ends there, with one
   exception: it is installed while a log is left.
  */
  lemma AttemptNeverLoses(s: System, steps: seq<Step>, step: Step)
    requires AttemptInv(s) && !step.StopMachine?
    requires Exec(s, steps).attempt.Some? && Exec(s, steps).attempt.value.replaced.Complete?
    ensures
      var before, a := Exec(s, steps), Exec(s, steps).attempt.value;
      Kept(before, a) && (Kept(Next(before, step), a) <==> !(Installs(before, step) && LogLeft(before)))
  {
    AttemptInvRun(s, steps);
    StepKeeps(Exec(s, steps), step);
  }

  lemma StepKeeps(s: System, step: Step)
    requires AttemptInv(s) && s.attempt.Some? && s.attempt.value.replaced.Complete? && !step.StopMachine?
    ensures
      var a := s.attempt.value;
      Kept(s, a) && (Kept(Next(s, step), a) <==> !(Installs(s, step) && LogLeft(s)))
  {
  }

  /**
   A finished attempt leaves the restored database complete, with everything the old one had to forget left
   out, exactly if neither log is left: that of the replaced file and that of the temporary one.
  */
  lemma FinishedInstallsIff(s: System, steps: seq<Step>)
    requires AttemptInv(s) && InPhase(Exec(s, steps), LiveRemoved)
    ensures
      var before, a := Exec(s, steps), Exec(s, steps).attempt.value;
      var live := Next(before, Rename(true)).live;
      && (live == Complete(Restored(a)) <==> !LogLeft(before))
      && (!LogLeft(before) && a.replaced.Complete? ==>
            a.replaced.db.forgotten <= live.db.forgotten && live.db.rows !! a.replaced.db.forgotten)
  {
    AttemptInvRun(s, steps);
  }

  /** What a stop of the machine during the attempt cannot spoil. */
  predicate OnDisk(s: System, a: Attempt) {
    || (s.live == a.replaced && s.liveSynced)
    || (s.temporary == Complete(Restored(a)) && s.temporarySynced)
    || (s.live == Complete(Restored(a)) && s.liveSynced)
  }

  /** Stops of the machine leave one of the two exactly if one of them is on disk. */
  lemma StopKeepsIff(s: System, steps: seq<Step>)
    requires AttemptInv(s)
    requires Exec(s, steps).attempt.Some? && Exec(s, steps).attempt.value.replaced.Complete?
    ensures
      var before, a := Exec(s, steps), Exec(s, steps).attempt.value;
      (forall loseLive, loseTemporary :: Kept(Next(before, StopMachine(loseLive, loseTemporary)), a)) <==> OnDisk(before, a)
  {
    AttemptInvRun(s, steps);
    var before, a := Exec(s, steps), Exec(s, steps).attempt.value;
    if !OnDisk(before, a) {
      assert !Kept(Next(before, StopMachine(true, true)), a);
    }
  }

  /**
   With the old live file on disk, removing it is what can bring the attempt out of that state: it stays in it
   exactly if the finished temporary file is on disk by then, and over the rename if no log is left besides.
  */
  lemma RemovalKeepsIff(s: System, steps: seq<Step>)
    requires AttemptInv(s) && InPhase(Exec(s, steps), Verified) && Exec(s, steps).attempt.value.replaced.Complete?
    ensures
      var before, a := Exec(s, steps), Exec(s, steps).attempt.value;
      && (OnDisk(Next(before, RemoveLive(true)), a) <==> before.temporarySynced)
      && (OnDisk(Next(Next(before, RemoveLive(true)), Rename(true)), a) <==> before.temporarySynced && !LogLeft(before))
  {
    AttemptInvRun(s, steps);
  }

  /** No other step of an attempt does. */
  lemma OtherStepsStayOnDisk(s: System, steps: seq<Step>, step: Step)
    requires AttemptInv(s) && step != RemoveLive(true) && step != Rename(true)
    requires Exec(s, steps).attempt.Some? && Exec(s, steps).attempt.value.replaced.Complete?
    requires Exec(s, steps).liveSynced || InPhase(Exec(s, steps), LiveRemoved)
    requires OnDisk(Exec(s, steps), Exec(s, steps).attempt.value)
    ensures OnDisk(Next(Exec(s, steps), step), Exec(s, steps).attempt.value)
  {
    AttemptInvRun(s, steps);
    StepStaysOnDisk(Exec(s, steps), step);
  }

  lemma StepStaysOnDisk(s: System, step: Step)
    requires AttemptInv(s) && step != RemoveLive(true) && step != Rename(true)
    requires s.attempt.Some? && s.attempt.value.replaced.Complete? && (s.liveSynced || InPhase(s, LiveRemoved))
    requires OnDisk(s, s.attempt.value)
    ensures OnDisk(Next(s, step), s.attempt.value)
  {
  }

  // ----- repeated attempts -----------------------------------------------------------------

  /** A complete database is on disk, live or waiting under the temporary name. */
  predicate HasDatabase(s: System) {
    s.live.Complete? || s.temporary.Complete?
  }

  /** A stop that spoils every complete database there is. */
  predicate SpoilsAll(s: System, step: Step) {
    step.StopMachine?
    && (s.live.Complete? ==> step.loseLive && !s.liveSynced)
    && (s.temporary.Complete? ==> step.loseTemporary && !s.temporarySynced)
  }

  /**
   Exactly three kinds of step give up the last complete database: clearing the temporary file with none live,
   such a stop of the machine, and installing beside a log of the replaced file.
  */
  lemma LosesDatabaseIff(s: System, step: Step)
    requires AttemptInv(s) && HasDatabase(s)
    ensures HasDatabase(Next(s, step)) <==>
      && !(InPhase(s, Clearing) && step == ClearTemporary(true) && !s.live.Complete?)
      && !SpoilsAll(s, step) && !(Installs(s, step) && s.liveLog)
  {
  }

  /** Nothing the live database was told to forget is in it. */
  predicate Honoured(s: System) {
    s.live.Complete? ==> s.owed <= s.live.db.forgotten && s.live.db.rows !! s.live.db.forgotten
  }

  /** The same for what the attempt under way will install. */
  predicate WillHonour(s: System) {
    s.attempt.Some? && s.attempt.value.replaced != Unfinished ==>
      && s.owed <= Restored(s.attempt.value).forgotten
      && s.attempt.value.from.rows !! s.attempt.value.from.forgotten
  }

  /**
   An attempt starts with a live file, or from a snapshot that already knows what is owed; and what was carried
   over is in the main file when it is installed, or was known to the snapshot.
  */
  predicate Informed(s: System, step: Step) {
    && (step.Begin? && Next(s, step) != s ==> s.live != Absent || s.owed <= step.from.forgotten)
    && (Installs(s, step) && s.temporaryLog ==> s.owed <= s.attempt.value.from.forgotten)
  }

  lemma HonouredStep(s: System, step: Step)
    requires AttemptInv(s) && Honoured(s) && WillHonour(s) && Informed(s, step)
    ensures Honoured(Next(s, step)) && WillHonour(Next(s, step))
  {
    if s.attempt.Some? {
      AttemptHonours(s, step);
    }
  }

  lemma AttemptHonours(s: System, step: Step)
    requires AttemptInv(s) && Honoured(s) && WillHonour(s) && Informed(s, step) && s.attempt.Some?
    ensures Honoured(Next(s, step)) && WillHonour(Next(s, step))
  {
  }

  /** If every attempt begins and installs informed, forgotten items never return, in any run. */
  lemma {:induction false} HonouredRun(s: System, steps: seq<Step>)
    requires AttemptInv(s) && Honoured(s) && WillHonour(s)
    requires forall n :: 0 <= n < |steps| ==> Informed(Exec(s, steps[..n]), steps[n])
    ensures Honoured(Exec(s, steps)) && WillHonour(Exec(s, steps))
  {
    if steps != [] {
      var before := steps[..|steps| - 1];
      forall n | 0 <= n < |before| ensures Informed(Exec(s, before[..n]), before[n]) {
        assert before[..n] == steps[..n];
      }
      HonouredRun(s, before);
      AttemptInvRun(s, before);
      HonouredStep(Exec(s, before), steps[|steps| - 1]);
    }
  }

  /**
   A finished attempt whose live file opens keeps the promise exactly when its snapshot knew what is owed, or it
   began with a live file and what was carried over from that is not left in a log.
  */
  lemma FinishedHonoursIff(s: System)
    requires AttemptInv(s) && InPhase(s, LiveRemoved)
    requires s.attempt.value.replaced.Complete? ==> s.owed <= s.attempt.value.replaced.db.forgotten
    ensures
      var a := s.attempt.value;
      Honoured(Next(s, Rename(true))) <==>
        s.liveLog || s.owed <= a.from.forgotten || (a.replaced.Complete? && !s.temporaryLog)
  {
  }

  // ----- the repeated attempt that forgets to forget ------------------------------------------

  function CopySteps(from: Db): seq<Step> {
    [Begin(from, true), ClearTemporary(true), StartCopy, FinishCopy(true)]
  }

  /** How the closes of the two files by the command turn out. */
  function InstallSteps(liveFolds: bool, temporaryFolds: bool): seq<Step> {
    [CarryTombstones(true, liveFolds, temporaryFolds), Verify(true, temporaryFolds)] + [RemoveLive(true)]
  }

  function AttemptWith(from: Db, liveFolds: bool, temporaryFolds: bool): seq<Step> {
    CopySteps(from) + InstallSteps(liveFolds, temporaryFolds)
  }

  function FullAttempt(from: Db): seq<Step> {
    AttemptWith(from, true, true)
  }

  lemma {:induction false} ExecAppend(s: System, a: seq<Step>, b: seq<Step>)
    ensures Exec(s, a + b) == Exec(Exec(s, a), b)
  {
    if b == [] {
      assert a + b == a;
    } else {
      assert (a + b)[..|a + b| - 1] == a + b[..|b| - 1];
      ExecAppend(s, a, b[..|b| - 1]);
    }
  }

  lemma ExecOne(s: System, step: Step)
    ensures Exec(s, [step]) == Next(s, step)
  {
    assert [step][..0] == [];
  }

  lemma ExecTwo(s: System, a: Step, b: Step)
    ensures Exec(s, [a, b]) == Next(Next(s, a), b)
  {
    ExecOne(s, a);
    assert [a, b][..1] == [a];
  }

  lemma CopyResult(s: System, from: Db)
    requires s.attempt.None? && s.live != Unfinished && !s.temporaryLog && from.rows !! from.forgotten
    ensures Exec(s, CopySteps(from)) ==
      s.(temporary := Complete(from), temporarySynced := false, attempt := Some(Attempt(Copied, from, s.live)))
  {
    var ready := s.(temporary := Absent, attempt := Some(Attempt(Ready, from, s.live)));
    ExecTwo(s, Begin(from, true), ClearTemporary(true));
    ExecTwo(ready, StartCopy, FinishCopy(true));
    ExecAppend(s, [Begin(from, true), ClearTemporary(true)], [StartCopy, FinishCopy(true)]);
    assert [Begin(from, true), ClearTemporary(true)] + [StartCopy, FinishCopy(true)] == CopySteps(from);
  }

  lemma InstallResult(s: System, liveFolds: bool, temporaryFolds: bool)
    requires AttemptInv(s) && InPhase(s, Copied) && s.live != Unfinished && s.temporary == Complete(s.attempt.value.from)
    requires !s.temporarySynced
    ensures
      var a, after := s.attempt.value.(phase := LiveRemoved), Exec(s, InstallSteps(liveFolds, temporaryFolds));
      var changed := Restored(a) != a.from;
      after == s.(live := Absent, temporary := Complete(Restored(a)), attempt := Some(a),
                  liveLog := s.liveLog && (!liveFolds || !s.live.Complete?),
                  temporaryLog := changed && !temporaryFolds, temporarySynced := changed && temporaryFolds)
  {
    var carry, verify := CarryTombstones(true, liveFolds, temporaryFolds), Verify(true, temporaryFolds);
    ExecTwo(s, carry, verify);
    ExecOne(Next(Next(s, carry), verify), RemoveLive(true));
    ExecAppend(s, [carry, verify], [RemoveLive(true)]);
  }

  /** One attempt up to the removal of the live file. */
  lemma AttemptResult(s: System, from: Db, liveFolds: bool, temporaryFolds: bool)
    requires AttemptInv(s) && s.attempt.None? && s.live != Unfinished && !s.temporaryLog && from.rows !! from.forgotten
    ensures
      var a := Attempt(LiveRemoved, from, s.live);
      var changed := Restored(a) != from;
      Exec(s, AttemptWith(from, liveFolds, temporaryFolds)) ==
        s.(live := Absent, temporary := Complete(Restored(a)), attempt := Some(a),
           liveLog := s.liveLog && (!liveFolds || !s.live.Complete?),
           temporaryLog := changed && !temporaryFolds, temporarySynced := changed && temporaryFolds)
  {
    CopyResult(s, from);
    InstallResult(Exec(s, CopySteps(from)), liveFolds, temporaryFolds);
    ExecAppend(s, CopySteps(from), InstallSteps(liveFolds, temporaryFolds));
  }

  /** A live database on disk that has forgotten what it was told to, and nothing else. */
  function InUse(live: Db): System {
    System(Complete(live), true, false, Absent, false, false, None, live.forgotten)
  }

  /**
   With nothing to carry over, nothing makes the copy reach the disk: a stop of the machine after the removal of
   the live file can lose both.
  */
  lemma StopAfterRemovalLoses(from: Db, live: Db, loseLive: bool)
    requires from.rows !! from.forgotten && live.forgotten <= from.forgotten
    ensures
      var s := Exec(InUse(live), FullAttempt(from));
      AttemptInv(InUse(live)) && HasDatabase(s) && !HasDatabase(Next(s, StopMachine(loseLive, true)))
  {
    AttemptResult(InUse(live), from, true, true);
    assert Carry(from, live.forgotten) == from;
  }

  /** And the retry after a mere crash there starts by giving up the only database. */
  lemma RetryGivesUpLastDatabase(from: Db, live: Db)
    requires from.rows !! from.forgotten
    ensures
      var crashed := Next(Exec(InUse(live), FullAttempt(from)), Crash);
      HasDatabase(crashed) && !HasDatabase(Next(Next(crashed, Begin(from, true)), ClearTemporary(true)))
  {
    AttemptResult(InUse(live), from, true, true);
  }

  /**
   A crash between removing the live file and renaming, followed by one complete
   retry, brings back every item of the snapshot the live database had forgotten.
  */
  lemma RetryAfterCrashRevives(from: Db, live: Db)
    requires from.rows !! from.forgotten
    ensures
      var s := InUse(live);
      var crashed := Next(Exec(s, FullAttempt(from)), Crash);
      var retried := Next(Exec(crashed, FullAttempt(from)), Rename(true));
      && crashed.temporary == Complete(Carry(from, live.forgotten))
      && retried.live == Complete(from)
      && (from.rows * live.forgotten != {} ==> !Honoured(retried))
  {
    var s := InUse(live);
    AttemptResult(s, from, true, true);
    var crashed := Next(Exec(s, FullAttempt(from)), Crash);
    AttemptResult(crashed, from, true, true);
  }

  /** While another process has the live file its log outlives it, and is replayed into the restored one. */
  lemma OldLogSpoilsRestore(from: Db, live: Db)
    requires from.rows !! from.forgotten
    ensures
      var s := InUse(live).(liveLog := true);
      var after := Next(Exec(s, AttemptWith(from, false, true)), Rename(true));
      AttemptInv(s) && after.attempt.None? && after.live == Unfinished && !HasDatabase(after)
  {
    AttemptResult(InUse(live).(liveLog := true), from, false, true);
  }

  /** And where closing the temporary file leaves its log, what was carried over stays behind in it. */
  lemma LogKeepsTombstones(from: Db, live: Db)
    requires from.rows !! from.forgotten && from.rows * live.forgotten != {}
    ensures
      var after := Next(Exec(InUse(live), AttemptWith(from, true, false)), Rename(true));
      after.attempt.None? && after.live == Complete(from) && !Honoured(after)
  {
    AttemptResult(InUse(live), from, true, false);
    assert Carry(from, live.forgotten).rows != from.rows;
  }
}
