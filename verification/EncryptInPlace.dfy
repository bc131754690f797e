/**
 Encrypting a plaintext database in place: a backup and a staged encrypted copy
 made through one connection to the source, the backup verified and synced, and
 the copy installed by one rename (POSIX) or by two (Windows).  Every step can
 fail; the machine can stop between any two.

 Opening the source switches it to write-ahead logging; closing the last
 connection to it folds the log into the file and removes it, unless that fails
 or another process still has the file.

 Trusted: a verified file is complete; a synced file survives a stop.
*/
module EncryptInPlace {
  import opened Wrappers

  datatype Platform = Posix | Windows

  /** Complete files hold the same committed content, in the clear or encrypted. */
  datatype File = Absent | Unfinished | Plain | Encrypted

  datatype Phase =
    | Ready | Opened | Checked | BackingUp | BackedUp | Exporting | Exported | Closed | BackupVerified | BackupSynced
    | StagingVerified | StagingSynced | Clean | Displaced | Installed | Finished | Failed | Refused

  /**
   `walMode` is the journal mode in the live file's header, `sidecar` the log
   beside it, `needed` whether the live file is incomplete without that log.
  */
  datatype Disk = Disk(
    live: File, walMode: bool, needed: bool, sidecar: bool, backup: File, backupSynced: bool,
    staging: File, stagingSynced: bool, displaced: File)

  /** `open` while the command has its connection to the source. */
  datatype System = System(disk: Disk, phase: Phase, open: bool)

  datatype Step =
    | OpenSource(works: bool) | CheckSource(passes: bool)
    | StartBackup | FinishBackup(works: bool)
    | StartExport | FinishExport(works: bool)
    | CloseSource(checkpointed: bool)  // also after a failure, when the connection is dropped
    | VerifyBackup(passes: bool) | SyncBackup(works: bool)
    | VerifyStaging(passes: bool) | SyncStaging(works: bool)
    | RemoveSidecars(works: bool, logGone: bool)
    | Rename(works: bool)              // POSIX: staging replaces live
    | Displace(works: bool)            // Windows: live moves aside
    | Install(works: bool, undoWorks: bool)
    | RemoveDisplaced(works: bool)
    | StopMachine(loseBackup: bool, loseStaging: bool)

  /** A failed conversion removes its staging file. */
  function Fail(s: System): System {
    s.(disk := s.disk.(staging := Absent), phase := Failed)
  }

  predicate Running(s: System) {
    s.phase != Finished && s.phase != Failed && s.phase != Refused
  }

  function Next(platform: Platform, s: System, step: Step): System {
    var d := s.disk;
    match step
    case OpenSource(works) =>
      if s.phase != Ready then s
      else if d.backup != Absent || d.live != Plain then s.(phase := Refused)
      else if works then System(d.(walMode := true, sidecar := true), Opened, true)
      else Fail(s)
    case CheckSource(passes) => if s.phase != Opened then s else if passes then s.(phase := Checked) else Fail(s)
    case StartBackup => if s.phase != Checked then s else s.(disk := d.(backup := Unfinished), phase := BackingUp)
    case FinishBackup(works) =>
      if s.phase != BackingUp then s else if works then s.(disk := d.(backup := Plain), phase := BackedUp) else Fail(s)
    case StartExport => if s.phase != BackedUp then s else s.(disk := d.(staging := Unfinished), phase := Exporting)
    case FinishExport(works) =>
      if s.phase != Exporting then s
      else if works then s.(disk := d.(staging := Encrypted), phase := Exported) else Fail(s)
    case CloseSource(checkpointed) =>
      if !s.open || (s.phase != Exported && s.phase != Failed) then s
      else
        System(if checkpointed then d.(needed := false, sidecar := false) else d,
               if s.phase == Exported then Closed else Failed, false)
    case VerifyBackup(passes) =>
      if s.phase != Closed then s
      else if passes && d.backup == Plain then s.(phase := BackupVerified) else Fail(s)
    case SyncBackup(works) =>
      if s.phase != BackupVerified then s
      else if works then s.(disk := d.(backupSynced := true), phase := BackupSynced) else Fail(s)
    case VerifyStaging(passes) =>
      if s.phase != BackupSynced then s
      else if passes && d.staging == Encrypted then s.(phase := StagingVerified) else Fail(s)
    case SyncStaging(works) =>
      if s.phase != StagingVerified then s
      else if works then s.(disk := d.(stagingSynced := true), phase := StagingSynced) else Fail(s)
    case RemoveSidecars(works, logGone) =>
      if s.phase != StagingSynced then s
      else if works then s.(disk := d.(sidecar := false), phase := Clean)
      else Fail(s.(disk := d.(sidecar := d.sidecar && !logGone)))
    case Rename(works) =>
      if platform != Posix || s.phase != Clean then s
      else if works then s.(disk := d.(live := d.staging, staging := Absent), phase := Finished) else Fail(s)
    case Displace(works) =>
      if platform != Windows || s.phase != Clean then s
      else if works then s.(disk := d.(displaced := d.live, live := Absent), phase := Displaced) else Fail(s)
    case Install(works, undoWorks) =>
      if s.phase != Displaced then s
      else if works then s.(disk := d.(live := d.staging, staging := Absent), phase := Installed)
      else if undoWorks then Fail(s.(disk := d.(live := d.displaced, displaced := Absent)))
      else Fail(s)
    case RemoveDisplaced(works) =>
      if s.phase != Installed then s
      else if works then s.(disk := d.(displaced := Absent), phase := Finished) else Fail(s)
    case StopMachine(loseBackup, loseStaging) =>
      if !Running(s) then s
      else
        System(
          d.(backup := if loseBackup && !d.backupSynced && d.backup != Absent then Unfinished else d.backup,
             staging := if loseStaging && !d.stagingSynced && d.staging != Absent then Unfinished else d.staging),
          Failed, false)
  }

  function Exec(platform: Platform, s: System, steps: seq<Step>): System {
    if steps == [] then s else Next(platform, Exec(platform, s, steps[..|steps| - 1]), steps[|steps| - 1])
  }

  /** A plaintext database, complete with its log if it has one, and no other file in the way. */
  predicate Convertible(start: Disk) {
    start.live == Plain && start.displaced == Absent && (start.needed ==> start.sidecar)
  }

  function Begin(start: Disk): System {
    System(start, Ready, false)
  }

  // ----- what is never lost ---------------------------------------------------------------

  /** The source is still the plaintext file, with the log if it is not complete without it. */
  predicate SourceKept(d: Disk, start: Disk) {
    d.live == Plain && (d.needed ==> start.needed && d.sidecar)
  }

  predicate BackupSafe(d: Disk) {
    d.backup == Plain && d.backupSynced
  }

  /** The live path opens as a complete database. */
  predicate LiveComplete(d: Disk) {
    d.live == Encrypted || (d.live == Plain && (d.needed ==> d.sidecar))
  }

  predicate BeforeSync(phase: Phase) {
    phase in {Ready, Opened, Checked, BackingUp, BackedUp, Exporting, Exported, Closed, BackupVerified}
  }

  predicate Inv(s: System, start: Disk) {
    var d := s.disk;
    && (d.needed ==> start.needed)
    && (SourceKept(d, start) || BackupSafe(d))
    && (s.open ==> SourceKept(d, start) && d.sidecar
                   && s.phase in {Opened, Checked, BackingUp, BackedUp, Exporting, Exported, Failed})
    && (s.phase in {BackedUp, Exporting, Exported, Closed, BackupVerified} ==> d.backup == Plain)
    && (BeforeSync(s.phase) ==> SourceKept(d, start))
    && (s.phase in {BackupSynced, StagingVerified, StagingSynced, Clean, Displaced, Installed, Finished} ==> BackupSafe(d))
    && (s.phase in {BackupSynced, StagingVerified, StagingSynced, Clean} ==> d.live == Plain)
    && (s.phase in {StagingVerified, StagingSynced, Clean, Displaced} ==> d.staging == Encrypted)
    && (s.phase !in {Displaced, Installed, Failed, Refused} ==> d.displaced == Absent)
    && d.live != Unfinished && d.displaced != Unfinished
    && (s.phase == Displaced ==> d.displaced == Plain && d.live == Absent)
    && (s.phase in {Installed, Finished} ==> d.live == Encrypted)
  }

  /** The steps taken while the source is open. */
  predicate OnSource(step: Step) {
    || step.OpenSource? || step.CheckSource? || step.StartBackup? || step.FinishBackup? || step.StartExport?
    || step.FinishExport? || step.CloseSource?
  }

  lemma SourceStep(platform: Platform, s: System, step: Step, start: Disk)
    requires Inv(s, start) && OnSource(step)
    ensures Inv(Next(platform, s, step), start)
  {
  }

  lemma LaterStep(platform: Platform, s: System, step: Step, start: Disk)
    requires Inv(s, start) && !OnSource(step)
    ensures Inv(Next(platform, s, step), start)
  {
  }

  lemma InvStep(platform: Platform, s: System, step: Step, start: Disk)
    requires Inv(s, start)
    ensures Inv(Next(platform, s, step), start)
  {
    if OnSource(step) {
      SourceStep(platform, s, step, start);
    } else {
      LaterStep(platform, s, step, start);
    }
  }

  lemma {:induction false} InvRun(platform: Platform, start: Disk, steps: seq<Step>)
    requires Convertible(start)
    ensures Inv(Exec(platform, Begin(start), steps), start)
  {
    if steps != [] {
      InvRun(platform, start, steps[..|steps| - 1]);
      InvStep(platform, Exec(platform, Begin(start), steps[..|steps| - 1]), steps[|steps| - 1], start);
    }
  }

  /**
   Wherever the conversion stops or fails, on either platform: the live path is a
   complete database, or the plaintext backup is complete and synced; and a
   finished conversion leaves the encrypted database live beside that backup.
  */
  lemma DatabaseNeverLost(platform: Platform, start: Disk, steps: seq<Step>)
    requires Convertible(start)
    ensures
      var s := Exec(platform, Begin(start), steps);
      && (LiveComplete(s.disk) || BackupSafe(s.disk))
      && (s.phase == Finished ==> s.disk.live == Encrypted && LiveComplete(s.disk) && BackupSafe(s.disk))
  {
    InvRun(platform, start, steps);
  }

  /** Until the backup is verified and synced the live path is the complete plaintext database. */
  lemma SourceWaitsForBackup(platform: Platform, start: Disk, steps: seq<Step>)
    requires Convertible(start)
    ensures
      var s := Exec(platform, Begin(start), steps);
      !BackupSafe(s.disk) ==> SourceKept(s.disk, start) && LiveComplete(s.disk)
  {
    InvRun(platform, start, steps);
  }

  // ----- what is left over --------------------------------------------------------------------

  /**
   Nothing of the conversion is left where it ended in the process itself, but the backup; and the source under its
   other name only if it is not in its place.
  */
  predicate Tidy(s: System) {
    var d := s.disk;
    && (s.phase == Failed ==> d.staging == Absent)
    && (s.phase in {Clean, Displaced, Installed, Finished} ==> !d.sidecar)
    && (s.phase in {Installed, Finished} ==> d.staging == Absent)
    && (s.phase !in {Displaced, Installed, Failed} || d.live == Plain ==> d.displaced == Absent)
  }

  lemma TidyStep(platform: Platform, s: System, step: Step, start: Disk)
    requires Tidy(s) && Inv(s, start) && !step.StopMachine?
    ensures Tidy(Next(platform, s, step))
  {
  }

  /** A backup that breaks off is left as it is. */
  lemma BrokenBackupStays(platform: Platform, s: System)
    requires s.phase == Checked
    ensures
      var s' := Next(platform, Next(platform, s, StartBackup), FinishBackup(false));
      s'.phase == Failed && s'.disk.backup == Unfinished
  {
  }

  /** Once a backup has begun, whatever comes of the attempt, a later one refuses its path and changes nothing. */
  lemma {:induction false} RetryIsRefused(platform: Platform, s: System, more: seq<Step>, works: bool)
    requires s.phase == Checked
    ensures
      var d := Exec(platform, Next(platform, s, StartBackup), more).disk;
      d.backup != Absent && Next(platform, Begin(d), OpenSource(works)) == Begin(d).(phase := Refused)
  {
    if more != [] {
      RetryIsRefused(platform, s, more[..|more| - 1], works);
      BackupStays(platform, Exec(platform, Next(platform, s, StartBackup), more[..|more| - 1]), more[|more| - 1]);
    }
  }

  lemma BackupStays(platform: Platform, s: System, step: Step)
    requires s.disk.backup != Absent
    ensures Next(platform, s, step).disk.backup != Absent
  {
    if OnSource(step) {
      BackupStaysOnSource(platform, s, step);
    } else {
      BackupStaysLater(platform, s, step);
    }
  }

  lemma BackupStaysOnSource(platform: Platform, s: System, step: Step)
    requires s.disk.backup != Absent && OnSource(step)
    ensures Next(platform, s, step).disk.backup != Absent
  {
  }

  lemma BackupStaysLater(platform: Platform, s: System, step: Step)
    requires s.disk.backup != Absent && !OnSource(step)
    ensures Next(platform, s, step).disk.backup != Absent
  {
  }

  // ----- what opening and closing do to the source ---------------------------------------------

  /** The run opened the source. */
  predicate OpenedIn(platform: Platform, start: Disk, steps: seq<Step>) {
    steps != [] &&
    var before, last := steps[..|steps| - 1], steps[|steps| - 1];
    || OpenedIn(platform, start, before)
    || (last == OpenSource(true) && Next(platform, Exec(platform, Begin(start), before), last).phase == Opened
        && Exec(platform, Begin(start), before).phase == Ready)
  }

  /** The run closed it with its log folded in. */
  predicate CheckpointedIn(platform: Platform, start: Disk, steps: seq<Step>) {
    steps != [] &&
    var before, last := steps[..|steps| - 1], steps[|steps| - 1];
    var s := Exec(platform, Begin(start), before);
    || CheckpointedIn(platform, start, before)
    || (last == CloseSource(true) && s.open && (s.phase == Exported || s.phase == Failed))
  }

  /** The run removed the log beside the live file. */
  predicate LogRemovedIn(platform: Platform, start: Disk, steps: seq<Step>) {
    steps != [] &&
    var before, last := steps[..|steps| - 1], steps[|steps| - 1];
    || LogRemovedIn(platform, start, before)
    || (last.RemoveSidecars? && (last.works || last.logGone) && Exec(platform, Begin(start), before).phase == StagingSynced)
  }

  /** The three facts about a run decide what became of the source's header and log. */
  predicate HistoryInv(s: System, start: Disk, wasOpened: bool, checkpointed: bool, logRemoved: bool) {
    var d := s.disk;
    && (s.phase == Ready ==> !wasOpened) && (s.open ==> wasOpened && !checkpointed)
    && (checkpointed ==> wasOpened) && (logRemoved ==> wasOpened && !s.open)
    && (!wasOpened ==> d.walMode == start.walMode && d.sidecar == start.sidecar && !s.open && s.phase in {Ready, Failed, Refused})
    && (wasOpened ==> d.walMode && d.sidecar == (!checkpointed && !logRemoved))
    && (logRemoved ==> s.phase !in {Opened, Checked, BackingUp, BackedUp, Exporting, Exported, Closed, BackupVerified,
                                    BackupSynced, StagingVerified, StagingSynced})
    && (checkpointed ==> s.phase !in {Opened, Checked, BackingUp, BackedUp, Exporting, Exported})
    && d.needed == (start.needed && !checkpointed)
  }

  lemma HistoryStep(
      platform: Platform, s: System, step: Step, start: Disk, wasOpened: bool, checkpointed: bool, logRemoved: bool)
    requires HistoryInv(s, start, wasOpened, checkpointed, logRemoved) && Inv(s, start)
    ensures
      var s' := Next(platform, s, step);
      HistoryInv(
        s', start, wasOpened || (step == OpenSource(true) && s'.phase == Opened && s.phase == Ready),
        checkpointed || (step == CloseSource(true) && s.open && (s.phase == Exported || s.phase == Failed)),
        logRemoved || (step.RemoveSidecars? && (step.works || step.logGone) && s.phase == StagingSynced))
  {
  }

  lemma {:induction false} HistoryRun(platform: Platform, start: Disk, steps: seq<Step>)
    requires Convertible(start)
    ensures
      HistoryInv(Exec(platform, Begin(start), steps), start, OpenedIn(platform, start, steps),
                 CheckpointedIn(platform, start, steps), LogRemovedIn(platform, start, steps))
  {
    if steps != [] {
      var before := steps[..|steps| - 1];
      HistoryRun(platform, start, before);
      InvRun(platform, start, before);
      HistoryStep(platform, Exec(platform, Begin(start), before), steps[|steps| - 1], start,
                  OpenedIn(platform, start, before), CheckpointedIn(platform, start, before),
                  LogRemovedIn(platform, start, before));
    }
  }

  /** File and log are as they were found. */
  predicate SourceUntouched(d: Disk, start: Disk) {
    d.live == start.live && d.walMode == start.walMode && d.needed == start.needed && d.sidecar == start.sidecar
  }

  /**
   Before the backup is safe the source's bytes are as they were found exactly if it was not opened yet, or
   was in write-ahead mode already and has a log again exactly if it had one.
  */
  lemma SourceUntouchedIff(platform: Platform, start: Disk, steps: seq<Step>)
    requires Convertible(start)
    ensures
      var d := Exec(platform, Begin(start), steps).disk;
      !BackupSafe(d) ==>
        (SourceUntouched(d, start) <==>
           || !OpenedIn(platform, start, steps)
           || (start.walMode && (start.sidecar <==> !CheckpointedIn(platform, start, steps))))
  {
    InvRun(platform, start, steps);
    HistoryRun(platform, start, steps);
    NoRemovalBeforeSync(platform, start, steps);
  }

  lemma {:induction false} NoRemovalBeforeSync(platform: Platform, start: Disk, steps: seq<Step>)
    requires Convertible(start)
    ensures LogRemovedIn(platform, start, steps) ==> BackupSafe(Exec(platform, Begin(start), steps).disk)
  {
    if steps != [] {
      NoRemovalBeforeSync(platform, start, steps[..|steps| - 1]);
      InvRun(platform, start, steps[..|steps| - 1]);
      HistoryRun(platform, start, steps[..|steps| - 1]);
    }
  }

  /** A file beside the backup holds the whole content: live, staged, or moved aside without need of a log. */
  predicate Whole(d: Disk) {
    LiveComplete(d) || d.staging == Encrypted || (d.displaced == Plain && !d.needed)
  }

  /** Where the source can be, and its log no more once the conversion is past removing it. */
  predicate PlaceInv(s: System) {
    && s.disk.live in {Absent, Plain, Encrypted}
    && (s.disk.live == Absent ==> s.disk.displaced == Plain)
    && (s.phase in {Clean, Displaced, Installed, Finished} || s.disk.live == Absent ==> !s.disk.sidecar)
    && (s.disk.displaced == Plain ==> !s.disk.sidecar)
  }

  lemma SourcePlaceStep(platform: Platform, s: System, step: Step, start: Disk)
    requires Inv(s, start) && PlaceInv(s) && OnSource(step)
    ensures PlaceInv(Next(platform, s, step))
  {
  }

  lemma LaterPlaceStep(platform: Platform, s: System, step: Step, start: Disk)
    requires Inv(s, start) && PlaceInv(s) && !OnSource(step)
    ensures PlaceInv(Next(platform, s, step))
  {
  }

  lemma PlaceStep(platform: Platform, s: System, step: Step, start: Disk)
    requires Inv(s, start) && PlaceInv(s)
    ensures PlaceInv(Next(platform, s, step))
  {
    if OnSource(step) {
      SourcePlaceStep(platform, s, step, start);
    } else {
      LaterPlaceStep(platform, s, step, start);
    }
  }

  lemma {:induction false} PlaceRun(platform: Platform, start: Disk, steps: seq<Step>)
    requires Convertible(start)
    ensures PlaceInv(Exec(platform, Begin(start), steps))
  {
    if steps != [] {
      PlaceRun(platform, start, steps[..|steps| - 1]);
      InvRun(platform, start, steps[..|steps| - 1]);
      PlaceStep(platform, Exec(platform, Begin(start), steps[..|steps| - 1]), steps[|steps| - 1], start);
    }
  }

  lemma WholeByHistory(
      platform: Platform, s: System, start: Disk, wasOpened: bool, checkpointed: bool, logRemoved: bool)
    requires HistoryInv(s, start, wasOpened, checkpointed, logRemoved) && Inv(s, start) && PlaceInv(s)
    requires Convertible(start)
    ensures !Whole(s.disk) <==>
      && start.needed && !checkpointed && logRemoved
      && s.disk.staging != Encrypted && s.disk.live != Encrypted
    ensures !LiveComplete(s.disk) <==>
      s.disk.live == Absent || (s.disk.live == Plain && start.needed && !checkpointed && logRemoved)
  {
  }

  /**
   On either platform only the backup is whole, exactly when the log was removed though the source needed it (it
   did when found, and closing it did not fold the log in) and the encrypted copy is neither staged nor installed.
  */
  lemma OnlyBackupLeftIff(platform: Platform, start: Disk, steps: seq<Step>)
    requires Convertible(start)
    ensures
      var d := Exec(platform, Begin(start), steps).disk;
      !Whole(d) <==>
        && start.needed && !CheckpointedIn(platform, start, steps) && LogRemovedIn(platform, start, steps)
        && d.staging != Encrypted && d.live != Encrypted
  {
    InvRun(platform, start, steps);
    PlaceRun(platform, start, steps);
    HistoryRun(platform, start, steps);
    WholeByHistory(
      platform, Exec(platform, Begin(start), steps), start, OpenedIn(platform, start, steps),
      CheckpointedIn(platform, start, steps), LogRemovedIn(platform, start, steps));
  }

  /** The live path is incomplete exactly between the two renames, or with the plaintext file there without such a log. */
  lemma LiveIncompleteIff(platform: Platform, start: Disk, steps: seq<Step>)
    requires Convertible(start)
    ensures
      var d := Exec(platform, Begin(start), steps).disk;
      !LiveComplete(d) <==>
        || d.live == Absent
        || (d.live == Plain && start.needed && !CheckpointedIn(platform, start, steps)
            && LogRemovedIn(platform, start, steps))
  {
    InvRun(platform, start, steps);
    PlaceRun(platform, start, steps);
    HistoryRun(platform, start, steps);
    WholeByHistory(
      platform, Exec(platform, Begin(start), steps), start, OpenedIn(platform, start, steps),
      CheckpointedIn(platform, start, steps), LogRemovedIn(platform, start, steps));
  }

  /** Only the two-rename platform is ever between them. */
  lemma {:induction false} PosixLiveIsThere(start: Disk, steps: seq<Step>)
    requires Convertible(start)
    ensures
      var s := Exec(Posix, Begin(start), steps);
      s.phase != Displaced && s.phase != Installed && s.disk.live != Absent
  {
    if steps != [] {
      PosixLiveIsThere(start, steps[..|steps| - 1]);
      InvRun(Posix, start, steps[..|steps| - 1]);
      PosixStep(Exec(Posix, Begin(start), steps[..|steps| - 1]), steps[|steps| - 1], start);
    }
  }

  lemma PosixStep(s: System, step: Step, start: Disk)
    requires Inv(s, start) && s.phase != Displaced && s.phase != Installed && s.disk.live != Absent
    ensures
      var s' := Next(Posix, s, step);
      s'.phase != Displaced && s'.phase != Installed && s'.disk.live != Absent
  {
  }

  // ----- such a run ------------------------------------------------------------------------------

  lemma {:induction false} ExecAppend(platform: Platform, s: System, a: seq<Step>, b: seq<Step>)
    ensures Exec(platform, s, a + b) == Exec(platform, Exec(platform, s, a), b)
  {
    if b == [] {
      assert a + b == a;
    } else {
      assert (a + b)[..|a + b| - 1] == a + b[..|b| - 1];
      ExecAppend(platform, s, a, b[..|b| - 1]);
    }
  }

  lemma ExecTwo(platform: Platform, s: System, first: Step, second: Step)
    ensures Exec(platform, s, [first, second]) == Next(platform, Next(platform, s, first), second)
  {
    assert [first, second][..1] == [first] && [first][..0] == [];
    assert Exec(platform, s, [first]) == Next(platform, s, first);
  }

  const LOGGED: Disk := Disk(Plain, true, true, true, Absent, false, Absent, false, Absent)
  const COPIED: Disk := LOGGED.(backup := Plain, staging := Encrypted)
  const SYNCED: Disk := COPIED.(backupSynced := true, stagingSynced := true)

  const BACK_UP: seq<Step> := [OpenSource(true), CheckSource(true)] + [StartBackup, FinishBackup(true)]
  const COPY_OUT: seq<Step> := [StartExport, FinishExport(true)] + [CloseSource(false), VerifyBackup(true)]
  const SYNC_BOTH: seq<Step> := [SyncBackup(true), VerifyStaging(true)] + [SyncStaging(true), RemoveSidecars(true, true)]

  /** The source's log is not folded in at the close, and the rename fails. */
  const RENAME_FAILS: seq<Step> := BACK_UP + COPY_OUT + SYNC_BOTH + [Rename(false)]

  lemma ExecFour(platform: Platform, s: System, a: Step, b: Step, c: Step, d: Step)
    ensures Exec(platform, s, [a, b] + [c, d]) == Next(platform, Next(platform, Next(platform, Next(platform, s, a), b), c), d)
  {
    ExecAppend(platform, s, [a, b], [c, d]);
    ExecTwo(platform, s, a, b);
    ExecTwo(platform, Next(platform, Next(platform, s, a), b), c, d);
  }

  lemma BackedUpRun()
    ensures Exec(Posix, Begin(LOGGED), BACK_UP) == System(LOGGED.(backup := Plain), BackedUp, true)
  {
    ExecFour(Posix, Begin(LOGGED), OpenSource(true), CheckSource(true), StartBackup, FinishBackup(true));
  }

  lemma CopiedRun()
    ensures Exec(Posix, System(LOGGED.(backup := Plain), BackedUp, true), COPY_OUT) == System(COPIED, BackupVerified, false)
  {
    ExecFour(Posix, System(LOGGED.(backup := Plain), BackedUp, true),
             StartExport, FinishExport(true), CloseSource(false), VerifyBackup(true));
  }

  lemma SyncedRun()
    ensures Exec(Posix, System(COPIED, BackupVerified, false), SYNC_BOTH) == System(SYNCED.(sidecar := false), Clean, false)
  {
    ExecFour(Posix, System(COPIED, BackupVerified, false),
             SyncBackup(true), VerifyStaging(true), SyncStaging(true), RemoveSidecars(true, true));
  }

  /** A run of the whole command that leaves only the backup. */
  lemma FailedRenameMayLeaveBackupOnly()
    ensures
      var s := Exec(Posix, Begin(LOGGED), RENAME_FAILS);
      Convertible(LOGGED) && Whole(LOGGED) && s.phase == Failed && !Whole(s.disk) && BackupSafe(s.disk)
  {
    BackedUpRun();
    CopiedRun();
    SyncedRun();
    ExecAppend(Posix, Begin(LOGGED), BACK_UP, COPY_OUT);
    ExecAppend(Posix, Begin(LOGGED), BACK_UP + COPY_OUT, SYNC_BOTH);
    ExecAppend(Posix, Begin(LOGGED), BACK_UP + COPY_OUT + SYNC_BOTH, [Rename(false)]);
    var clean := System(SYNCED.(sidecar := false), Clean, false);
    assert [Rename(false)][..0] == [];
    assert Exec(Posix, clean, [Rename(false)]) == Next(Posix, clean, Rename(false));
  }
}
