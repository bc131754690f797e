/**
 Rotation of the database key, as file steps that can each fail or be cut short,
 over any number of attempts with normal use and restores in between.

 Trusted: changing a database's key is atomic, `VACUUM INTO` writes under the
 key of the database it copies, verification passes complete files only.
*/
module KeyRotation {
  import opened Wrappers
  import opened Text

  type Key = nat
  type Path = string

  /** A database file: complete files hold one version of the content under one key. */
  datatype File = Partial | Complete(version: nat, key: Key)

  /** How the durable key file is rewritten. */
  datatype KeyWrite =
    | ReplaceByRename   // POSIX: temporary file, then one atomic rename
    | OverwriteInPlace  // Windows: truncate, write, sync

  datatype KeyFile = Torn | Holds(key: Key)

  datatype Phase =
    | CopyingOld | OldCopied | OldVerified
    | Rekeyed | CopyingNew | NewCopied | NewVerified
    | RollingBack | Switched

  datatype Process = Process(phase: Phase, backup: Path, oldCopy: Path, oldKey: Key, newKey: Key)

  datatype Report = Success | RolledBack | RollbackFailed | Stopped

  /** `synced` snapshots survive a stop; `current` is the version in use; `reports` the ends of the attempts so far. */
  datatype System = System(
    live: File, snapshots: map<Path, File>, synced: set<Path>, keyFile: KeyFile, process: Option<Process>,
    current: nat, reports: seq<Report>)

  datatype PersistOutcome =
    | Written
    | FailedUntouched
    | FailedTorn       // in place only: truncated, not fully written
    | FailedWritten    // in place only: written, then the sync reported an error

  datatype Step =
    | Begin(backup: Path, newKey: Key)
    | FinishOldCopy(works: bool)
    | VerifyOld(passes: bool)
    | Rekey(works: bool)
    | StartNewCopy(works: bool)
    | FinishNewCopy(works: bool)
    | VerifyNew(passes: bool)
    | Persist(outcome: PersistOutcome)
    | RollBack(rekeyWorks: bool, removeWorks: bool)
    | Clean(removeWorks: bool)
    | Crash                          // the process ends
    | StopMachine(lost: set<Path>)   // and with it snapshots not yet on disk
    | Flush(path: Path)              // a snapshot reaches the disk; no command asks for it
    | Use
    | Restore(from: Path)

  /** Where the old-key snapshot goes. */
  function OldCopyPath(backup: Path): Path {
    WithExtension(backup, "rotation-pre.db")
  }

  /** Beside the backup, under its name with another extension or one more. */
  lemma OldCopyBeside(directory: string, name: string, extension: string)
    requires IsDirectory(directory) && name != "" && '/' !in name && '/' !in extension && '.' !in extension
    ensures name != "." || extension != "" ==>
      OldCopyPath(directory + name + "." + extension) == directory + name + ".rotation-pre.db"
    ensures '.' !in name ==> OldCopyPath(directory + name) == directory + name + ".rotation-pre.db"
  {
    if name != "." || extension != "" {
      ExtensionReplaced(directory, name, extension, "rotation-pre.db");
    }
    if '.' !in name {
      ExtensionAdded(directory, name, "rotation-pre.db");
    }
  }

  /** Paths without a file name are directories, which exist. */
  predicate NamesFile(backup: Path) {
    OldCopyPath(backup) != backup
  }

  function Stop(s: System, report: Report): System {
    s.(process := None, reports := s.reports + [report])
  }

  function At(s: System, phase: Phase): System
    requires s.process.Some?
  {
    s.(process := Some(s.process.value.(phase := phase)))
  }

  predicate InPhase(s: System, phase: Phase) {
    s.process.Some? && s.process.value.phase == phase
  }

  predicate Opens(s: System, file: File) {
    file.Complete? && s.keyFile == Holds(file.key)
  }

  function Remove(snapshots: map<Path, File>, path: Path): map<Path, File> {
    map p | p in snapshots && p != path :: snapshots[p]
  }

  function Lost(snapshots: map<Path, File>, lost: set<Path>): map<Path, File> {
    map p | p in snapshots :: if p in lost then Partial else snapshots[p]
  }

  function Next(style: KeyWrite, s: System, step: Step): System {
    match step
    case Begin(backup, newKey) =>
      if s.process.Some? || !NamesFile(backup) || backup in s.snapshots || OldCopyPath(backup) in s.snapshots || !Opens(s, s.live) then s
      else
        s.(process := Some(Process(CopyingOld, backup, OldCopyPath(backup), s.live.key, newKey)),
           snapshots := s.snapshots[OldCopyPath(backup) := Partial], synced := s.synced - {OldCopyPath(backup)})
    case FinishOldCopy(works) =>
      if !InPhase(s, CopyingOld) then s
      else if !works then Stop(s, Stopped)
      else
        At(s.(snapshots := s.snapshots[s.process.value.oldCopy := s.live], synced := s.synced - {s.process.value.oldCopy}),
           OldCopied)
    case VerifyOld(passes) =>
      if !InPhase(s, OldCopied) then s
      else if passes && Opens(s, s.live) then At(s, OldVerified)
      else Stop(s, Stopped)
    case Rekey(works) =>
      if !InPhase(s, OldVerified) || !s.live.Complete? then s
      else if works then At(s.(live := s.live.(key := s.process.value.newKey)), Rekeyed)
      else Stop(s, Stopped)
    case StartNewCopy(works) =>
      if !InPhase(s, Rekeyed) then s
      else if works then
        At(s.(snapshots := s.snapshots[s.process.value.backup := Partial], synced := s.synced - {s.process.value.backup}),
           CopyingNew)
      else At(s, RollingBack)
    case FinishNewCopy(works) =>
      if !InPhase(s, CopyingNew) then s
      else if works then
        At(s.(snapshots := s.snapshots[s.process.value.backup := s.live], synced := s.synced - {s.process.value.backup}),
           NewCopied)
      else At(s, RollingBack)
    case VerifyNew(passes) =>
      if !InPhase(s, NewCopied) then s
      else At(s, if passes then NewVerified else RollingBack)
    case Persist(outcome) =>
      if !InPhase(s, NewVerified) then s
      else
        (match outcome
         case Written => At(s.(keyFile := Holds(s.process.value.newKey)), Switched)
         case FailedUntouched => At(s, RollingBack)
         case FailedTorn => if style.ReplaceByRename? then s else At(s.(keyFile := Torn), RollingBack)
         case FailedWritten =>
           if style.ReplaceByRename? then s else At(s.(keyFile := Holds(s.process.value.newKey)), RollingBack))
    case RollBack(rekeyWorks, removeWorks) =>
      if !InPhase(s, RollingBack) || !s.live.Complete? then s
      else if !rekeyWorks then Stop(s, RollbackFailed)
      else
        Stop(s.(live := s.live.(key := s.process.value.oldKey),
                snapshots := if removeWorks then Remove(s.snapshots, s.process.value.backup) else s.snapshots),
             RolledBack)
    case Clean(removeWorks) =>
      if !InPhase(s, Switched) then s
      else
        Stop(s.(snapshots := if removeWorks then Remove(s.snapshots, s.process.value.oldCopy) else s.snapshots),
             Success)
    case Crash => s.(process := None)
    case StopMachine(lost) => s.(process := None, snapshots := Lost(s.snapshots, lost - s.synced))
    case Flush(path) => if path in s.snapshots then s.(synced := s.synced + {path}) else s
    case Use =>
      if s.process.None? && Opens(s, s.live) then s.(live := s.live.(version := s.current + 1), current := s.current + 1)
      else s
    case Restore(from) =>
      if s.process.None? && Opens(s, s.live) && from in s.snapshots && Opens(s, s.snapshots[from]) then
        s.(live := s.snapshots[from], current := s.snapshots[from].version)
      else s
  }

  function Exec(style: KeyWrite, s: System, steps: seq<Step>): System {
    if steps == [] then s else Next(style, Exec(style, s, steps[..|steps| - 1]), steps[|steps| - 1])
  }

  // ----- safety ------------------------------------------------------------------------

  /** The current content can be opened with the durable key from some file. */
  predicate Recoverable(s: System) {
    && s.keyFile.Holds?
    && (s.live == Complete(s.current, s.keyFile.key)
        || exists p :: p in s.snapshots && s.snapshots[p] == Complete(s.current, s.keyFile.key))
  }

  /** What each phase of an attempt knows about the files. */
  predicate PhaseInv(s: System, p: Process) {
    var oldCopy := p.oldCopy;
    match p.phase
    case CopyingOld => s.keyFile == Holds(p.oldKey) && s.live == Complete(s.current, p.oldKey)
    case OldCopied =>
      && s.keyFile == Holds(p.oldKey) && s.live == Complete(s.current, p.oldKey)
      && oldCopy in s.snapshots && s.snapshots[oldCopy] == s.live
    case OldVerified =>
      && s.keyFile == Holds(p.oldKey) && s.live == Complete(s.current, p.oldKey)
      && oldCopy in s.snapshots && s.snapshots[oldCopy] == s.live
    case Switched =>
      && s.keyFile == Holds(p.newKey) && s.live == Complete(s.current, p.newKey)
      && p.backup in s.snapshots && s.snapshots[p.backup] == s.live
    case _ =>
      && s.keyFile == Holds(p.oldKey) && s.live == Complete(s.current, p.newKey)
      && oldCopy in s.snapshots && s.snapshots[oldCopy] == Complete(s.current, p.oldKey)
      && (p.phase == NewCopied || p.phase == NewVerified ==> p.backup in s.snapshots && s.snapshots[p.backup] == s.live)
  }

  predicate Inv(s: System) {
    && Recoverable(s)
    && s.live.Complete? && s.live.version == s.current
    && (s.process.Some? ==> s.process.value.oldCopy != s.process.value.backup && PhaseInv(s, s.process.value))
  }

  lemma IdleStep(s: System, step: Step)
    requires !step.StopMachine?
    requires Inv(s) && s.process.None?
    ensures Inv(Next(ReplaceByRename, s, step))
  {
    var s' := Next(ReplaceByRename, s, step);
    if s'.process.Some? {
      PhaseIsRecoverable(s');
    }
  }

  lemma EndingStep(s: System, step: Step)
    requires !step.StopMachine?
    requires Inv(s) && s.process.Some? && Next(ReplaceByRename, s, step).process.None?
    ensures Inv(Next(ReplaceByRename, s, step))
  {
    AttemptStepRecoverable(s, step);
  }

  lemma OngoingStep(s: System, step: Step)
    requires !step.StopMachine?
    requires Inv(s) && s.process.Some? && Next(ReplaceByRename, s, step).process.Some?
    ensures Inv(Next(ReplaceByRename, s, step))
  {
    PhaseIsRecoverable(Next(ReplaceByRename, s, step));
  }

  lemma InvStep(s: System, step: Step)
    requires !step.StopMachine?
    requires Inv(s)
    ensures Inv(Next(ReplaceByRename, s, step))
  {
    if s.process.None? {
      IdleStep(s, step);
    } else if Next(ReplaceByRename, s, step).process.None? {
      EndingStep(s, step);
    } else {
      OngoingStep(s, step);
    }
  }

  lemma AttemptStepRecoverable(s: System, step: Step)
    requires !step.StopMachine?
    requires Inv(s) && s.process.Some? && Next(ReplaceByRename, s, step).process.None?
    ensures Recoverable(Next(ReplaceByRename, s, step))
  {
    var oldCopy := s.process.value.oldCopy;
    var s' := Next(ReplaceByRename, s, step);
    assert s'.live == Complete(s'.current, s'.keyFile.key)
        || (oldCopy in s'.snapshots && s'.snapshots[oldCopy] == Complete(s'.current, s'.keyFile.key));
  }

  lemma PhaseIsRecoverable(s: System)
    ensures s.process.Some? && PhaseInv(s, s.process.value) ==> Recoverable(s)
  {
  }

  predicate ProcessDeathsOnly(steps: seq<Step>) {
    forall i :: 0 <= i < |steps| ==> !steps[i].StopMachine?
  }

  /**
   With the key file replaced by one rename, the current content opens with the
   durable key after any history of attempts, each failing or losing its process
   at any step.
  */
  lemma {:induction false} AlwaysRecoverable(s: System, steps: seq<Step>)
    requires Inv(s) && ProcessDeathsOnly(steps)
    ensures Inv(Exec(ReplaceByRename, s, steps))
  {
    if steps != [] {
      AlwaysRecoverable(s, steps[..|steps| - 1]);
      InvStep(Exec(ReplaceByRename, s, steps[..|steps| - 1]), steps[|steps| - 1]);
    }
  }

  // ----- stops of the machine --------------------------------------------------------------

  /** Some snapshot that survives a stop holds the current content under that key. */
  ghost predicate DurablyHeld(s: System, key: Key) {
    exists p :: p in s.snapshots && p in s.synced && s.snapshots[p] == Complete(s.current, key)
  }

  /** No stop of the machine takes the current content from the durable key. */
  ghost predicate DurablyRecoverable(s: System) {
    s.keyFile.Holds? && (s.live == Complete(s.current, s.keyFile.key) || DurablyHeld(s, s.keyFile.key))
  }

  /** A snapshot that a step writes is not on the disk after it; only the one flushed gets there. */
  lemma WrittenIsNotSynced(style: KeyWrite, s: System, step: Step, p: Path)
    requires !step.StopMachine? && p in Next(style, s, step).snapshots
    ensures
      var s' := Next(style, s, step);
      && ((p !in s.snapshots || s.snapshots[p] != s'.snapshots[p]) ==> p !in s'.synced)
      && (p in s'.synced && p !in s.synced ==> step == Flush(p))
  {
  }

  lemma StoppedIsDurable(s: System)
    requires Recoverable(Next(ReplaceByRename, s, StopMachine(s.snapshots.Keys)))
    ensures DurablyRecoverable(s)
  {
    var s' := Next(ReplaceByRename, s, StopMachine(s.snapshots.Keys));
    if s.live != Complete(s.current, s.keyFile.key) {
      var p :| p in s'.snapshots && s'.snapshots[p] == Complete(s'.current, s'.keyFile.key);
      assert p in s.synced && s.snapshots[p] == s'.snapshots[p];
    }
  }

  /** That is what it means. */
  lemma DurablyRecoverableIff(s: System)
    ensures DurablyRecoverable(s) <==> forall lost :: Recoverable(Next(ReplaceByRename, s, StopMachine(lost)))
  {
    if DurablyRecoverable(s) {
      forall lost ensures Recoverable(Next(ReplaceByRename, s, StopMachine(lost))) {
        if s.live != Complete(s.current, s.keyFile.key) {
          var p :| p in s.snapshots && p in s.synced && s.snapshots[p] == Complete(s.current, s.keyFile.key);
          assert Lost(s.snapshots, lost - s.synced)[p] == s.snapshots[p];
        }
      }
    }
    if forall lost :: Recoverable(Next(ReplaceByRename, s, StopMachine(lost))) {
      StoppedIsDurable(s);
    }
  }

  /** While the live file is under the new key and the key file is not, the old-key snapshot is on disk. */
  ghost predicate DurableInv(s: System) {
    && Inv(s) && DurablyRecoverable(s)
    && (s.process.Some? && s.process.value.phase !in {CopyingOld, OldCopied, OldVerified, Switched}
        ==> s.process.value.oldCopy in s.synced)
  }

  /** The database is given its new key only once the old-key snapshot is on disk. */
  predicate RekeysDurably(s: System, step: Step) {
    step == Rekey(true) && InPhase(s, OldVerified) ==> s.process.value.oldCopy in s.synced
  }

  lemma StopIsSafe(s: System, lost: set<Path>)
    requires DurableInv(s)
    ensures DurableInv(Next(ReplaceByRename, s, StopMachine(lost)))
  {
    var s' := Next(ReplaceByRename, s, StopMachine(lost));
    DurablyRecoverableIff(s);
    assert Recoverable(s');
    if s.live != Complete(s.current, s.keyFile.key) {
      var p :| p in s.snapshots && p in s.synced && s.snapshots[p] == Complete(s.current, s.keyFile.key);
      assert p in s'.snapshots && p in s'.synced && s'.snapshots[p] == Complete(s'.current, s'.keyFile.key);
    }
  }

  lemma DurableIdleStep(s: System, step: Step)
    requires DurableInv(s) && s.process.None? && !step.StopMachine?
    ensures DurablyRecoverable(Next(ReplaceByRename, s, step))
  {
    var s' := Next(ReplaceByRename, s, step);
    if s'.live != Complete(s'.current, s'.keyFile.key) {
      var p :| p in s.snapshots && p in s.synced && s.snapshots[p] == Complete(s.current, s.keyFile.key);
      assert p in s'.snapshots && p in s'.synced && s'.snapshots[p] == Complete(s'.current, s'.keyFile.key);
    }
  }

  lemma DurableAttemptStep(s: System, step: Step)
    requires DurableInv(s) && s.process.Some? && !step.StopMachine? && RekeysDurably(s, step)
    ensures
      var s' := Next(ReplaceByRename, s, step);
      && DurablyRecoverable(s')
      && (s'.process.Some? && s'.process.value.phase !in {CopyingOld, OldCopied, OldVerified, Switched}
          ==> s'.process.value.oldCopy in s'.synced)
  {
    var oldCopy, s' := s.process.value.oldCopy, Next(ReplaceByRename, s, step);
    assert s'.live == Complete(s'.current, s'.keyFile.key)
        || (oldCopy in s'.snapshots && oldCopy in s'.synced
            && s'.snapshots[oldCopy] == Complete(s'.current, s'.keyFile.key));
  }

  /** Stops of the machine included, if every rekey waits for the old-key snapshot. */
  lemma {:induction false} MachineStopsAreSafe(s: System, steps: seq<Step>)
    requires DurableInv(s)
    requires forall n :: 0 <= n < |steps| ==> RekeysDurably(Exec(ReplaceByRename, s, steps[..n]), steps[n])
    ensures DurableInv(Exec(ReplaceByRename, s, steps))
  {
    if steps != [] {
      var before, last := steps[..|steps| - 1], steps[|steps| - 1];
      forall n | 0 <= n < |before| ensures RekeysDurably(Exec(ReplaceByRename, s, before[..n]), before[n]) {
        assert before[..n] == steps[..n];
      }
      MachineStopsAreSafe(s, before);
      DurableStep(Exec(ReplaceByRename, s, before), last);
    }
  }

  lemma DurableStep(s: System, step: Step)
    requires DurableInv(s) && RekeysDurably(s, step)
    ensures DurableInv(Next(ReplaceByRename, s, step))
  {
    if step.StopMachine? {
      StopIsSafe(s, step.lost);
    } else {
      InvStep(s, step);
      if s.process.None? {
        DurableIdleStep(s, step);
      } else {
        DurableAttemptStep(s, step);
      }
    }
  }

  /** Nothing makes it wait: a rekey leaves no stop harmful exactly if some old-key snapshot of the content is on disk. */
  lemma RekeyIsSafeIff(s: System)
    requires Inv(s) && InPhase(s, OldVerified) && s.process.value.oldKey != s.process.value.newKey
    ensures
      (forall lost :: Recoverable(Next(ReplaceByRename, Next(ReplaceByRename, s, Rekey(true)), StopMachine(lost))))
      <==> DurablyHeld(s, s.process.value.oldKey)
  {
    var s' := Next(ReplaceByRename, s, Rekey(true));
    DurablyRecoverableIff(s');
    if DurablyHeld(s, s.process.value.oldKey) {
      var p :| p in s.snapshots && p in s.synced && s.snapshots[p] == Complete(s.current, s.process.value.oldKey);
      assert p in s'.snapshots && p in s'.synced && s'.snapshots[p] == Complete(s'.current, s.process.value.oldKey);
    }
    if DurablyHeld(s', s.process.value.oldKey) {
      var p :| p in s'.snapshots && p in s'.synced && s'.snapshots[p] == Complete(s'.current, s.process.value.oldKey);
      assert p in s.snapshots && p in s.synced && s.snapshots[p] == Complete(s.current, s.process.value.oldKey);
    }
  }

  // ----- what the commands themselves can still do -------------------------------------------

  /** The commands have nothing under way and can open the live file. */
  predicate Usable(s: System) {
    s.process.None? && Opens(s, s.live)
  }

  /**
   An attempt that ends leaves a live file the commands can open exactly if it ended before the rekey, after the
   key switch, or with a rollback that worked.
  */
  lemma EndsUsableIff(s: System, step: Step)
    requires Inv(s) && s.process.Some? && s.process.value.oldKey != s.process.value.newKey
    requires Next(ReplaceByRename, s, step).process.None?
    ensures
      Usable(Next(ReplaceByRename, s, step)) <==>
        s.process.value.phase in {CopyingOld, OldCopied, OldVerified, Switched} || (step.RollBack? && step.rekeyWorks)
  {
  }

  /** Otherwise no run of the commands changes the live file or the key again: both open it first. */
  lemma {:induction false} UnusableStays(s: System, steps: seq<Step>)
    requires s.process.None? && !Usable(s)
    ensures
      var s' := Exec(ReplaceByRename, s, steps);
      s'.process.None? && !Usable(s') && s'.live == s.live && s'.keyFile == s.keyFile
  {
    if steps != [] {
      UnusableStays(s, steps[..|steps| - 1]);
    }
  }

  /** How an attempt that reports ends. */
  lemma AttemptEnds(s: System, step: Step)
    requires Inv(s) && s.process.Some? && |Next(ReplaceByRename, s, step).reports| > |s.reports|
    ensures
      var s', p := Next(ReplaceByRename, s, step), s.process.value;
      && s'.current == s.current
      && match s'.reports[|s.reports|]
         case Success =>
           && s'.keyFile == Holds(p.newKey) && s'.live == Complete(s.current, p.newKey)
           && p.backup in s'.snapshots && s'.snapshots[p.backup] == Complete(s.current, p.newKey)
           && s'.snapshots == s.snapshots - if step.removeWorks then {p.oldCopy} else {}
         case RolledBack =>
           && s'.keyFile == Holds(p.oldKey) && s'.live == Complete(s.current, p.oldKey)
           && s'.snapshots == s.snapshots - if step.removeWorks then {p.backup} else {}
         case Stopped =>
           s'.keyFile == Holds(p.oldKey) && s'.live == Complete(s.current, p.oldKey) && s'.snapshots == s.snapshots
         case RollbackFailed =>
           && s'.keyFile == Holds(p.oldKey) && s'.snapshots == s.snapshots
           && p.oldCopy in s'.snapshots
           && s'.snapshots[p.oldCopy] == Complete(s.current, p.oldKey)
  {
  }

  // ----- the key file is what decides --------------------------------------------------

  ghost predicate SafeOverAllRuns(style: KeyWrite) {
    forall s: System, steps: seq<Step> :: s.process.None? && Inv(s) && ProcessDeathsOnly(steps) ==>
      Recoverable(Exec(style, s, steps))
  }

  /** An attempt whose key write reports an error after the key was already written. */
  function LossyRun(backup: Path, newKey: Key): seq<Step> {
    [Begin(backup, newKey), FinishOldCopy(true), VerifyOld(true), Rekey(true), StartNewCopy(true), FinishNewCopy(true),
     VerifyNew(true), Persist(FailedWritten), RollBack(true, true)]
  }

  lemma ExecUpTo(style: KeyWrite, s: System, steps: seq<Step>, i: nat)
    requires i < |steps|
    ensures Exec(style, s, steps[..i + 1]) == Next(style, Exec(style, s, steps[..i]), steps[i])
  {
    assert steps[..i + 1][..i] == steps[..i];
  }

  /** The lossy attempt so far: the files it has made and the key the live database is under. */
  predicate Halfway(s: System, phase: Phase, backup: Path, oldKey: Key, newKey: Key, version: nat) {
    && s.process == Some(Process(phase, backup, OldCopyPath(backup), oldKey, newKey))
    && s.reports == [] && s.current == version && s.synced == {}
    && s.live.Complete? && s.live.version == version
    && forall p :: p in s.snapshots ==> p == backup || s.snapshots[p] in {Partial, Complete(version, oldKey)}
  }

  lemma LossyStart(style: KeyWrite, backup: Path, oldKey: Key, newKey: Key, version: nat, s: System)
    requires s == System(Complete(version, oldKey), map[], {}, Holds(oldKey), None, version, []) && NamesFile(backup)
    ensures
      var s' := Exec(style, s, LossyRun(backup, newKey)[..4]);
      && Halfway(s', Rekeyed, backup, oldKey, newKey, version)
      && s'.keyFile == Holds(oldKey) && s'.live.key == newKey
  {
    var steps := LossyRun(backup, newKey);
    LossyVerify(style, backup, oldKey, newKey, version, s);
    ExecUpTo(style, s, steps, 3);
  }

  lemma LossyVerify(style: KeyWrite, backup: Path, oldKey: Key, newKey: Key, version: nat, s: System)
    requires s == System(Complete(version, oldKey), map[], {}, Holds(oldKey), None, version, []) && NamesFile(backup)
    ensures
      var s' := Exec(style, s, LossyRun(backup, newKey)[..3]);
      Halfway(s', OldVerified, backup, oldKey, newKey, version) && s'.keyFile == Holds(oldKey) && s'.live == s.live
  {
    LossyBegin(style, backup, oldKey, newKey, version, s);
    ExecUpTo(style, s, LossyRun(backup, newKey), 2);
  }

  lemma LossyBegin(style: KeyWrite, backup: Path, oldKey: Key, newKey: Key, version: nat, s: System)
    requires s == System(Complete(version, oldKey), map[], {}, Holds(oldKey), None, version, []) && NamesFile(backup)
    ensures
      var s' := Exec(style, s, LossyRun(backup, newKey)[..2]);
      Halfway(s', OldCopied, backup, oldKey, newKey, version) && s'.keyFile == Holds(oldKey) && s'.live == s.live
  {
    var steps := LossyRun(backup, newKey);
    assert Exec(style, s, steps[..0]) == s;
    ExecUpTo(style, s, steps, 0);
    ExecUpTo(style, s, steps, 1);
  }

  lemma LossyCopy(backup: Path, oldKey: Key, newKey: Key, version: nat, s: System)
    requires s == System(Complete(version, oldKey), map[], {}, Holds(oldKey), None, version, []) && NamesFile(backup)
    ensures
      var s' := Exec(OverwriteInPlace, s, LossyRun(backup, newKey)[..6]);
      Halfway(s', NewCopied, backup, oldKey, newKey, version) && s'.keyFile == Holds(oldKey)
  {
    var steps := LossyRun(backup, newKey);
    LossyStart(OverwriteInPlace, backup, oldKey, newKey, version, s);
    ExecUpTo(OverwriteInPlace, s, steps, 4);
    ExecUpTo(OverwriteInPlace, s, steps, 5);
  }

  lemma LossyPersist(backup: Path, oldKey: Key, newKey: Key, version: nat, s: System)
    requires s == System(Complete(version, oldKey), map[], {}, Holds(oldKey), None, version, []) && NamesFile(backup)
    ensures
      var s' := Exec(OverwriteInPlace, s, LossyRun(backup, newKey)[..8]);
      Halfway(s', RollingBack, backup, oldKey, newKey, version) && s'.keyFile == Holds(newKey)
  {
    var steps := LossyRun(backup, newKey);
    LossyCopy(backup, oldKey, newKey, version, s);
    ExecUpTo(OverwriteInPlace, s, steps, 6);
    ExecUpTo(OverwriteInPlace, s, steps, 7);
  }

  lemma LossyRollBack(s: System, backup: Path, oldKey: Key, newKey: Key, version: nat)
    requires Halfway(s, RollingBack, backup, oldKey, newKey, version) && s.keyFile == Holds(newKey) && oldKey != newKey
    ensures
      var s' := Next(OverwriteInPlace, s, RollBack(true, true));
      s'.reports == [RolledBack] && s'.keyFile == Holds(newKey) && !Recoverable(s')
  {
  }

  /** Rolling back after such an error leaves no file under the durable key. */
  lemma InPlaceLoses(backup: Path, oldKey: Key, newKey: Key, version: nat)
    requires oldKey != newKey && NamesFile(backup)
    ensures
      var s := System(Complete(version, oldKey), map[], {}, Holds(oldKey), None, version, []);
      var s' := Exec(OverwriteInPlace, s, LossyRun(backup, newKey));
      && Inv(s)
      && s'.reports == [RolledBack] && s'.keyFile == Holds(newKey) && !Recoverable(s')
  {
    var s := System(Complete(version, oldKey), map[], {}, Holds(oldKey), None, version, []);
    var steps := LossyRun(backup, newKey);
    LossyPersist(backup, oldKey, newKey, version, s);
    LossyRollBack(Exec(OverwriteInPlace, s, steps[..8]), backup, oldKey, newKey, version);
    ExecUpTo(OverwriteInPlace, s, steps, 8);
    assert steps[..9] == steps;
  }

  /**
   However the key file is written: while the old-key snapshot has not reached the disk, which the command does not
   ask for, a stop right after the rekey loses both.
  */
  lemma StopAfterRekeyLoses(
      style: KeyWrite, backup: Path, oldKey: Key, newKey: Key, version: nat, s: System)
    requires s == System(Complete(version, oldKey), map[], {}, Holds(oldKey), None, version, []) && NamesFile(backup)
    requires oldKey != newKey
    ensures
      var s' := Exec(style, s, LossyRun(backup, newKey)[..4]);
      Inv(s) && !Recoverable(Next(style, s', StopMachine(s'.snapshots.Keys)))
  {
    LossyStart(style, backup, oldKey, newKey, version, s);
  }

  /** Rotation is safe over all histories exactly when the key file is replaced by rename. */
  lemma SafeIffReplaced(style: KeyWrite)
    ensures SafeOverAllRuns(style) <==> style == ReplaceByRename
  {
    if style == ReplaceByRename {
      forall s: System, steps: seq<Step> | s.process.None? && Inv(s) && ProcessDeathsOnly(steps)
        ensures Recoverable(Exec(style, s, steps)) {
        AlwaysRecoverable(s, steps);
      }
    } else {
      InPlaceLoses("b", 0, 1, 0);
    }
  }
}
