/**
 The three offline commands as they are carried out, one file step after the
 other with an early end at the first failure.  Each keeps the run of protocol
 steps it makes up, so what holds in every run of the protocol holds wherever
 the command is cut off.
*/
module OfflineCommands {
  import opened Wrappers
  import K = KeyRotation
  import R = Restore
  import E = EncryptInPlace

  // ----- key rotation ---------------------------------------------------------------------

  /** How the steps of one rotation turn out. */
  datatype RotationLuck = RotationLuck(
    copies: bool, oldPasses: bool, rekeys: bool, starts: bool, finishes: bool, newPasses: bool,
    persists: bool, rekeysBack: bool, removes: bool)

  /** Where the key file is replaced by one rename. */
  class Vault {
    var system: K.System
    ghost const start: K.System
    ghost var run: seq<K.Step>

    /** The system is sound and where the steps so far lead. */
    ghost predicate Valid()
      reads this
    {
      K.Inv(system) && system == K.Exec(K.ReplaceByRename, start, run)
    }

    constructor (found: K.System)
      requires K.Inv(found)
      ensures system == start == found && run == [] && Valid()
    {
      system, start, run := found, found, [];
    }

    method Do(step: K.Step)
      requires Valid() && !step.StopMachine?
      modifies this
      ensures Valid() && run == old(run) + [step] && system == K.Next(K.ReplaceByRename, old(system), step)
    {
      K.InvStep(system, step);
      system := K.Next(K.ReplaceByRename, system, step);
      run := run + [step];
      assert run[..|run| - 1] == old(run);
    }

    /** Under way in that phase, with these keys. */
    ghost predicate Rotating(phase: K.Phase, backup: K.Path, oldKey: K.Key, newKey: K.Key)
      reads this
    {
      && Valid() && K.InPhase(system, phase)
      && var p := system.process.value;
      p.backup == backup && p.oldCopy == K.OldCopyPath(backup) && p.oldKey == oldKey && p.newKey == newKey
    }

    /** The files found before the rotation are as they were, and beside them there are those, which are new. */
    ghost predicate Beside(found: map<K.Path, K.File>, more: set<K.Path>)
      reads this
    {
      && found.Keys !! more && system.snapshots.Keys == found.Keys + more
      && forall p <- found :: system.snapshots[p] == found[p]
    }

    /** Over without having changed the key of anything. */
    ghost predicate Unrotated(key: K.Key)
      reads this
    {
      Valid() && system.process.None? && system.keyFile == K.Holds(key) && system.live == K.Complete(system.current, key)
    }

    /** Over with everything on the new key. */
    ghost predicate Rotated(backup: K.Path, key: K.Key)
      reads this
    {
      Unrotated(key) && backup in system.snapshots && system.snapshots[backup] == system.live
    }

    /** The backup path names a file, and neither it nor the old-key snapshot beside it exists. */
    predicate Free(s: K.System, backup: K.Path) {
      K.NamesFile(backup) && backup !in s.snapshots && K.OldCopyPath(backup) !in s.snapshots
    }

    /** The verified old-key snapshot, before anything else changes. */
    method BackupOldKey(backup: K.Path, newKey: K.Key, luck: RotationLuck)
      requires Valid() && system.process.None? && K.Opens(system, system.live)
      modifies this
      ensures old(run) <= run && system.current == old(system.current)
      ensures
        if Free(old(system), backup) && luck.copies && luck.oldPasses
        then Rotating(K.OldVerified, backup, old(system.live.key), newKey)
        else Unrotated(old(system.live.key))
      ensures
        Beside(old(system.snapshots), if Free(old(system), backup) then {K.OldCopyPath(backup)} else {})
    {
      Do(K.Begin(backup, newKey));
      if system.process.None? {
        return;
      }
      Do(K.FinishOldCopy(luck.copies));
      if luck.copies {
        Do(K.VerifyOld(luck.oldPasses));
      }
    }

    /** The new-key snapshot, written and verified, or the need to roll back. */
    method WriteNewSnapshot(
        luck: RotationLuck, ghost backup: K.Path, ghost oldKey: K.Key, ghost newKey: K.Key,
        ghost found: map<K.Path, K.File>)
      requires Rotating(K.Rekeyed, backup, oldKey, newKey)
      requires Beside(found, {K.OldCopyPath(backup)}) && backup !in found
      modifies this
      ensures old(run) <= run && system.current == old(system.current)
      ensures
        var good := luck.starts && luck.finishes && luck.newPasses;
        Rotating(if good then K.NewVerified else K.RollingBack, backup, oldKey, newKey)
      ensures Beside(found, {K.OldCopyPath(backup)} + if luck.starts then {backup} else {})
    {
      Do(K.StartNewCopy(luck.starts));
      assert {K.OldCopyPath(backup)} + {backup} == {K.OldCopyPath(backup), backup};
      if luck.starts {
        FinishNewSnapshot(luck, backup, oldKey, newKey, found);
      }
    }

    method FinishNewSnapshot(
        luck: RotationLuck, ghost backup: K.Path, ghost oldKey: K.Key, ghost newKey: K.Key,
        ghost found: map<K.Path, K.File>)
      requires Rotating(K.CopyingNew, backup, oldKey, newKey)
      requires Beside(found, {K.OldCopyPath(backup), backup})
      modifies this
      ensures old(run) <= run && system.current == old(system.current)
      ensures
        Rotating(if luck.finishes && luck.newPasses then K.NewVerified else K.RollingBack, backup, oldKey, newKey)
      ensures Beside(found, {K.OldCopyPath(backup), backup})
    {
      Do(K.FinishNewCopy(luck.finishes));
      if luck.finishes {
        Do(K.VerifyNew(luck.newPasses));
      }
    }

    /** Whether the rollback worked. */
    method RollbackRotation(
        luck: RotationLuck, ghost backup: K.Path, ghost oldKey: K.Key, ghost newKey: K.Key,
        ghost found: map<K.Path, K.File>, ghost more: set<K.Path>)
      requires Rotating(K.RollingBack, backup, oldKey, newKey)
      requires Beside(found, more) && backup !in found
      modifies this
      ensures Valid() && old(run) <= run && system.current == old(system.current) && system.process.None?
      ensures if luck.rekeysBack then Unrotated(oldKey) else OldSnapshotLeft(oldKey)
      ensures Beside(found, if luck.rekeysBack && luck.removes then more - {backup} else more)
    {
      Do(K.RollBack(luck.rekeysBack, luck.removes));
    }

    /** The durable key still opens a complete snapshot of the current content. */
    ghost predicate OldSnapshotLeft(oldKey: K.Key)
      reads this
    {
      Valid() && system.process.None? && system.keyFile == K.Holds(oldKey)
      && exists p :: p in system.snapshots && system.snapshots[p] == K.Complete(system.current, oldKey)
    }

    /**
     Ends with everything on the new key if it succeeds; else on the old key, unless the database could
     not be put back, and then the old-key snapshot is left.
    */
    method CmdRotateKeys(backup: K.Path, newKey: K.Key, luck: RotationLuck) returns (ok: bool)
      requires Valid() && system.process.None? && K.Opens(system, system.live)
      modifies this
      ensures Valid() && old(run) <= run && system.process.None? && system.current == old(system.current)
      ensures ok <==>
        && Free(old(system), backup) && luck.copies && luck.oldPasses && luck.rekeys
        && luck.starts && luck.finishes && luck.newPasses && luck.persists
      ensures ok ==> Rotated(backup, newKey)
      ensures !ok ==> Unrotated(old(system.live.key)) || (!luck.rekeysBack && OldSnapshotLeft(old(system.live.key)))
      ensures ok ==>
        Beside(old(system.snapshots), if luck.removes then {backup} else {backup, K.OldCopyPath(backup)})
      ensures !ok ==>
        Beside(old(system.snapshots),
               if !Free(old(system), backup) then {}
               else if luck.copies && luck.oldPasses && luck.rekeys && luck.starts && !(luck.rekeysBack && luck.removes)
               then {backup, K.OldCopyPath(backup)}
               else {K.OldCopyPath(backup)})
    {
      ghost var oldKey, found := system.live.key, system.snapshots;
      BackupOldKey(backup, newKey, luck);
      if system.process.None? {
        return false;
      }
      Rekey(luck, backup, oldKey, newKey, found);
      if !luck.rekeys {
        return false;
      }
      ok := ChangeKeys(luck, backup, oldKey, newKey, found);
    }

    /** From the rekeyed database to the new durable key, or back. */
    method ChangeKeys(
        luck: RotationLuck, ghost backup: K.Path, ghost oldKey: K.Key, ghost newKey: K.Key,
        ghost found: map<K.Path, K.File>)
      returns (ok: bool)
      requires Rotating(K.Rekeyed, backup, oldKey, newKey)
      requires Beside(found, {K.OldCopyPath(backup)}) && backup !in found
      modifies this
      ensures Valid() && old(run) <= run && system.process.None? && system.current == old(system.current)
      ensures ok <==> luck.starts && luck.finishes && luck.newPasses && luck.persists
      ensures ok ==> Rotated(backup, newKey)
      ensures !ok ==> if luck.rekeysBack then Unrotated(oldKey) else OldSnapshotLeft(oldKey)
      ensures ok ==> Beside(found, if luck.removes then {backup} else {backup, K.OldCopyPath(backup)})
      ensures !ok ==>
        Beside(found, if luck.starts && !(luck.rekeysBack && luck.removes) then {backup, K.OldCopyPath(backup)}
                      else {K.OldCopyPath(backup)})
    {
      WriteNewSnapshot(luck, backup, oldKey, newKey, found);
      ghost var more := {K.OldCopyPath(backup)} + if luck.starts then {backup} else {};
      if system.process.value.phase == K.NewVerified {
        SwitchKey(luck, backup, oldKey, newKey, found, more);
      }
      if system.process.value.phase == K.RollingBack {
        RollbackRotation(luck, backup, oldKey, newKey, found, more);
        assert more - {backup} == {K.OldCopyPath(backup)};
        assert luck.starts ==> more == {backup, K.OldCopyPath(backup)};
        return false;
      }
      assert more == {backup, K.OldCopyPath(backup)};
      CleanUp(luck, backup, oldKey, newKey, found);
      return true;
    }

    method Rekey(
        luck: RotationLuck, ghost backup: K.Path, ghost oldKey: K.Key, ghost newKey: K.Key,
        ghost found: map<K.Path, K.File>)
      requires Rotating(K.OldVerified, backup, oldKey, newKey) && Beside(found, {K.OldCopyPath(backup)})
      modifies this
      ensures old(run) <= run && system.current == old(system.current)
      ensures if luck.rekeys then Rotating(K.Rekeyed, backup, oldKey, newKey) else Unrotated(oldKey)
      ensures Beside(found, {K.OldCopyPath(backup)})
    {
      Do(K.Rekey(luck.rekeys));
    }

    /** The durable key file is replaced by one rename, or left alone. */
    method SwitchKey(
        luck: RotationLuck, ghost backup: K.Path, ghost oldKey: K.Key, ghost newKey: K.Key,
        ghost found: map<K.Path, K.File>, ghost more: set<K.Path>)
      requires Rotating(K.NewVerified, backup, oldKey, newKey) && Beside(found, more)
      modifies this
      ensures old(run) <= run && system.current == old(system.current)
      ensures Rotating(if luck.persists then K.Switched else K.RollingBack, backup, oldKey, newKey)
      ensures Beside(found, more)
    {
      Do(K.Persist(if luck.persists then K.Written else K.FailedUntouched));
    }

    method CleanUp(
        luck: RotationLuck, ghost backup: K.Path, ghost oldKey: K.Key, ghost newKey: K.Key,
        ghost found: map<K.Path, K.File>)
      requires Rotating(K.Switched, backup, oldKey, newKey) && Beside(found, {backup, K.OldCopyPath(backup)})
      modifies this
      ensures old(run) <= run && system.current == old(system.current)
      ensures Rotated(backup, newKey)
      ensures Beside(found, if luck.removes then {backup} else {backup, K.OldCopyPath(backup)})
    {
      Do(K.Clean(luck.removes));
    }
  }

  // ----- restore ----------------------------------------------------------------------------

  datatype RestoreLuck = RestoreLuck(
    clears: bool, copies: bool, carries: bool, liveFolds: bool, carryFolds: bool, passes: bool, verifyFolds: bool,
    removes: bool, renames: bool)

  class Desk {
    var system: R.System
    ghost const start: R.System
    ghost var run: seq<R.Step>

    ghost predicate Valid()
      reads this
    {
      R.AttemptInv(system) && system == R.Exec(start, run)
    }

    constructor (found: R.System)
      requires R.AttemptInv(found)
      ensures system == start == found && run == [] && Valid()
    {
      system, start, run := found, found, [];
    }

    method Do(step: R.Step)
      requires Valid()
      modifies this
      ensures Valid() && run == old(run) + [step] && system == R.Next(old(system), step)
    {
      R.AttemptInvStep(system, step);
      system := R.Next(system, step);
      run := run + [step];
      assert run[..|run| - 1] == old(run);
    }

    ghost predicate Restoring(phase: R.Phase, from: R.Db, replaced: R.File)
      reads this
    {
      Valid() && system.attempt == Some(R.Attempt(phase, from, replaced))
    }

    /** Nothing to overwrite, or forced to; and the temporary name is free or can be made so. */
    predicate Startable(s: R.System, from: R.Db, force: bool, luck: RestoreLuck) {
      && from.rows !! from.forgotten && (s.live != R.Absent ==> force)
      && (s.temporary == R.Absent || luck.clears)
    }

    /** There is nothing to carry over, or it can be read and carried. */
    predicate Carries(luck: RestoreLuck, live: R.File) {
      live == R.Absent || (live.Complete? && luck.carries)
    }

    /** The copy is finished, and what the live database has forgotten is not carried over. */
    predicate CarryFails(s: R.System, luck: RestoreLuck) {
      luck.copies && !s.temporaryLog && s.live.Complete? && !luck.carries
    }

    /** The copy is finished, no old log was replayed into it, and what there is to carry over is carried. */
    predicate Prepares(s: R.System, luck: RestoreLuck) {
      luck.copies && !s.temporaryLog && Carries(luck, s.live)
    }

    /** A log of the old live file stays beside its name. */
    predicate LiveLogStays(s: R.System, luck: RestoreLuck) {
      s.liveLog && !(s.live.Complete? && luck.liveFolds)
    }

    /** What was carried over is still in the temporary file's log only. */
    predicate CarriedInLog(s: R.System, from: R.Db, luck: RestoreLuck) {
      R.Restored(R.Attempt(R.LiveRemoved, from, s.live)) != from && !luck.carryFolds && !luck.verifyFolds
    }

    /** Up to the finished and verified temporary file; the live one is not touched. */
    method Prepare(from: R.Db, force: bool, luck: RestoreLuck)
      requires Valid() && system.attempt.None?
      modifies this
      ensures Valid() && old(run) <= run && system.live == old(system.live) && system.owed == old(system.owed)
      ensures
        if Startable(old(system), from, force, luck) && Prepares(old(system), luck) && luck.passes
        then Restoring(R.Verified, from, old(system.live))
        else system.attempt.None?
      ensures Startable(old(system), from, force, luck) && CarryFails(old(system), luck) ==>
        system.attempt.None? && system.temporary == R.Unfinished
      ensures system.attempt.Some? ==>
        && system.liveLog == LiveLogStays(old(system), luck)
        && system.temporaryLog == CarriedInLog(old(system), from, luck)
    {
      Clear(from, force, luck);
      if system.attempt.None? { return; }
      Copy(luck, from, old(system.live));
      if system.attempt.None? { return; }
      Do(R.Verify(luck.passes, luck.verifyFolds));
    }

    method Clear(from: R.Db, force: bool, luck: RestoreLuck)
      requires Valid() && system.attempt.None?
      modifies this
      ensures Valid() && old(run) <= run && system.live == old(system.live) && system.owed == old(system.owed)
      ensures system.liveLog == old(system.liveLog) && system.temporaryLog == old(system.temporaryLog)
      ensures
        if Startable(old(system), from, force, luck) then Restoring(R.Ready, from, old(system.live)) else system.attempt.None?
    {
      Do(R.Begin(from, force));
      if system.attempt.Some? {
        Do(R.ClearTemporary(luck.clears));
      }
    }

    method Copy(luck: RestoreLuck, ghost from: R.Db, ghost replaced: R.File)
      requires Restoring(R.Ready, from, replaced)
      modifies this
      ensures Valid() && old(run) <= run && system.live == old(system.live) && system.owed == old(system.owed)
      ensures Prepares(old(system), luck) ==>
        && Restoring(R.Reapplied, from, replaced) && system.temporary.Complete?
        && system.liveLog == LiveLogStays(old(system), luck)
        && system.temporaryLog == (R.Restored(R.Attempt(R.LiveRemoved, from, replaced)) != from && !luck.carryFolds)
      ensures CarryFails(old(system), luck) ==> system.attempt.None? && system.temporary == R.Unfinished
      ensures !Prepares(old(system), luck) ==>
        system.attempt.None? || (Restoring(R.Reapplied, from, replaced) && !system.temporary.Complete?)
    {
      Do(R.StartCopy);
      Do(R.FinishCopy(luck.copies));
      if system.attempt.None? { return; }
      Do(R.CarryTombstones(luck.carries, luck.liveFolds, luck.carryFolds));
    }

    /**
     Success puts the snapshot, less what the live database had forgotten, in its place, unless one of the two logs
     was left; a failure leaves the live database alone or the finished one under the temporary name.
    */
    method CmdRestore(from: R.Db, force: bool, luck: RestoreLuck) returns (ok: bool)
      requires Valid() && system.attempt.None?
      modifies this
      ensures Valid() && old(run) <= run && system.attempt.None? && system.owed == old(system.owed)
      ensures ok <==>
        && Startable(old(system), from, force, luck) && Prepares(old(system), luck)
        && luck.passes && luck.removes && luck.renames
      ensures
        var restored := R.Restored(R.Attempt(R.LiveRemoved, from, old(system.live)));
        if ok then
          && system.temporary == R.Absent
          && system.live ==
             if LiveLogStays(old(system), luck) then R.Unfinished
             else R.Complete(if CarriedInLog(old(system), from, luck) then from else restored)
        else system.live == old(system.live) || (system.live == R.Absent && system.temporary == R.Complete(restored))
      ensures Startable(old(system), from, force, luck) && CarryFails(old(system), luck) ==>
        system.live == old(system.live) && system.temporary == R.Unfinished
    {
      Prepare(from, force, luck);
      if system.attempt.None? {
        return false;
      }
      Do(R.RemoveLive(luck.removes));
      if system.attempt.None? {
        return false;
      }
      Do(R.Rename(luck.renames));
      return luck.renames;
    }
  }

  // ----- encryption in place -----------------------------------------------------------------

  datatype EncryptionLuck = EncryptionLuck(
    opens: bool, sound: bool, backsUp: bool, exports: bool, checkpoints: bool, backupPasses: bool, backupSyncs: bool,
    stagingPasses: bool, stagingSyncs: bool, cleans: bool, logGone: bool, renames: bool, displaces: bool,
    renamesBack: bool, removes: bool)

  class Converter {
    const platform: E.Platform
    var system: E.System
    ghost const start: E.Disk
    ghost var run: seq<E.Step>

    ghost predicate Valid()
      reads this
    {
      E.Convertible(start) && system == E.Exec(platform, E.Begin(start), run) && E.Tidy(system)
    }

    constructor (platform: E.Platform, found: E.Disk)
      requires E.Convertible(found)
      ensures this.platform == platform && start == found && system == E.Begin(found) && run == [] && Valid()
    {
      this.platform, start, system, run := platform, found, E.Begin(found), [];
    }

    method Do(step: E.Step)
      requires Valid() && !step.StopMachine?
      modifies this
      ensures Valid() && run == old(run) + [step] && system == E.Next(platform, old(system), step)
    {
      E.InvRun(platform, start, run);
      E.TidyStep(platform, system, step, start);
      system := E.Next(platform, system, step);
      run := run + [step];
      assert run[..|run| - 1] == old(run);
    }

    /** Running in that phase, or over without success. */
    ghost predicate AtOrFailed(phase: E.Phase)
      reads this
    {
      Valid() && (system.phase == phase || system.phase in {E.Failed, E.Refused})
    }

    /** The plaintext backup through the open source. */
    method Backup(luck: EncryptionLuck)
      requires Valid() && system.phase == E.Ready
      modifies this
      ensures AtOrFailed(E.BackedUp) && old(run) <= run && (system.phase == E.Refused ==> system.open == old(system.open))
      ensures system.phase == E.BackedUp ==> system.open && system.disk.backup == E.Plain
      ensures system.phase == E.BackedUp <==>
        && old(system.disk.backup) == E.Absent && old(system.disk.live) == E.Plain
        && luck.opens && luck.sound && luck.backsUp
    {
      Do(E.OpenSource(luck.opens));
      if system.phase != E.Opened { return; }
      Do(E.CheckSource(luck.sound));
      if system.phase == E.Failed { return; }
      Do(E.StartBackup);
      Do(E.FinishBackup(luck.backsUp));
    }

    /** The encrypted copy, through the same connection. */
    method CopyOut(luck: EncryptionLuck)
      requires Valid() && system.phase == E.BackedUp
      modifies this
      ensures Valid() && old(run) <= run && system.open == old(system.open)
      ensures system.phase == if luck.exports then E.Exported else E.Failed
      ensures luck.exports ==> system.disk == old(system.disk).(staging := E.Encrypted)
    {
      Do(E.StartExport);
      Do(E.FinishExport(luck.exports));
    }

    /** Backup and encrypted copy, written but not yet checked; the connection to the source is gone in any case. */
    method Export(luck: EncryptionLuck)
      requires Valid() && system.phase == E.Ready
      modifies this
      ensures AtOrFailed(E.Closed) && old(run) <= run && !system.open
      ensures system.phase == E.Closed ==> system.disk.backup == E.Plain && system.disk.staging == E.Encrypted
      ensures system.phase == E.Closed <==>
        && old(system.disk.backup) == E.Absent && old(system.disk.live) == E.Plain
        && luck.opens && luck.sound && luck.backsUp && luck.exports
    {
      E.InvRun(platform, start, run);
      Backup(luck);
      if system.phase == E.BackedUp {
        CopyOut(luck);
      }
      if system.open {
        Do(E.CloseSource(luck.checkpoints));
      }
    }

    /** The backup, verified and synced. */
    method SecureBackup(luck: EncryptionLuck)
      requires Valid() && system.phase == E.Closed
      requires system.disk.backup == E.Plain && system.disk.staging == E.Encrypted
      modifies this
      ensures AtOrFailed(E.BackupSynced) && old(run) <= run
      ensures system.phase == E.BackupSynced ==> system.disk.staging == E.Encrypted
      ensures system.phase == E.BackupSynced <==> luck.backupPasses && luck.backupSyncs
    {
      Do(E.VerifyBackup(luck.backupPasses));
      if system.phase == E.BackupVerified {
        Do(E.SyncBackup(luck.backupSyncs));
      }
    }

    /** Then the encrypted copy. */
    method SecureStaging(luck: EncryptionLuck)
      requires Valid() && system.phase == E.BackupSynced && system.disk.staging == E.Encrypted
      modifies this
      ensures AtOrFailed(E.StagingSynced) && old(run) <= run
      ensures system.phase == E.StagingSynced <==> luck.stagingPasses && luck.stagingSyncs
    {
      Do(E.VerifyStaging(luck.stagingPasses));
      if system.phase == E.StagingVerified {
        Do(E.SyncStaging(luck.stagingSyncs));
      }
    }

    /** One rename, or the reversible two where a rename cannot replace a file. */
    method Replace(luck: EncryptionLuck)
      requires Valid() && system.phase == E.Clean
      modifies this
      ensures AtOrFailed(E.Finished) && old(run) <= run
      ensures system.phase == E.Finished <==> luck.renames && (platform == E.Windows ==> luck.displaces && luck.removes)
    {
      if platform == E.Posix {
        Do(E.Rename(luck.renames));
      } else {
        MoveAside(luck);
        if system.phase == E.Displaced {
          MoveIn(luck);
        }
      }
    }

    method MoveAside(luck: EncryptionLuck)
      requires Valid() && system.phase == E.Clean && platform == E.Windows
      modifies this
      ensures AtOrFailed(E.Displaced) && old(run) <= run
      ensures system.phase == E.Displaced <==> luck.displaces
    {
      Do(E.Displace(luck.displaces));
    }

    method MoveIn(luck: EncryptionLuck)
      requires Valid() && system.phase == E.Displaced
      modifies this
      ensures AtOrFailed(E.Finished) && old(run) <= run
      ensures system.phase == E.Finished <==> luck.renames && luck.removes
    {
      Do(E.Install(luck.renames, luck.renamesBack));
      if system.phase == E.Installed {
        Do(E.RemoveDisplaced(luck.removes));
      }
    }

    /**
     Success leaves the encrypted database live and a complete synced backup; a failure, a complete live
     database or that backup.
    */
    method EncryptPlaintextDatabase(luck: EncryptionLuck) returns (ok: bool)
      requires Valid() && system.phase == E.Ready
      modifies this
      ensures Valid() && old(run) <= run
      ensures ok <==>
        && old(system.disk.backup) == E.Absent && old(system.disk.live) == E.Plain
        && luck.opens && luck.sound && luck.backsUp && luck.exports
        && luck.backupPasses && luck.backupSyncs && luck.stagingPasses && luck.stagingSyncs && luck.cleans
        && luck.renames && (platform == E.Windows ==> luck.displaces && luck.removes)
      ensures ok ==> system.disk.live == E.Encrypted && E.BackupSafe(system.disk)
      ensures ok ==> system.disk.staging == E.Absent && system.disk.displaced == E.Absent && !system.disk.sidecar
      ensures !ok && system.phase != E.Refused ==> system.disk.staging == E.Absent
      ensures !ok ==> E.LiveComplete(system.disk) || E.BackupSafe(system.disk)
    {
      Stage(luck);
      if system.phase == E.StagingSynced {
        Put(luck);
      }
      E.DatabaseNeverLost(platform, start, run);
      return system.phase == E.Finished;
    }

    /** Up to the point where both copies are safe and nothing but the source's log is changed. */
    method Stage(luck: EncryptionLuck)
      requires Valid() && system.phase == E.Ready
      modifies this
      ensures AtOrFailed(E.StagingSynced) && old(run) <= run
      ensures system.phase == E.StagingSynced <==>
        && old(system.disk.backup) == E.Absent && old(system.disk.live) == E.Plain
        && luck.opens && luck.sound && luck.backsUp && luck.exports
        && luck.backupPasses && luck.backupSyncs && luck.stagingPasses && luck.stagingSyncs
    {
      Export(luck);
      if system.phase == E.Closed {
        SecureBackup(luck);
        if system.phase == E.BackupSynced {
          SecureStaging(luck);
        }
      }
    }

    /** The encrypted copy takes the source's place, once no log can be replayed into it. */
    method Put(luck: EncryptionLuck)
      requires Valid() && system.phase == E.StagingSynced
      modifies this
      ensures AtOrFailed(E.Finished) && old(run) <= run
      ensures system.phase == E.Finished <==>
        luck.cleans && luck.renames && (platform == E.Windows ==> luck.displaces && luck.removes)
    {
      Do(E.RemoveSidecars(luck.cleans, luck.logGone));
      if system.phase == E.Clean {
        Replace(luck);
      }
    }
  }
}
