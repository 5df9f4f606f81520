/**
The configuration transaction of the core service (mihomo/service.go ApplyConfig, SaveConfig,
RollbackConfig over mihomo/manager.go). applyMu makes each call one critical section, so the file,
its backup and the core are fields of one object. Outcomes of the file system, of "-t" and of the
core process are the fields of ApplyIO.
*/
module ConfigApply {
  import opened Wrappers

  /** os.WriteFile of the backup is not atomic: a crash inside it may leave anything behind, and so may a failure. */
  datatype BackupIO = Written(torn: Option<string>) | Broken(left: Option<string>)

  datatype ApplyIO = ApplyIO(
    busyAtEntry: bool,      // a core update job runs at the first test
    busyUnderLock: bool,    // ... at the second test, with applyMu held
    readable: bool,         // reading config.yaml fails with nothing but "does not exist"
    backup: BackupIO,
    save: bool,
    managed: bool,          // a process manager is attached
    valid: bool,            // the core accepts the new file
    start: bool,            // Start, or Restart of a running core, succeeds
    ready: bool,            // the listeners come up
    restore: bool,          // writing the previous file back
    remove: bool,           // removing the new file
    restart: bool)          // restarting on the previous file

  datatype ApplyError =
    | Busy | Unreadable | BackupFailed | SaveFailed | Invalid | StartFailed
    | RestoreFailed | RestartFailed | ActivationFailed | NoBackup

  /** config.yaml and config.yaml.bak, None when the file does not exist. */
  datatype Files = Files(live: Option<string>, backup: Option<string>)

  /** The files, and the text the running core was started with, None when it is stopped. */
  datatype Snapshot = Snapshot(files: Files, core: Option<string>)

  predicate NotBusy(io: ApplyIO) {
    !io.busyAtEntry && !io.busyUnderLock && io.readable
  }

  /** An apply gets as far as replacing the file. */
  predicate Reaches(before: Snapshot, content: string, io: ApplyIO) {
    NotBusy(io) && (before.files.live.Some? ==> io.backup.Written?) && content != "" && io.save
  }

  /** The new text is activated once it is in place. */
  predicate Activates(io: ApplyIO) {
    io.managed ==> io.valid && io.start && io.ready
  }

  /** Writing the previous file back, or removing the new one, succeeds; an empty text is never written. */
  predicate PutsBack(before: Snapshot, io: ApplyIO) {
    match before.files.live
    case Some(previous) => previous != "" && io.restore
    case None => io.remove
  }

  /** A refused apply leaves the previous file: it can be put back, or was the same text, and the code
      tries to, which it does not when a core was running without a file and refused to restart. */
  predicate Revertible(before: Snapshot, content: string, io: ApplyIO) {
    before.files.live == Some(content)
    || (PutsBack(before, io) && (before.files.live.None? && before.core.Some? ==> !io.valid))
  }

  /** The error of an apply that replaced the file but could not activate it. */
  function Failure(before: Snapshot, io: ApplyIO): ApplyError {
    if !io.valid then Invalid
    else if before.files.live.Some? && !PutsBack(before, io) then RestoreFailed
    else if before.core.None? then StartFailed
    else if before.files.live.Some? && !io.restart then RestartFailed
    else ActivationFailed
  }

  /** The error of an apply that stopped before replacing the file. */
  function EarlyFailure(before: Snapshot, io: ApplyIO): ApplyError {
    if io.busyAtEntry || io.busyUnderLock then Busy
    else if !io.readable then Unreadable
    else if before.files.live.Some? && io.backup.Broken? then BackupFailed
    else SaveFailed
  }

  /** The backup such an apply leaves. */
  function EarlyBackup(before: Snapshot, io: ApplyIO): Option<string> {
    if !NotBusy(io) || before.files.live.None? then before.files.backup
    else match io.backup
      case Written(_) => before.files.live
      case Broken(left) => left
  }

  /**
   What an apply promises. Success activates exactly the new text and keeps the previous one as backup.
   An error before the file is replaced changes neither file nor core. A later error restores the file
   exactly when that is possible, and then a core that was running runs the previous text again.
   */
  predicate Applied(before: Snapshot, content: string, io: ApplyIO, err: Option<ApplyError>, after: Snapshot) {
    if !Reaches(before, content, io) then
      && err == Some(EarlyFailure(before, io))
      && after == before.(files := before.files.(backup := EarlyBackup(before, io)))
    else
      && after.files.backup == (if before.files.live.Some? then before.files.live else before.files.backup)
      && if Activates(io) then
           err.None? && after.files.live == Some(content) && after.core == if io.managed then Some(content) else before.core
         else
           && err == Some(Failure(before, io))
           && (after.files.live == before.files.live || after.files.live == Some(content))
           && (after.files.live == before.files.live <==> Revertible(before, content, io))
           && after.core == (if !io.valid then before.core
                             else if before.core.None? then None
                             else if err == Some(ActivationFailed) && before.files.live.Some? then before.files.live
                             else if err == Some(RestartFailed) then None
                             else if io.start then Some(content) else None)
  }

  /** A state that loses nothing: the previous configuration is live, or the new one is and the previous is its backup. */
  predicate Recoverable(before: Files, content: string, f: Files) {
    f.live == before.live || (f.live == Some(content) && (before.live.Some? ==> f.backup == before.live))
  }

  class ConfigService {
    var files: Files
    var core: Option<string>
    /** Every state the two files have been in, oldest first: a crash leaves one of these behind. */
    var journal: seq<Files>

    ghost predicate Valid()
      reads this
    {
      |journal| > 0 && journal[|journal| - 1] == files
    }

    function Now(): Snapshot
      reads this
    {
      Snapshot(files, core)
    }

    /** All states since the journal had this length are recoverable. */
    ghost predicate CrashSafe(since: nat, before: Files, content: string)
      reads this
    {
      since <= |journal| && forall i | since <= i < |journal| :: Recoverable(before, content, journal[i])
    }

    constructor (files: Files, core: Option<string>)
      ensures Valid() && Now() == Snapshot(files, core) && journal == [files]
    {
      this.files, this.core, this.journal := files, core, [files];
    }

    /** One change a crash can come before or after. */
    method Commit(next: Files)
      requires Valid()
      modifies this`files, this`journal
      ensures Valid() && files == next && journal == old(journal) + [next]
    {
      files, journal := next, journal + [next];
    }

    /** ConfigManager.SaveConfig: one rename or nothing, and an empty text is refused. */
    method WriteLive(content: string, io: bool) returns (ok: bool)
      requires Valid()
      modifies this`files, this`journal
      ensures Valid() && (ok <==> content != "" && io)
      ensures files == if ok then old(files).(live := Some(content)) else old(files)
      ensures journal == if ok then old(journal) + [files] else old(journal)
    {
      ok := content != "" && io;
      if ok {
        Commit(files.(live := Some(content)));
      }
    }

    /** Put the previous file back after the new one was refused; failures are ignored. */
    method Revert(previous: Option<string>, io: ApplyIO) returns (restored: bool)
      requires Valid()
      modifies this`files, this`journal
      ensures Valid() && (restored <==> if previous.Some? then previous.value != "" && io.restore else io.remove)
      ensures files == if restored then old(files).(live := previous) else old(files)
      ensures journal == if restored then old(journal) + [files] else old(journal)
    {
      if previous.Some? {
        restored := WriteLive(previous.value, io.restore);
      } else {
        restored := io.remove;
        if restored {
          Commit(files.(live := None));
        }
      }
    }

    /** Keep a copy of the current file; a crash on the way may leave the copy torn, never the file. */
    method BackUp(io: ApplyIO) returns (ok: bool)
      requires Valid() && files.live.Some?
      modifies this`files, this`journal
      ensures Valid() && (ok <==> io.backup.Written?)
      ensures files == old(files).(backup := if ok then old(files).live else io.backup.left)
      ensures old(journal) <= journal && forall i | |old(journal)| <= i < |journal| :: journal[i].live == files.live
    {
      match io.backup
      case Broken(left) =>
        Commit(files.(backup := left));
        return false;
      case Written(torn) =>
        Commit(files.(backup := torn));
        Commit(files.(backup := files.live));
        return true;
    }

    /** The second half of ApplyConfig: activate the text now in place, or undo. */
    method Activate(before: Snapshot, content: string, io: ApplyIO) returns (err: Option<ApplyError>)
      requires Valid() && core == before.core && files.live == Some(content)
      modifies this
      ensures Valid() && files.backup == old(files).backup && old(journal) <= journal
      ensures err.None? <==> Activates(io)
      ensures err.None? ==> files == old(files) && core == if io.managed then Some(content) else before.core
      ensures err.Some? ==>
                && err.value == Failure(before, io)
                && (files.live == before.files.live <==> Revertible(before, content, io))
                && core == (if !io.valid then before.core
                            else if before.core.None? then None
                            else if err == Some(ActivationFailed) && before.files.live.Some? then before.files.live
                            else if err == Some(RestartFailed) then None
                            else if io.start then Some(content) else None)
      ensures forall i | |old(journal)| <= i < |journal| ::
                journal[i] == old(files).(live := before.files.live) || journal[i] == old(files)
      ensures files == old(files).(live := before.files.live) || files == old(files)
    {
      var previous := before.files.live;
      if !io.managed {
        return None;
      }
      if !io.valid {
        var _ := Revert(previous, io);
        return Some(Invalid);
      }
      if core.None? {
        if io.start && io.ready {
          core := files.live;
          return None;
        }
        core := None;
        var restored := Revert(previous, io);
        return Some(if previous.Some? && !restored then RestoreFailed else StartFailed);
      }
      core := if io.start then files.live else None;
      if io.start && io.ready {
        return None;
      }
      if previous.Some? {
        var restored := WriteLive(previous.value, io.restore);
        if !restored {
          return Some(RestoreFailed);
        }
        core := if io.restart then files.live else None;
        if !io.restart {
          return Some(RestartFailed);
        }
      }
      return Some(ActivationFailed);
    }

    /** ApplyConfig; a crash at any point leaves the previous configuration live or as the backup of the new one. */
    method ApplyConfig(content: string, io: ApplyIO) returns (err: Option<ApplyError>)
      requires Valid()
      modifies this
      ensures Valid() && Applied(old(Now()), content, io, err, Now())
      ensures old(journal) <= journal && CrashSafe(|old(journal)|, old(files), content)
    {
      if io.busyAtEntry || io.busyUnderLock {
        return Some(Busy);
      }
      if !io.readable {
        return Some(Unreadable);
      }
      ghost var start := |journal|;
      var before := Now();
      if files.live.Some? {
        var copied := BackUp(io);
        if !copied {
          return Some(BackupFailed);
        }
      }
      var saved := WriteLive(content, io.save);
      if !saved {
        return Some(SaveFailed);
      }
      err := Activate(before, content, io);
    }

    /** SaveConfig of the service: validate in place, put the previous file back on refusal; no backup is kept. */
    method SaveConfig(content: string, io: ApplyIO) returns (err: Option<ApplyError>)
      requires Valid()
      modifies this`files, this`journal
      ensures Valid() && files.backup == old(files).backup
      ensures err.None? <==> NotBusy(io) && content != "" && io.save && (io.managed ==> io.valid)
      ensures err.None? ==> files.live == Some(content)
      ensures err == Some(Invalid) <==> NotBusy(io) && content != "" && io.save && io.managed && !io.valid
      ensures err == Some(Invalid) ==>
                (files.live == old(files).live <==> old(files).live == Some(content) || PutsBack(old(Now()), io))
      ensures err.Some? && err != Some(Invalid) ==> files == old(files) && journal == old(journal)
      ensures old(journal) <= journal && forall i | |old(journal)| <= i < |journal| ::
                journal[i].live in {old(files).live, Some(content)} && journal[i].backup == old(files).backup
    {
      if io.busyAtEntry || io.busyUnderLock {
        return Some(Busy);
      }
      if !io.readable {
        return Some(Unreadable);
      }
      var previous := files.live;
      var saved := WriteLive(content, io.save);
      if !saved {
        return Some(SaveFailed);
      }
      if io.managed && !io.valid {
        var _ := Revert(previous, io);
        return Some(Invalid);
      }
      return None;
    }

    /** RollbackConfig: apply the backup, with everything that promises; without one nothing happens. */
    method RollbackConfig(io: ApplyIO) returns (err: Option<ApplyError>)
      requires Valid()
      modifies this
      ensures Valid() && old(journal) <= journal
      ensures old(files).backup.None? ==> err == Some(NoBackup) && Now() == old(Now()) && journal == old(journal)
      ensures old(files).backup.Some? ==>
                && Applied(old(Now()), old(files).backup.value, io, err, Now())
                && CrashSafe(|old(journal)|, old(files), old(files).backup.value)
    {
      if files.backup.None? {
        return Some(NoBackup);
      }
      err := ApplyConfig(files.backup.value, io);
    }

    /** Rolling back is its own inverse on the pair of files, provided there was a file to back up. */
    method RollbackTwice(first: ApplyIO, second: ApplyIO) returns (ok: bool)
      requires Valid()
      modifies this
      ensures Valid()
      ensures ok ==> (files == old(files) <==> old(files).live.Some?)
    {
      var err := RollbackConfig(first);
      if err.Some? {
        return false;
      }
      err := RollbackConfig(second);
      return err.None?;
    }
  }

  /** Everything goes well except what the caller chooses. */
  const SMOOTH := ApplyIO(false, false, true, Written(None), true, true, true, true, true, true, true, true)

  /** An empty previous file is lost: the text the core refused stays in place, without any I/O error. */
  method EmptyPreviousIsNotRestored(refused: string) returns (err: Option<ApplyError>, left: Option<string>)
    requires refused != ""
    ensures err == Some(Invalid) && left == Some(refused)
  {
    var service := new ConfigService(Files(Some(""), None), None);
    err := service.ApplyConfig(refused, SMOOTH.(valid := false));
    left := service.files.live;
  }

  /** With a core running and no file on disk, a text the core cannot activate stays in place. */
  method MissingPreviousIsNotRestored(refused: string, running: string)
    returns (err: Option<ApplyError>, left: Option<string>)
    requires refused != ""
    ensures err == Some(ActivationFailed) && left == Some(refused)
  {
    var service := new ConfigService(Files(None, None), Some(running));
    err := service.ApplyConfig(refused, SMOOTH.(ready := false));
    left := service.files.live;
  }
}
