/**
The core updater (mihomo/core_update.go): BeginCoreUpdate, performCoreUpdate with its recovery,
finishCoreUpdate and the start-up path initCoreUpdater.

While a job runs every other mutator is refused and performCoreUpdate holds applyMu, so a job is
a sequence of directory changes and process operations by one goroutine. Outcomes the code does
not control (downloads, probes, file errors, whether a core starts) are the fields of JobIO.
*/
module CoreUpdate {
  import opened Collections
  import opened Wrappers
  import opened CoreStore

  /** Which file a core is started from: the one shipped with the panel, or a managed artifact. */
  datatype Path = Bundled | Managed(sha: string)

  datatype Failure =
    | PreviousUnavailable | DownloadFailed | NotRunnable | VersionMismatch | ConfigInvalid
    | ConfigUnreadable | Unhealthy | OldVersionUnknown | OldUnreadable | BackupFailed
    | SelectionNotSaved | StopFailed | StopForRecoveryFailed | OldStartFailed | OldUnready
    | Restored(cause: SwitchFailure)

  datatype SwitchFailure = StartFailed | NotReady | CommitFailed

  datatype Refusal = SelectionUnavailable | Busy | NoPrevious | DirectoryUnusable

  /** What an update request meets before its job starts. */
  datatype BeginIO = BeginIO(
    prepared: bool,                // the directory exists without symbolic links and its lock file opens
    locked: bool,                  // another process holds the lock
    writable: bool,
    saved: bool)                   // job.json is written

  datatype JobIO = JobIO(
    download: Option<Binary>,      // the verified, unpacked archive
    publishCandidate: bool,
    probe: Binary -> Option<Version>,  // what "-v" prints, if the binary runs
    configValid: bool,             // the candidate accepts the configuration
    configReadable: bool,
    coreDied: bool,                // the running core exited before the job looked at it
    healthy: bool,                 // readiness of the current core
    backupReadable: bool,
    publishBackup: bool,
    saveSnapshot: bool,
    stop: bool,
    start: bool,
    ready: bool,
    saveFinal: bool,
    stopCandidate: bool,
    startOld: bool,
    oldReady: bool,
    saveJob: bool,
    stuck: set<string>)            // binaries that cannot be unlinked

  class Updater {
    const dir: CoreDirectory
    const bundled: Option<Binary>
    var initErr: bool
    var selection: Selection
    var job: Option<JobStatus>
    var binaryPath: Path
    var running: Option<Path>      // the file the live core was started from

    /** Memory and selection.json agree, except that a directory that did not load is left alone. */
    ghost predicate InSync()
      reads this, dir
    {
      if dir.disk.selection.Missing? then selection == NO_SELECTION
      else dir.disk.selection == Saved(1, selection)
    }

    /** A managed binary path names an entry of the directory; publishing never replaces entries. */
    ghost predicate PathExists()
      reads this, dir
    {
      binaryPath.Managed? ==> HexDigest(binaryPath.sha) && binaryPath.sha in dir.disk.binaries
    }

    /** Every state the directory has been in since start-up is sound, so a crash between any two of
        its changes leaves a directory from which the panel starts. */
    ghost predicate CrashSafe()
      reads this, dir
    {
      forall i | 0 <= i < |dir.journal| :: Sound(dir.sha, dir.journal[i])
    }

    ghost predicate Valid()
      reads this, dir
    {
      && dir.Valid()
      && (!initErr ==> InSync() && CrashSafe() && PathExists())
      && (job == Some(Running) ==> !initErr)
    }

    /** initCoreUpdater on the directory a previous process left behind. */
    constructor Boot(dir: CoreDirectory, bundled: Option<Binary>, prepared: bool)
      requires dir.Valid() && dir.journal == [dir.disk]
      ensures this.dir == dir && this.bundled == bundled
      ensures initErr <==> !Loads(dir.sha, dir.disk) || !(prepared || dir.disk.selection.Missing?)
      ensures !initErr ==> Some(selection) == Load(dir.sha, dir.disk)
      ensures Sound(dir.sha, dir.disk) ==> Valid()
      ensures job != Some(Running) && running == None
      ensures job == if initErr then None else if dir.disk.job == Some(Running) then Some(Failed(false)) else dir.disk.job
      ensures !initErr && dir.disk.selection.Saved? ==>
                binaryPath == Managed(dir.disk.selection.selection.active.value.sha) && PathIsActive()
      ensures initErr || dir.disk.selection.Missing? ==> binaryPath == Bundled
    {
      this.dir := dir;
      this.bundled := bundled;
      initErr := !Loads(dir.sha, dir.disk) || !(prepared || dir.disk.selection.Missing?);
      selection := NO_SELECTION;
      job := None;
      binaryPath := Bundled;
      running := None;
      new;
      if !initErr {
        if dir.disk.selection.Saved? {
          selection := dir.disk.selection.selection;
          binaryPath := Managed(selection.active.value.sha);
        }
        // An interrupted job is reported as failed, never as still running.
        job := if dir.disk.job == Some(Running) then Some(Failed(false)) else dir.disk.job;
      }
    }

    /** The bytes behind a binary path, if it names a regular file. */
    function ReadBinary(p: Path): Option<Binary>
      reads this, dir
    {
      match p
      case Bundled => bundled
      case Managed(h) =>
        if h in dir.disk.binaries && dir.disk.binaries[h].Regular? then Some(dir.disk.binaries[h].content) else None
    }

    /** The digest of the core the panel would start now. */
    function CurrentDigest(): Option<string>
      reads this, dir
    {
      match ReadBinary(binaryPath)
      case None => None
      case Some(b) => Some(dir.sha(b))
    }

    /** The same core with the version it prints, as a backup records it. */
    ghost function CurrentCore(io: JobIO): Option<Artifact>
      reads this, dir
    {
      match ReadBinary(binaryPath)
      case None => None
      case Some(b) => if io.probe(b).Some? then Some(Artifact(io.probe(b).value, dir.sha(b))) else None
    }

    /** The binary path points at the selected core, as after every start-up with a saved selection. */
    predicate PathIsActive()
      reads this, dir
    {
      selection.active.Some? && CurrentDigest() == Some(selection.active.value.sha)
    }

    /** What Start, Stop and exits of the core between two requests leave: it is up, from the current path, or not. */
    method Drift(up: bool)
      requires Valid()
      modifies this`running
      ensures Valid() && running == if up then Some(binaryPath) else None
    {
      running := if up then Some(binaryPath) else None;
    }

    /** BeginCoreUpdate up to the launch of the job goroutine; the version syntax check is the caller's. */
    method Begin(rollback: bool, version: Version, io: BeginIO) returns (refusal: Option<Refusal>, target: string)
      requires Valid()
      modifies this`job, dir
      ensures Valid()
      ensures dir.disk.selection == old(dir.disk).selection && dir.disk.binaries == old(dir.disk).binaries
      ensures refusal == Some(SelectionUnavailable) <==> initErr
      ensures refusal == Some(Busy) <==>
                !initErr && (old(job) == Some(Running)
                             || ((rollback ==> selection.previous.Some?) && io.prepared && io.locked))
      ensures refusal == Some(NoPrevious) <==>
                !initErr && old(job) != Some(Running) && rollback && selection.previous.None?
      ensures refusal.None? <==>
                !initErr && old(job) != Some(Running) && (rollback ==> selection.previous.Some?)
                && io == BeginIO(true, false, true, true)
      ensures refusal.None? ==> job == Some(Running) && dir.disk.job == Some(Running)
      ensures refusal.None? ==> target == if rollback then selection.previous.value.version else version
      ensures refusal.Some? ==> dir.disk == old(dir.disk) && (job == old(job) || job == None)
      ensures refusal == Some(Busy) ==> job == old(job)
      ensures dir.journal == if refusal.None? then old(dir.journal) + [dir.disk] else old(dir.journal)
    {
      target := version;
      if initErr {
        return Some(SelectionUnavailable), target;
      }
      if job == Some(Running) {
        return Some(Busy), target;
      }
      if rollback {
        if selection.previous.None? {
          return Some(NoPrevious), target;
        }
        target := selection.previous.value.version;
      }
      if !io.prepared {
        return Some(DirectoryUnusable), target;
      }
      if io.locked {
        return Some(Busy), target;
      }
      if !io.writable {
        return Some(DirectoryUnusable), target;
      }
      var ok := dir.SaveJob(Running, io.saved);
      if !ok {
        job := None;
        return Some(DirectoryUnusable), target;
      }
      job := Some(Running);
      return None, target;
    }

    /** quiesce: whatever it returns, the core is no longer running. */
    method Quiesce(ok: bool) returns (r: bool)
      modifies this`running
      ensures r == ok && running == None
    {
      running := None;
      return ok;
    }

    /** ProcessManager.Start on the current binary path. */
    method StartCore(ok: bool) returns (r: bool)
      modifies this`running
      ensures r <==> ok && ReadBinary(binaryPath).Some?
      ensures running == if r then Some(binaryPath) else old(running)
    {
      r := ok && ReadBinary(binaryPath).Some?;
      if r {
        running := Some(binaryPath);
      }
    }

    /** Every state of the directory since then says this of the last job. */
    ghost predicate JobStays(since: nat, status: Option<JobStatus>)
      reads this, dir
    {
      since <= |dir.journal| && forall i | since <= i < |dir.journal| :: dir.journal[i].job == status
    }

    ghost predicate KeepsBinaries(before: Disk)
      reads this, dir
    {
      forall h | h in before.binaries :: h in dir.disk.binaries && dir.disk.binaries[h] == before.binaries[h]
    }

    /** The candidate of the job: the saved previous core, or the verified download. */
    ghost function Candidate(version: string, rollback: bool, io: JobIO): (c: Option<Artifact>)
      reads this, dir
    {
      if rollback then
        if Verifies(dir.sha, dir.disk, selection.previous) then selection.previous else None
      else if io.download.Some? && io.publishCandidate && Publishable(dir.sha, dir.disk, io.download.value, version) then
        Some(Artifact(version, dir.sha(io.download.value)))
      else None
    }

    /** Publishing the download changes nothing the rest of an install looks at. */
    method FetchDownload(version: Version, io: JobIO) returns (candidate: Option<Artifact>)
      requires Valid() && !initErr && io.download.Some?
      modifies dir
      ensures Valid() && old(dir.journal) <= dir.journal && KeepsBinaries(old(dir.disk))
      ensures dir.disk.selection == old(dir.disk).selection && JobStays(|old(dir.journal)|, old(dir.disk).job)
      ensures dir.disk.job == old(dir.disk).job
      ensures candidate == old(Candidate(version, false, io))
      ensures candidate.Some? ==> Verifies(dir.sha, dir.disk, candidate)
      ensures dir.disk.binaries == old(dir.disk).binaries
              || (candidate.Some? && candidate.value.sha !in old(dir.disk).binaries
                  && dir.disk.binaries == old(dir.disk).binaries[candidate.value.sha := Regular(io.download.value, true)])
      ensures ReadBinary(binaryPath) == old(ReadBinary(binaryPath))
    {
      candidate := dir.PublishBinary(io.download.value, version, io.publishCandidate);
    }

    /** The candidate of a job; looking for it, or publishing it, changes nothing the rest of the job looks at. */
    method Fetch(version: string, rollback: bool, io: JobIO) returns (candidate: Option<Artifact>)
      requires Valid() && !initErr && (!rollback ==> version != "")
      modifies dir
      ensures Valid() && old(dir.journal) <= dir.journal && KeepsBinaries(old(dir.disk))
      ensures dir.disk.selection == old(dir.disk).selection && dir.disk.job == old(dir.disk).job
      ensures JobStays(|old(dir.journal)|, old(dir.disk).job)
      ensures candidate == old(Candidate(version, rollback, io))
      ensures candidate.Some? ==> Verifies(dir.sha, dir.disk, candidate)
      ensures dir.disk.binaries == old(dir.disk).binaries
              || (candidate.Some? && !rollback && candidate.value.sha !in old(dir.disk).binaries
                  && dir.disk.binaries == old(dir.disk).binaries[candidate.value.sha := Regular(io.download.value, true)])
      ensures ReadBinary(binaryPath) == old(ReadBinary(binaryPath))
      ensures candidate.Some? ==>
                InstallSucceeds(candidate.value, version, rollback, io)
                == old(InstallSucceeds(candidate.value, version, rollback, io))
    {
      if rollback {
        return if Verifies(dir.sha, dir.disk, selection.previous) then selection.previous else None;
      }
      if io.download.None? {
        return None;
      }
      candidate := FetchDownload(version, io);
      if candidate.Some? {
        assert ChecksPass(candidate.value, version, rollback, io) == old(ChecksPass(candidate.value, version, rollback, io));
        assert BackupPasses(io) == old(BackupPasses(io)) by {
          if candidate.value.sha !in old(dir.disk).binaries && ReadBinary(binaryPath).Some? {
            PublishingKeepsPublishable(dir.sha, old(dir.disk), io.download.value, ReadBinary(binaryPath).value);
          }
        }
      }
    }

    /** The bytes the candidate's file holds once it is published. */
    ghost function CandidateBytes(candidate: Artifact, io: JobIO): Binary
      reads this, dir
    {
      if candidate.sha in dir.disk.binaries && dir.disk.binaries[candidate.sha].Regular?
      then dir.disk.binaries[candidate.sha].content
      else if io.download.Some? then io.download.value else ""
    }

    /** The candidate runs, is the requested version and accepts the configuration; a core that is
        running now is healthy (only an install asks that) and readable. */
    ghost predicate ChecksPass(candidate: Artifact, version: string, rollback: bool, io: JobIO)
      reads this, dir
    {
      && io.probe(CandidateBytes(candidate, io)).Some?
      && io.probe(CandidateBytes(candidate, io)).value == version
      && io.configValid
      && io.configReadable
      && (running.Some? && !io.coreDied && !rollback ==> io.healthy)
      && ReadBinary(binaryPath).Some?
      && io.probe(ReadBinary(binaryPath).value).Some?
      && io.backupReadable
    }

    /** The current core can be backed up and, before the very first update, recorded as selected. */
    ghost predicate BackupPasses(io: JobIO)
      reads this, dir
    {
      && ReadBinary(binaryPath).Some?
      && io.probe(ReadBinary(binaryPath).value).Some?
      && io.publishBackup
      && Publishable(dir.sha, dir.disk, ReadBinary(binaryPath).value, io.probe(ReadBinary(binaryPath).value).value)
      && (selection.active.None? ==> io.saveSnapshot)
    }

    /** The obstacle an error names is there. */
    ghost predicate Obstacle(err: Failure, candidate: Artifact, version: string, rollback: bool, io: JobIO)
      reads this, dir
    {
      match err
      case NotRunnable => io.probe(CandidateBytes(candidate, io)).None?
      case VersionMismatch => io.probe(CandidateBytes(candidate, io)) != Some(version)
      case ConfigInvalid => !io.configValid
      case ConfigUnreadable => !io.configReadable
      case Unhealthy => running.Some? && !io.coreDied && !rollback && !io.healthy
      case OldVersionUnknown => ReadBinary(binaryPath).None? || io.probe(ReadBinary(binaryPath).value).None?
      case OldUnreadable => !io.backupReadable
      case _ => false
    }

    /** The checks of a job before it writes anything; they also notice a core that has died. */
    method Check(candidate: Artifact, version: string, rollback: bool, io: JobIO) returns (err: Option<Failure>)
      requires Valid() && !initErr && Verifies(dir.sha, dir.disk, Some(candidate))
      modifies this`running
      ensures Valid()
      ensures running == old(running) || (running == None && io.coreDied)
      ensures err.None? <==> old(ChecksPass(candidate, version, rollback, io))
      ensures err.Some? ==> old(Obstacle(err.value, candidate, version, rollback, io))
      ensures err.None? ==> running == if io.coreDied then None else old(running)
    {
      var proven := io.probe(dir.disk.binaries[candidate.sha].content);
      if proven.None? { return Some(NotRunnable); }
      if proven.value != version { return Some(VersionMismatch); }
      if !io.configValid { return Some(ConfigInvalid); }
      if !io.configReadable { return Some(ConfigUnreadable); }
      if io.coreDied { running := None; }
      if running.Some? && !rollback && !io.healthy { return Some(Unhealthy); }
      var current := ReadBinary(binaryPath);
      if current.None? || io.probe(current.value).None? { return Some(OldVersionUnknown); }
      if !io.backupReadable { return Some(OldUnreadable); }
      return None;
    }

    /** Publish the current core and, on the very first update, record it as the selection. */
    method BackUp(io: JobIO) returns (previous: Option<Artifact>, err: Option<Failure>)
      requires Valid() && !initErr
      requires ReadBinary(binaryPath).Some? && io.probe(ReadBinary(binaryPath).value).Some?
      modifies this`selection, dir
      ensures Valid() && old(dir.journal) <= dir.journal && KeepsBinaries(old(dir.disk))
      ensures dir.disk.job == old(dir.disk).job && JobStays(|old(dir.journal)|, old(dir.disk).job)
      ensures err.None? <==> old(BackupPasses(io))
      ensures err.Some? ==> err.value == if previous.None? then BackupFailed else SelectionNotSaved
      ensures err.None? ==> Verifies(dir.sha, dir.disk, previous) && selection.active.Some?
      ensures err.None? ==> previous == old(CurrentCore(io))
      ensures CurrentDigest() == old(CurrentDigest())
      ensures selection == old(selection)
              || (old(selection).active.None? && err.None? && selection == Selection(previous, None))
    {
      var current := ReadBinary(binaryPath).value;
      previous := dir.PublishBinary(current, io.probe(current).value, io.publishBackup);
      if previous.None? { return None, Some(BackupFailed); }
      if selection.active.None? {
        var snapshot := Selection(previous, None);
        var ok := dir.SaveSelection(snapshot, io.saveSnapshot);
        if !ok { return previous, Some(SelectionNotSaved); }
        selection := snapshot;
      }
      return previous, None;
    }

    /** recoverOld: put the previous core back after the switch failed. */
    method RecoverOld(previous: Artifact, wasRunning: bool, cause: SwitchFailure, io: JobIO)
      returns (rolledBack: bool, err: Option<Failure>)
      requires Valid() && !initErr && Verifies(dir.sha, dir.disk, Some(previous))
      modifies this`running, this`binaryPath
      ensures Valid() && err.Some?
      ensures rolledBack <==> io.stopCandidate && (wasRunning ==> io.startOld && io.oldReady)
      ensures rolledBack ==> CurrentDigest() == Some(previous.sha) && err == Some(Restored(cause))
      ensures rolledBack ==> running == if wasRunning then Some(binaryPath) else None
      ensures err.value == if !io.stopCandidate then StopForRecoveryFailed
                           else if wasRunning && !io.startOld then OldStartFailed
                           else if wasRunning && !io.oldReady then OldUnready else Restored(cause)
    {
      var stopped := Quiesce(io.stopCandidate);
      if !stopped { return false, Some(StopForRecoveryFailed); }
      binaryPath := Managed(previous.sha);
      if wasRunning {
        var started := StartCore(io.startOld);
        if !started { return false, Some(OldStartFailed); }
        if !io.oldReady { return false, Some(OldUnready); }
      }
      return true, Some(Restored(cause));
    }

    /** The switch proper holds from stopping the old core to committing the new selection. */
    ghost predicate SwitchSucceeds(wasRunning: bool, io: JobIO) {
      io.stop && (wasRunning ==> io.start && io.ready) && io.saveFinal
    }

    method Switch(candidate: Artifact, previous: Artifact, io: JobIO) returns (rolledBack: bool, err: Option<Failure>)
      requires Valid() && !initErr && selection.active.Some?
      requires Verifies(dir.sha, dir.disk, Some(candidate)) && Verifies(dir.sha, dir.disk, Some(previous))
      requires candidate.sha != previous.sha
      modifies this, dir
      ensures Valid() && old(dir.journal) <= dir.journal
      ensures initErr == old(initErr) && job == old(job)
      ensures dir.disk.binaries == old(dir.disk).binaries && dir.disk.job == old(dir.disk).job
      ensures JobStays(|old(dir.journal)|, old(dir.disk).job)
      ensures err.None? <==> SwitchSucceeds(old(running).Some?, io)
      ensures err.None? ==> !rolledBack && selection == Selection(Some(candidate), Some(previous))
      ensures err.None? ==> binaryPath == Managed(candidate.sha) && PathIsActive()
                            && running == if old(running).Some? then Some(binaryPath) else None
      ensures err.Some? ==> selection == old(selection) && dir.disk == old(dir.disk)
      ensures rolledBack <==> io.stop && err.Some? && io.stopCandidate && (old(running).Some? ==> io.startOld && io.oldReady)
      ensures rolledBack ==> err.value.Restored? && CurrentDigest() == Some(previous.sha)
      ensures rolledBack ==> running == if old(running).Some? then Some(binaryPath) else None
      ensures !io.stop ==> binaryPath == old(binaryPath)
      ensures err == Some(StopFailed) <==> !io.stop
      ensures err == Some(StopForRecoveryFailed) <==> io.stop && err.Some? && !io.stopCandidate
    {
      var wasRunning := running.Some?;
      var stopped := Quiesce(io.stop);
      if !stopped { return false, Some(StopFailed); }
      binaryPath := Managed(candidate.sha);
      if wasRunning {
        var started := StartCore(io.start);
        if !started {
          rolledBack, err := RecoverOld(previous, wasRunning, StartFailed, io);
          return;
        }
        if !io.ready {
          rolledBack, err := RecoverOld(previous, wasRunning, NotReady, io);
          return;
        }
      }
      var next := Selection(Some(candidate), Some(previous));
      var saved := dir.SaveSelection(next, io.saveFinal);
      if !saved {
        rolledBack, err := RecoverOld(previous, wasRunning, CommitFailed, io);
        return;
      }
      selection := next;
      return false, None;
    }

    /** The candidate is committed with the old core as its predecessor, is the core the panel starts
        from now on, and runs if the old one did. */
    ghost predicate Committed(candidate: Artifact, oldCore: Option<Artifact>, wasRunning: bool)
      reads this, dir
    {
      && selection == Selection(Some(candidate), oldCore)
      && Verifies(dir.sha, dir.disk, selection.previous)
      && binaryPath == Managed(candidate.sha) && PathIsActive()
      && running == if wasRunning then Some(binaryPath) else None
    }

    /** The selection is what it was, or the first snapshot of the core in use. */
    ghost predicate SelectionKept(before: Selection, oldCore: Option<Artifact>)
      reads this
    {
      selection == before || (before.active.None? && oldCore.Some? && selection == Selection(oldCore, None))
    }

    /** The three ways a job can end, for a candidate, the state before it and what it reports:
        committed (or nothing to change), rolled back to the running old core, or failed. */
    ghost predicate EndsAs(rolledBack: bool, err: Option<Failure>, candidate: Artifact, io: JobIO,
                           before: Selection, oldPath: Path, oldCore: Option<Artifact>, wasRunning: bool)
      reads this, dir
    {
      if err.None? then
        && !rolledBack && oldCore.Some?
        && if candidate.sha != oldCore.value.sha then Committed(candidate, oldCore, wasRunning)
           else SelectionKept(before, oldCore) && binaryPath == oldPath && CurrentDigest() == Some(oldCore.value.sha)
                && (running.Some? <==> wasRunning)
      else
        && SelectionKept(before, oldCore)
        && (rolledBack ==>
              && err.value.Restored?
              && oldCore.Some? && CurrentDigest() == Some(oldCore.value.sha)
              && running == (if wasRunning then Some(binaryPath) else None)
              && (wasRunning ==> io.startOld && io.oldReady))
    }

    /** The job from the backup on: nothing to do when the candidate is the current core. */
    method Replace(candidate: Artifact, io: JobIO) returns (rolledBack: bool, err: Option<Failure>)
      requires Valid() && !initErr && Verifies(dir.sha, dir.disk, Some(candidate))
      requires ReadBinary(binaryPath).Some? && io.probe(ReadBinary(binaryPath).value).Some?
      modifies this, dir
      ensures Valid() && initErr == old(initErr) && job == old(job)
      ensures old(dir.journal) <= dir.journal && dir.disk.job == old(dir.disk).job
      ensures JobStays(|old(dir.journal)|, old(dir.disk).job)
      ensures err.None? <==> old(BackupPasses(io))
                             && (Some(candidate.sha) == old(CurrentDigest()) || SwitchSucceeds(old(running).Some?, io))
      ensures EndsAs(rolledBack, err, candidate, io, old(selection), old(binaryPath), old(CurrentCore(io)), old(running).Some?)
    {
      var previous;
      previous, err := BackUp(io);
      if err.Some? {
        return false, err;
      }
      if candidate.sha == previous.value.sha {
        return false, None;
      }
      rolledBack, err := Switch(candidate, previous.value, io);
    }

    /** The job after its candidate is published. */
    method Install(candidate: Artifact, version: string, rollback: bool, io: JobIO)
      returns (rolledBack: bool, err: Option<Failure>)
      requires Valid() && !initErr && Verifies(dir.sha, dir.disk, Some(candidate))
      modifies this, dir
      ensures Valid() && initErr == old(initErr) && job == old(job)
      ensures old(dir.journal) <= dir.journal && dir.disk.job == old(dir.disk).job
      ensures JobStays(|old(dir.journal)|, old(dir.disk).job)
      ensures err.None? <==> old(InstallSucceeds(candidate, version, rollback, io))
      ensures EndsAs(rolledBack, err, candidate, io, old(selection), old(binaryPath), old(CurrentCore(io)),
                     old(running).Some? && !io.coreDied)
    {
      err := Check(candidate, version, rollback, io);
      if err.Some? {
        return false, err;
      }
      rolledBack, err := Replace(candidate, io);
    }

    ghost predicate InstallSucceeds(candidate: Artifact, version: string, rollback: bool, io: JobIO)
      reads this, dir
    {
      && ChecksPass(candidate, version, rollback, io)
      && BackupPasses(io)
      && (Some(candidate.sha) == CurrentDigest() || SwitchSucceeds(running.Some? && !io.coreDied, io))
    }

    /** The job is a success: every check passes, and it finds nothing to change or commits the candidate. */
    ghost predicate Succeeds(version: string, rollback: bool, io: JobIO)
      reads this, dir
    {
      var candidate := Candidate(version, rollback, io);
      candidate.Some? && InstallSucceeds(candidate.value, version, rollback, io)
    }

    /** The same for a job that may not have found a candidate, and then changes nothing. */
    ghost predicate JobEnds(rolledBack: bool, err: Option<Failure>, candidate: Option<Artifact>, io: JobIO,
                            before: Selection, oldPath: Path, oldCore: Option<Artifact>, oldRunning: Option<Path>)
      reads this, dir
    {
      if candidate.None? then
        err in {Some(PreviousUnavailable), Some(DownloadFailed)} && !rolledBack
        && selection == before && binaryPath == oldPath && running == oldRunning
      else
        EndsAs(rolledBack, err, candidate.value, io, before, oldPath, oldCore, oldRunning.Some? && !io.coreDied)
    }

    /**
     performCoreUpdate. A job either succeeds, rolls back, or fails without committing anything:
     the selection only ever becomes {candidate, old core}, and only after every check passed.
     */
    method PerformCoreUpdate(version: string, rollback: bool, io: JobIO)
      returns (rolledBack: bool, err: Option<Failure>)
      requires Valid() && !initErr && (!rollback ==> version != "")
      modifies this, dir
      ensures Valid() && initErr == old(initErr) && job == old(job)
      ensures old(dir.journal) <= dir.journal && dir.disk.job == old(dir.disk).job
      ensures JobStays(|old(dir.journal)|, old(dir.disk).job)
      ensures err.None? <==> old(Succeeds(version, rollback, io))
      ensures JobEnds(rolledBack, err, old(Candidate(version, rollback, io)), io, old(selection), old(binaryPath),
                      old(CurrentCore(io)), old(running))
    {
      var candidate := Fetch(version, rollback, io);
      if candidate.None? {
        return false, Some(if rollback then PreviousUnavailable else DownloadFailed);
      }
      rolledBack, err := Install(candidate.value, version, rollback, io);
    }

    /** What pruning keeps: the core in use and the two selected ones. */
    function Kept(): set<string>
      reads this
    {
      (if binaryPath.Managed? then {binaryPath.sha} else {})
      + (if selection.active.Some? then {selection.active.value.sha} else {})
      + (if selection.previous.Some? then {selection.previous.value.sha} else {})
    }

    /** The directory holds no binary beyond the kept ones and those that could not be unlinked. */
    ghost predicate Pruned(stuck: set<string>)
      reads this, dir
    {
      Named(dir.disk) <= Kept() + stuck
    }

    /** A pruned directory holds at most three binaries besides those that could not be unlinked. */
    lemma AtMostThreeBinaries(stuck: set<string>)
      requires Pruned(stuck)
      ensures |Named(dir.disk) - stuck| <= 3
    {
      var path := if binaryPath.Managed? then {binaryPath.sha} else {};
      var active := if selection.active.Some? then {selection.active.value.sha} else {};
      assert |path + active| <= |path| + |active|;
      assert |Kept()| <= |path + active| + 1;
      assert Named(dir.disk) - stuck <= Kept();
      SubsetIsSmaller(Named(dir.disk) - stuck, Kept());
    }

    /** pruneBinaries on the kept set. */
    method Prune(stuck: set<string>)
      requires Valid() && !initErr
      modifies dir
      ensures Valid() && old(dir.journal) <= dir.journal
      ensures dir.disk.selection == old(dir.disk).selection && CurrentDigest() == old(CurrentDigest())
      ensures Verifies(dir.sha, dir.disk, selection.previous) == old(Verifies(dir.sha, dir.disk, selection.previous))
      ensures dir.disk.job == old(dir.disk).job && JobStays(|old(dir.journal)|, old(dir.disk).job)
      ensures Pruned(stuck)
    {
      ghost var changes := |dir.journal|;
      dir.PruneBinaries(Kept(), stuck);
      forall i | changes <= i < |dir.journal| ensures Sound(dir.sha, dir.journal[i]) {
        SoundWithFewerBinaries(dir.sha, old(dir.disk), dir.journal[i]);
      }
    }

    /** What a finished job is reported as. */
    function Outcome(rolledBack: bool, err: Option<Failure>): JobStatus {
      if err.Some? then Failed(rolledBack) else Succeeded
    }

    /** finishCoreUpdate: record the outcome, on disk too if that write succeeds, and unlink every other binary. */
    method FinishCoreUpdate(rolledBack: bool, err: Option<Failure>, io: JobIO)
      requires Valid() && !initErr
      modifies this`job, dir
      ensures Valid() && old(dir.journal) <= dir.journal
      ensures job == Some(if err.Some? then Failed(rolledBack) else Succeeded)
      ensures dir.disk.job == if io.saveJob then job else old(dir.disk).job
      ensures JobStays(|old(dir.journal)|, dir.disk.job) && (io.saveJob ==> |old(dir.journal)| < |dir.journal|)
      ensures dir.disk.selection == old(dir.disk).selection && CurrentDigest() == old(CurrentDigest())
      ensures Verifies(dir.sha, dir.disk, selection.previous) == old(Verifies(dir.sha, dir.disk, selection.previous))
      ensures Pruned(io.stuck)
    {
      job := Some(Outcome(rolledBack, err));
      var _ := dir.SaveJob(job.value, io.saveJob);
      Prune(io.stuck);
    }

    /** The directory says from the one length of its journal on that the job runs, and from the other on how it ended. */
    ghost predicate JobTold(since: nat, end: nat, outcome: JobStatus)
      reads this, dir
    {
      && since < end <= |dir.journal|
      && (forall i | since <= i < end :: dir.journal[i].job == Some(Running))
      && (forall i | end <= i < |dir.journal| :: dir.journal[i].job == Some(outcome))
    }

    /** The goroutine of an accepted job. `end` is where the directory begins to tell how it ended. */
    method RunCoreUpdate(version: string, rollback: bool, io: JobIO, ghost since: nat)
      returns (rolledBack: bool, err: Option<Failure>, ghost end: nat)
      requires Valid() && !initErr && (!rollback ==> version != "")
      requires since < |dir.journal| && dir.disk.job == Some(Running)
      requires forall i | since <= i < |dir.journal| :: dir.journal[i].job == Some(Running)
      modifies this, dir
      ensures Valid() && !initErr && old(dir.journal) <= dir.journal && Pruned(io.stuck)
      ensures job == Some(if err.Some? then Failed(rolledBack) else Succeeded)
      ensures JobTold(since, end, job.value) && (io.saveJob <==> end < |dir.journal|)
      ensures dir.disk.job == if io.saveJob then job else Some(Running)
      ensures err.None? <==> old(Succeeds(version, rollback, io))
      ensures JobEnds(rolledBack, err, old(Candidate(version, rollback, io)), io, old(selection), old(binaryPath),
                      old(CurrentCore(io)), old(running))
      ensures err.None? || rolledBack ==> (running.Some? <==> old(running).Some? && !io.coreDied)
      ensures rollback && err.None? && old(PathIsActive()) ==> RolledBackFrom(old(selection), old(CurrentDigest()))
    {
      rolledBack, err := PerformCoreUpdate(version, rollback, io);
      ghost var finished := |dir.journal|;
      FinishCoreUpdate(rolledBack, err, io);
      end := if io.saveJob then finished else |dir.journal|;
    }

    /** Accepting a request decides nothing about its job. */
    method Accept(rollback: bool, version: Version, begin: BeginIO, ghost io: JobIO)
      returns (refusal: Option<Refusal>, target: string)
      requires Valid() && job != Some(Running)
      modifies this`job, dir
      ensures Valid() && (refusal.Some? ==> job != Some(Running) && dir.journal == old(dir.journal))
      ensures refusal.None? <==>
                !initErr && (rollback ==> selection.previous.Some?) && begin == BeginIO(true, false, true, true)
      ensures refusal.None? ==>
                && target == (if rollback then selection.previous.value.version else version)
                && dir.disk.job == Some(Running) && dir.journal == old(dir.journal) + [dir.disk]
                && Candidate(target, rollback, io) == old(Candidate(target, rollback, io))
                && Succeeds(target, rollback, io) == old(Succeeds(target, rollback, io))
      ensures CurrentDigest() == old(CurrentDigest()) && CurrentCore(io) == old(CurrentCore(io))
    {
      refusal, target := Begin(rollback, version, begin);
      if refusal.None? {
        assert Candidate(target, rollback, io) == old(Candidate(target, rollback, io));
        assert ReadBinary(binaryPath) == old(ReadBinary(binaryPath));
        assert BackupPasses(io) == old(BackupPasses(io));
        if Candidate(target, rollback, io).Some? {
          var a := Candidate(target, rollback, io).value;
          assert CandidateBytes(a, io) == old(CandidateBytes(a, io));
        }
      }
    }

    /** One update request from acceptance to the end of its job. */
    method RunUpdate(rollback: bool, version: Version, begin: BeginIO, io: JobIO)
      returns (refusal: Option<Refusal>, rolledBack: bool, err: Option<Failure>, ghost end: nat)
      requires Valid() && job != Some(Running)
      modifies this, dir
      ensures Valid() && initErr == old(initErr) && job != Some(Running)
      ensures old(dir.journal) <= dir.journal
      ensures refusal.None? ==> !initErr && Pruned(io.stuck)
      ensures refusal.None? ==> job == Some(if err.Some? then Failed(rolledBack) else Succeeded)
      ensures refusal.None? ==> JobTold(|old(dir.journal)|, end, job.value) && (io.saveJob <==> end < |dir.journal|)
      ensures refusal.None? ==> dir.disk.job == if io.saveJob then job else Some(Running)
      ensures refusal.Some? ==> running == old(running) && selection == old(selection) && dir.journal == old(dir.journal)
      ensures refusal.None? <==>
                !initErr && (rollback ==> old(selection).previous.Some?) && begin == BeginIO(true, false, true, true)
      ensures refusal.None? ==>
                var target := if rollback then old(selection).previous.value.version else version;
                && (err.None? <==> old(Succeeds(target, rollback, io)))
                && JobEnds(rolledBack, err, old(Candidate(target, rollback, io)), io, old(selection), old(binaryPath),
                           old(CurrentCore(io)), old(running))
      ensures refusal.None? && (err.None? || rolledBack) ==>
                (running.Some? <==> old(running).Some? && !io.coreDied)
      ensures refusal.None? && rollback && err.None? && old(PathIsActive()) ==>
                RolledBackFrom(old(selection), old(CurrentDigest()))
    {
      var target;
      refusal, target := Accept(rollback, version, begin, io);
      rolledBack, err, end := false, None, 0;
      if refusal.Some? {
        return;
      }
      rolledBack, err, end := RunCoreUpdate(target, rollback, io, |old(dir.journal)|);
    }

    /** Active and previous core of the earlier selection have changed places. */
    ghost predicate RolledBackFrom(before: Selection, oldDigest: Option<string>)
      reads this, dir
    {
      && before.previous.Some?
      && selection.active == before.previous
      && selection.previous.Some? && Some(selection.previous.value.sha) == oldDigest
      && PathIsActive()
    }

    /** Rolling back twice returns to the selection one started from. */
    method RollbackTwice(version: Version, begin: BeginIO, first: JobIO, second: JobIO) returns (ok: bool)
      requires Valid() && !initErr && job != Some(Running) && PathIsActive()
      modifies this, dir
      ensures Valid()
      ensures ok ==>
                && old(selection).previous.Some?
                && selection.active.Some? && selection.previous.Some?
                && selection.active.value.sha == old(selection).active.value.sha
                && selection.previous.value.sha == old(selection).previous.value.sha
                && CurrentDigest() == old(CurrentDigest())
    {
      var refusal, _, err, _ := RunUpdate(true, version, begin, first);
      if refusal.Some? || err.Some? {
        return false;
      }
      var refusalAgain, _, errAgain, _ := RunUpdate(true, version, begin, second);
      return refusalAgain.None? && errAgain.None?;
    }
  }

  /** A start of the panel after that many of the changes the request before it makes (or after all of them),
      from an image that brings along a core of its own, or none. */
  datatype Restart = Restart(after: nat, image: Option<Binary>)

  /** Whether the core is up when an update request comes, the request, and the restart that cuts it short or follows it. */
  datatype Event = Event(up: bool, rollback: bool, version: Version, begin: BeginIO, io: JobIO, restart: Option<Restart>)

  /**
   The life of a panel host whose directory has no symbolic links: any number of update requests, each
   meeting a core that is up or down, any of them followed or cut short by a restart, a crash of the panel
   between two directory changes included. Every start may be one of another panel image with another bundled
   core. Every one of them accepts the saved selection, and so does the next one.
   */
  method Lifetime(sha: Binary -> string, image: Option<Binary>, disk: Disk, script: seq<Event>)
    returns (final: Disk, everyStartSucceeded: bool)
    requires IsDigest(sha) && Sound(sha, disk)
    ensures Sound(sha, final)
    ensures everyStartSucceeded
  {
    var dir := new CoreDirectory(sha, disk);
    var panel := new Updater.Boot(dir, image, true);
    everyStartSucceeded := !panel.initErr;
    for i := 0 to |script|
      invariant fresh(dir) && fresh(panel) && panel.dir == dir && dir.sha == sha
      invariant panel.Valid() && !panel.initErr && panel.job != Some(Running)
      invariant everyStartSucceeded
    {
      var e := script[i];
      panel.Drift(e.up);
      var before := |dir.journal| - 1;
      var _, _, _, _ := panel.RunUpdate(e.rollback, e.version, e.begin, e.io);
      if e.restart.Some? {
        var cut := before + e.restart.value.after;
        var left := dir.journal[if cut < |dir.journal| then cut else |dir.journal| - 1];
        dir := new CoreDirectory(sha, left);
        panel := new Updater.Boot(dir, e.restart.value.image, true);
        everyStartSucceeded := everyStartSucceeded && !panel.initErr;
      }
    }
    final := dir.disk;
  }

  /**
   What a restart after this many changes of the directory reports of the last job: cut short at any point between
   its acceptance and the record of its end it has failed; later it is what it was, failed, rolled back or not, or
   succeeded. A record that could not be written makes even a success look interrupted.
   */
  method RestartReports(panel: Updater, e: Event, after: nat, image: Option<Binary>)
    returns (accepted: bool, job: Option<JobStatus>, reported: Option<JobStatus>, ghost end: nat)
    requires panel.Valid() && !panel.initErr && panel.job != Some(Running)
    modifies panel, panel.dir
    ensures accepted ==> job.Some? && job != Some(Running) && (e.io.saveJob <==> end < |panel.dir.journal|)
    ensures accepted && old(|panel.dir.journal|) <= after < |panel.dir.journal| ==>
              reported == if after < end then Some(Failed(false)) else job
    ensures accepted && after >= |panel.dir.journal| ==> reported == if e.io.saveJob then job else Some(Failed(false))
  {
    var dir := panel.dir;
    var refusal, rolledBack, err;
    refusal, rolledBack, err, end := panel.RunUpdate(e.rollback, e.version, e.begin, e.io);
    accepted, job, reported := refusal.None?, panel.job, None;
    if accepted {
      var left := new CoreDirectory(dir.sha, if after < |dir.journal| then dir.journal[after] else dir.disk);
      var next := new Updater.Boot(left, image, true);
      BootsAnyway(dir, panel, if after < |dir.journal| then after else |dir.journal| - 1);
      reported := next.job;
    }
  }

  lemma BootsAnyway(dir: CoreDirectory, panel: Updater, i: nat)
    requires panel.Valid() && !panel.initErr && panel.dir == dir && i < |dir.journal|
    ensures Loads(dir.sha, dir.journal[i])
  {
  }

  /** Everything goes well; a core prints the version that belongs to its digest. */
  function Smooth(sha: Binary -> string, next: Binary, version: Version, oldVersion: Version): JobIO {
    JobIO(Some(next), true, b => Some(if sha(b) == sha(next) then version else oldVersion), true, true, false, true,
          true, true, true, true, true, true, true, true, true, true, true, {})
  }

  /** An install that meets no obstacle succeeds if both cores can be published. */
  lemma SmoothInstall(panel: Updater, next: Binary, version: Version, oldVersion: Version)
    requires panel.Valid() && !panel.initErr && panel.ReadBinary(panel.binaryPath).Some?
    requires panel.CurrentDigest() != Some(panel.dir.sha(next))
    requires Publishable(panel.dir.sha, panel.dir.disk, next, version)
    requires Publishable(panel.dir.sha, panel.dir.disk, panel.ReadBinary(panel.binaryPath).value, oldVersion)
    ensures panel.Succeeds(version, false, Smooth(panel.dir.sha, next, version, oldVersion))
  {
  }

  /** So does a rollback to a previous core that verifies, from a selected core that does. */
  lemma SmoothBack(panel: Updater, next: Binary, version: Version, oldVersion: Version)
    requires panel.Valid() && !panel.initErr && panel.PathIsActive()
    requires Verifies(panel.dir.sha, panel.dir.disk, panel.selection.active)
    requires Verifies(panel.dir.sha, panel.dir.disk, panel.selection.previous)
    requires panel.binaryPath == Managed(panel.dir.sha(next)) && panel.selection.active.value.sha == panel.dir.sha(next)
    requires panel.selection.previous.value.version == oldVersion
    requires panel.selection.previous.value.sha != panel.dir.sha(next) && panel.dir.sha("") != panel.dir.sha(next)
    ensures panel.Succeeds(oldVersion, true, Smooth(panel.dir.sha, next, version, oldVersion))
  {
  }

  /**
   An update that meets no obstacle installs the download with the old core as its predecessor, and a rollback after
   it exchanges the two; the core stays up or down throughout and both outcomes reach the disk. On an empty directory
   with a core shipped by the image this is the very first update.
   */
  method UpdateAndBack(panel: Updater, next: Binary, version: Version, oldVersion: Version)
    returns (installed: Selection, upAfter: bool)
    requires panel.Valid() && !panel.initErr && panel.job != Some(Running)
    requires panel.ReadBinary(panel.binaryPath).Some? && panel.CurrentDigest() != Some(panel.dir.sha(next))
    requires Publishable(panel.dir.sha, panel.dir.disk, next, version)
    requires Publishable(panel.dir.sha, panel.dir.disk, panel.ReadBinary(panel.binaryPath).value, oldVersion)
    requires panel.dir.sha(next) != panel.dir.sha("")
    modifies panel, panel.dir
    ensures panel.Valid()
    ensures installed == Selection(Some(Artifact(version, panel.dir.sha(next))),
                                   Some(Artifact(oldVersion, old(panel.CurrentDigest()).value)))
    ensures panel.selection == Selection(installed.previous, installed.active)
    ensures upAfter == old(panel.running.Some?) && panel.running.Some? == old(panel.running.Some?)
    ensures panel.CurrentDigest() == old(panel.CurrentDigest())
    ensures panel.dir.disk.job == Some(Succeeded)
  {
    var sha := panel.dir.sha;
    var io := Smooth(sha, next, version, oldVersion);
    SmoothInstall(panel, next, version, oldVersion);
    var refusal, rolledBack, err, end := panel.RunUpdate(false, version, BeginIO(true, false, true, true), io);
    installed, upAfter := panel.selection, panel.running.Some?;
    SmoothBack(panel, next, version, oldVersion);
    refusal, rolledBack, err, end := panel.RunUpdate(true, version, BeginIO(true, false, true, true), io);
  }
}
