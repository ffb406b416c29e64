/** The legacy single-file daemon (backup_sync.py, `BackupSyncHandler`).

    The source directory is fixed and watched without recursion, so a backup is
    identified by its file name.  The destination directory is the set `files`
    of names; what the daemon observes of one backup (the stat after the wait,
    whether the copy raised, the destination size after the copy, the
    destination enumeration seen by the cleanup and the names whose unlink
    raises) is an `Observation`. */
module Legacy {
  import opened Common
  import opened Retention

  /** What one call of `process_backup` observes: whether the backup is still
      there after the wait, its size, whether the copy raises, the size of the
      destination file after the copy (None when it is not there), the
      destination listing for the cleanup and the names whose unlink raises. */
  datatype Observation = Observation(
    present: bool,
    size: nat,
    copyRaises: bool,
    destSize: Option<nat>,
    enumerated: seq<Entry>,
    failing: set<string>)

  /** How one call of `process_backup` ended. */
  datatype Outcome =
    | InFlight
    | Vanished
    | EmptyFile
    | CopyRaised
    | SizeMismatch
    | Copied(deleted: seq<string>)

  // ---------------------------------------------------------------------------
  // Retention

  /** The records the legacy cleanup deletes: the `*.tar` records sorted by
      mtime, of which the `count - max_copies` oldest; a negative `max_copies`
      walks off the end of the list, which ends the pass after the last one. */
  function LegacyTargets(enumerated: seq<Entry>, maxCopies: int): (r: seq<Entry>)
    ensures forall e :: e in r ==> e in enumerated && EndsWith(e.name, ".tar")
    ensures var k := |Matching(enumerated, ".tar")|;
      |r| == if k <= maxCopies then 0 else if maxCopies >= 0 then k - maxCopies else k
  {
    var backupFiles := Matching(enumerated, ".tar");
    SortMembers(backupFiles);
    if |backupFiles| <= maxCopies then []
    else
      var toDelete := |backupFiles| - maxCopies;
      SortByMtime(backupFiles)[..if toDelete <= |backupFiles| then toDelete else |backupFiles|]
  }

  /** The legacy cleanup targets the same records as the cleanup manager without
      force, applied to the `*.tar` records. */
  lemma LegacyTargetsAgree(enumerated: seq<Entry>, maxCopies: int)
    ensures LegacyTargets(enumerated, maxCopies) == CleanupTargets(Matching(enumerated, ".tar"), maxCopies, false)
  {
    var backupFiles := Matching(enumerated, ".tar");
    var c := CleanupTargets(backupFiles, maxCopies, false);
    assert c == SortByMtime(backupFiles)[..|c|];
  }

  /** Unlinking the targets in order until the first unlink raises: a name no
      longer in the directory, or one whose unlink fails, ends the pass.  Gives
      the deleted names and the new directory. */
  function AbortingUnlink(targets: seq<Entry>, files: set<string>, failing: set<string>): (r: (seq<string>, set<string>))
    ensures r.1 <= files
    ensures forall n :: n in r.0 ==> n in files && n !in failing && n !in r.1
    decreases |targets|
  {
    if targets == [] then ([], files)
    else
      var n := targets[0].name;
      if n in files && n !in failing then
        var rest := AbortingUnlink(targets[1..], files - {n}, failing);
        ([n] + rest.0, rest.1)
      else ([], files)
  }

  /** The unlink loop of `_cleanup_old_backups`: `count` steps over the sorted
      files, where running past the end or an unlink that raises ends the pass. */
  method UnlinkUntilError(sorted: seq<Entry>, count: int, files: set<string>, failing: set<string>)
    returns (deleted: seq<string>, after: set<string>)
    ensures (deleted, after) == AbortingUnlink(sorted[..if count <= |sorted| then (if count < 0 then 0 else count) else |sorted|], files, failing)
  {
    ghost var targets := sorted[..if count <= |sorted| then (if count < 0 then 0 else count) else |sorted|];
    deleted := [];
    after := files;
    assert targets[0..] == targets;
    for i := 0 to (if count < 0 then 0 else count)
      invariant i <= |targets|
      invariant deleted + AbortingUnlink(targets[i..], after, failing).0 == AbortingUnlink(targets, files, failing).0
      invariant AbortingUnlink(targets[i..], after, failing).1 == AbortingUnlink(targets, files, failing).1
    {
      if i == |sorted| {
        // indexing past the end raises and ends the pass
        assert targets[i..] == [];
        assert deleted + [] == deleted;
        return;
      }
      assert targets[i] == sorted[i];
      var name := sorted[i].name;
      if name !in after || name in failing {
        // the unlink raises and ends the pass
        assert targets[i..][0] == targets[i];
        assert AbortingUnlink(targets[i..], after, failing) == ([], after);
        assert deleted + [] == deleted;
        return;
      }
      assert targets[i..][1..] == targets[i + 1..];
      after := after - {name};
      deleted := deleted + [name];
    }
    assert targets[|targets|..] == [];
    assert deleted + [] == deleted;
  }

  /** The pass deletes the names of a prefix of the targets. */
  lemma {:induction false} AbortingUnlinkDeletesPrefix(targets: seq<Entry>, files: set<string>, failing: set<string>)
    ensures var deleted := AbortingUnlink(targets, files, failing).0;
      |deleted| <= |targets| && deleted == Names(targets[..|deleted|])
  {
    if targets != [] {
      var n := targets[0].name;
      if n in files && n !in failing {
        AbortingUnlinkDeletesPrefix(targets[1..], files - {n}, failing);
        var rest := AbortingUnlink(targets[1..], files - {n}, failing).0;
        assert targets[..1 + |rest|] == [targets[0]] + targets[1..][..|rest|];
      } else {
        assert targets[..0] == [];
      }
    }
  }

  /** Exactly the deleted names leave the directory. */
  lemma {:induction false} AbortingUnlinkRemoves(targets: seq<Entry>, files: set<string>, failing: set<string>)
    ensures var (deleted, after) := AbortingUnlink(targets, files, failing);
      after == files - set n | n in deleted
  {
    if targets != [] {
      var n := targets[0].name;
      if n in files && n !in failing {
        AbortingUnlinkRemoves(targets[1..], files - {n}, failing);
        var rest := AbortingUnlink(targets[1..], files - {n}, failing).0;
        assert (set m | m in [n] + rest) == {n} + set m | m in rest;
      }
    }
  }

  /** A pass that stops before the end of the targets stops at one whose unlink
      raises: its name is gone from the directory or its unlink fails. */
  lemma {:induction false} AbortingUnlinkStopsAtFailure(targets: seq<Entry>, files: set<string>, failing: set<string>)
    ensures var (deleted, after) := AbortingUnlink(targets, files, failing);
      |deleted| < |targets| ==> targets[|deleted|].name !in after || targets[|deleted|].name in failing
  {
    if targets != [] {
      var n := targets[0].name;
      if n in files && n !in failing {
        AbortingUnlinkStopsAtFailure(targets[1..], files - {n}, failing);
        var rest := AbortingUnlink(targets[1..], files - {n}, failing).0;
        if 1 + |rest| < |targets| {
          assert targets[1 + |rest|] == targets[1..][|rest|];
        }
      }
    }
  }

  /** What the legacy pass deletes is always an initial part of what the cleanup
      manager, which skips a failing unlink and goes on, deletes from the same targets. */
  lemma {:induction false} AbortingUnlinkIsPrefix(targets: seq<Entry>, files: set<string>, failing: set<string>)
    ensures var deleted := AbortingUnlink(targets, files, failing).0;
      var all := UnlinkEach(targets, files, failing).0;
      |deleted| <= |all| && all[..|deleted|] == deleted
  {
    if targets != [] {
      var n := targets[0].name;
      if n in files && n !in failing {
        AbortingUnlinkIsPrefix(targets[1..], files - {n}, failing);
      }
    }
  }

  // ---------------------------------------------------------------------------
  // Processing one backup

  /** `process_backup` for a backup not already in flight: skipped when it
      vanished during the wait or is empty; otherwise copied, and the cleanup
      runs only when the destination then has the source's size. */
  function Process(name: string, files: set<string>, obs: Observation, maxCopies: int): (r: (Outcome, set<string>))
    ensures r.0.Copied? <==> obs.present && obs.size > 0 && !obs.copyRaises && obs.destSize == Some(obs.size)
    ensures !obs.present || obs.size == 0 || obs.copyRaises ==> r.1 == files
    ensures obs.present && obs.size > 0 && !obs.copyRaises && obs.destSize.None? ==>
      r == (SizeMismatch, files - {name})
    ensures obs.present && obs.size > 0 && !obs.copyRaises && obs.destSize.Some? && obs.destSize != Some(obs.size) ==>
      r == (SizeMismatch, files + {name})
    ensures r.0.Copied? ==>
      (r.0.deleted, r.1) == AbortingUnlink(LegacyTargets(obs.enumerated, maxCopies), files + {name}, obs.failing)
    ensures r.0 != InFlight
  {
    if !obs.present then (Vanished, files)
    else if obs.size == 0 then (EmptyFile, files)
    else if obs.copyRaises then (CopyRaised, files)
    else if obs.destSize.None? then (SizeMismatch, files - {name})
    else
      var copied := files + {name};
      if obs.destSize == Some(obs.size) then
        var (deleted, after) := AbortingUnlink(LegacyTargets(obs.enumerated, maxCopies), copied, obs.failing);
        (Copied(deleted), after)
      else (SizeMismatch, copied)
  }

  /** `process_backup` including the guard against a backup already in flight. */
  function Handle(name: string, processing: set<string>, files: set<string>, obs: Observation, maxCopies: int): (r: (Outcome, set<string>))
    ensures r.0 == InFlight <==> name in processing
    ensures name in processing ==> r.1 == files
  {
    if name in processing then (InFlight, files) else Process(name, files, obs, maxCopies)
  }

  /** Handling a backup adds at most that backup to the directory. */
  lemma HandleAddsAtMostName(name: string, processing: set<string>, files: set<string>, obs: Observation, maxCopies: int)
    ensures Handle(name, processing, files, obs, maxCopies).1 <= files + {name}
  {
    if name !in processing && obs.present && obs.size > 0 && !obs.copyRaises && obs.destSize == Some(obs.size) {
      AbortingUnlinkRemoves(LegacyTargets(obs.enumerated, maxCopies), files + {name}, obs.failing);
    }
  }

  // ---------------------------------------------------------------------------
  // Syncing the backups already in the source directory

  /** `sync_existing_backups`: each name is checked against the destination as
      it is at its turn and handed to `process_backup` when absent.  Gives the
      names handed over, in order, and the final directory. */
  function SyncPass(names: seq<string>, processing: set<string>, files: set<string>,
                    obs: string -> Observation, maxCopies: int): (r: (seq<string>, set<string>))
    ensures |r.0| <= |names|
    ensures (forall n :: n in names ==> n in files) ==> r == ([], files)
    decreases |names|
  {
    if names == [] then ([], files)
    else if names[0] in files then SyncPass(names[1..], processing, files, obs, maxCopies)
    else
      var after := Handle(names[0], processing, files, obs(names[0]), maxCopies).1;
      var rest := SyncPass(names[1..], processing, after, obs, maxCopies);
      ([names[0]] + rest.0, rest.1)
  }

  /** The names handed over keep their source order. */
  lemma {:induction false} SyncPassInOrder(names: seq<string>, processing: set<string>, files: set<string>,
                                          obs: string -> Observation, maxCopies: int)
    ensures IsSubsequence(SyncPass(names, processing, files, obs, maxCopies).0, names)
  {
    if names != [] {
      if names[0] in files {
        SyncPassInOrder(names[1..], processing, files, obs, maxCopies);
        SubsequenceCons(SyncPass(names[1..], processing, files, obs, maxCopies).0, names);
      } else {
        var after := Handle(names[0], processing, files, obs(names[0]), maxCopies).1;
        SyncPassInOrder(names[1..], processing, after, obs, maxCopies);
        var rest := SyncPass(names[1..], processing, after, obs, maxCopies).0;
        assert ([names[0]] + rest)[1..] == rest;
      }
    }
  }

  /** Distinct names none of which is at the destination are all handed over. */
  lemma {:induction false} SyncPassAllNew(names: seq<string>, processing: set<string>, files: set<string>,
                                         obs: string -> Observation, maxCopies: int)
    requires forall i, j :: 0 <= i < j < |names| ==> names[i] != names[j]
    requires forall n :: n in names ==> n !in files
    ensures SyncPass(names, processing, files, obs, maxCopies).0 == names
  {
    if names != [] {
      var after := Handle(names[0], processing, files, obs(names[0]), maxCopies).1;
      HandleAddsAtMostName(names[0], processing, files, obs(names[0]), maxCopies);
      forall n | n in names[1..] ensures n !in after {
        var k :| 0 <= k < |names[1..]| && names[1..][k] == n;
        assert names[k + 1] == n;
      }
      SyncPassAllNew(names[1..], processing, after, obs, maxCopies);
    }
  }

  class BackupSyncHandler {
    const maxCopies: int
    /** The backups being processed. */
    var processingFiles: set<string>
    /** The names present in the destination directory. */
    var files: set<string>

    constructor (maxCopies: int, files: set<string>)
      ensures this.maxCopies == maxCopies && this.files == files && processingFiles == {}
    {
      this.maxCopies := maxCopies;
      this.files := files;
      processingFiles := {};
    }

    /** `on_created`: directories and names whose suffix is not `.tar` are
        ignored (None); a backup is handed to `process_backup`. */
    method OnCreated(isDirectory: bool, srcPath: string, obs: Observation) returns (outcome: Option<Outcome>)
      modifies this
      ensures isDirectory || Suffix(FileName(srcPath)) != ".tar" ==> outcome == None && files == old(files)
      ensures !isDirectory && Suffix(FileName(srcPath)) == ".tar" ==>
        var r := Handle(FileName(srcPath), old(processingFiles), old(files), obs, maxCopies);
        outcome == Some(r.0) && files == r.1
      ensures processingFiles == old(processingFiles)
    {
      if isDirectory {
        return None;
      }
      var name := FileName(srcPath);
      if Suffix(name) != ".tar" {
        return None;
      }
      var o := ProcessBackup(name, obs);
      return Some(o);
    }

    /** `process_backup`: a backup already in flight returns at once; otherwise
        it is marked in flight, processed, and unmarked whatever happened. */
    method ProcessBackup(name: string, obs: Observation) returns (outcome: Outcome)
      modifies this
      ensures (outcome, files) == Handle(name, old(processingFiles), old(files), obs, maxCopies)
      ensures processingFiles == old(processingFiles)
    {
      if name in processingFiles {
        return InFlight;
      }
      processingFiles := processingFiles + {name};
      if !obs.present {
        outcome := Vanished;
      } else if obs.size == 0 {
        outcome := EmptyFile;
      } else if obs.copyRaises {
        outcome := CopyRaised;
      } else if obs.destSize.None? {
        files := files - {name};
        outcome := SizeMismatch;
      } else {
        files := files + {name};
        if obs.destSize == Some(obs.size) {
          var deleted := CleanupOldBackups(obs.enumerated, obs.failing);
          outcome := Copied(deleted);
        } else {
          outcome := SizeMismatch;
        }
      }
      processingFiles := processingFiles - {name};
    }

    /** `cleanup_old_backups`: deletes the oldest `*.tar` records beyond
        `max_copies`, oldest first, and stops at the first unlink that raises. */
    method CleanupOldBackups(enumerated: seq<Entry>, failing: set<string>) returns (deleted: seq<string>)
      modifies this
      ensures (deleted, files) == AbortingUnlink(LegacyTargets(enumerated, maxCopies), old(files), failing)
      ensures processingFiles == old(processingFiles)
    {
      var backupFiles := Matching(enumerated, ".tar");
      if |backupFiles| <= maxCopies {
        return [];
      }
      backupFiles := SortByMtime(backupFiles);
      var toDelete := |backupFiles| - maxCopies;
      assert LegacyTargets(enumerated, maxCopies) == backupFiles[..if toDelete <= |backupFiles| then toDelete else |backupFiles|];
      deleted, files := UnlinkUntilError(backupFiles, toDelete, files, failing);
    }

    /** `sync_existing_backups`: every `*.tar` name of the source absent from the
        destination at its turn is handed to `process_backup`, in order. */
    method SyncExistingBackups(sourceNames: seq<string>, obs: string -> Observation) returns (handed: seq<string>)
      modifies this
      ensures var r := SyncPass(Glob(sourceNames, ".tar"), old(processingFiles), old(files), obs, maxCopies);
        handed == r.0 && files == r.1
      ensures processingFiles == old(processingFiles)
    {
      var sourceBackups := Glob(sourceNames, ".tar");
      handed := [];
      assert sourceBackups[0..] == sourceBackups;
      for i := 0 to |sourceBackups|
        invariant processingFiles == old(processingFiles)
        invariant handed + SyncPass(sourceBackups[i..], processingFiles, files, obs, maxCopies).0 ==
                  SyncPass(sourceBackups, old(processingFiles), old(files), obs, maxCopies).0
        invariant SyncPass(sourceBackups[i..], processingFiles, files, obs, maxCopies).1 ==
                  SyncPass(sourceBackups, old(processingFiles), old(files), obs, maxCopies).1
      {
        assert sourceBackups[i..][1..] == sourceBackups[i + 1..];
        var backup := sourceBackups[i];
        if backup !in files {
          var _ := ProcessBackup(backup, obs(backup));
          handed := handed + [backup];
        }
      }
      assert sourceBackups[|sourceBackups|..] == [];
    }
  }
}
