/** The coordinator (backup/backup_orchestrator.py): per-backup counters and the
    bulk pass over the backups already in the source directory.

    Processing a backup and cleaning up the destination are done by other
    components; here the processor is an input `outcome` giving, per backup name,
    whether `process_backup` succeeded, failed or raised, and a cleanup is
    reported rather than performed.  `clock(i)` is the time read after the `i`-th
    source backup of the pass. */
module Coordinator {
  import opened Common
  import Transfer

  /** What `process_backup` did for one backup. */
  datatype ProcessOutcome = Succeeded | Failed | Raised

  /** How `process_single_backup` reads one call of `process_backup`: the
      result's success flag, or an exception it catches. */
  function OutcomeOf(p: Transfer.Processed): (o: ProcessOutcome)
    ensures o == Succeeded <==> p.Returned? && p.result.success
    ensures o == Failed <==> p.Returned? && !p.result.success
    ensures o == Raised <==> p.Escaped?
  {
    match p
      case Returned(result) => if result.success then Succeeded else Failed
      case Escaped(_) => Raised
  }

  /** `OrchestratorStatus`, without the two directory paths. */
  datatype OrchestratorStatus = OrchestratorStatus(
    isRunning: bool, isMonitoring: bool, startTime: real,
    backupsProcessed: nat, backupsFailed: nat, lastBackupTime: Option<real>)

  // ---------------------------------------------------------------------------
  // What a pass over the source backups does

  /** Whether the pass hands `name` to the processor: it is not yet at the destination. */
  predicate Attempted(name: string, dest: set<string>) {
    name !in dest
  }

  /** The names the pass reports as synced, in order. */
  function SyncedNames(names: seq<string>, dest: set<string>, outcome: string -> ProcessOutcome): (r: seq<string>)
    ensures |r| <= |names|
  {
    if names == [] then []
    else
      var last := names[|names| - 1];
      SyncedNames(names[..|names| - 1], dest, outcome) +
        (if Attempted(last, dest) && outcome(last) == Succeeded then [last] else [])
  }

  /** The synced names are exactly the names not yet at the destination whose
      processing succeeded. */
  lemma {:induction false} SyncedNamesMembers(names: seq<string>, dest: set<string>, outcome: string -> ProcessOutcome)
    ensures forall n :: n in SyncedNames(names, dest, outcome) <==> n in names && Attempted(n, dest) && outcome(n) == Succeeded
  {
    if names != [] {
      var last := names[|names| - 1];
      SyncedNamesMembers(names[..|names| - 1], dest, outcome);
      assert names == names[..|names| - 1] + [last];
    }
  }

  /** How many attempted names failed or raised. */
  function FailedCount(names: seq<string>, dest: set<string>, outcome: string -> ProcessOutcome): (r: nat)
    ensures r <= AttemptedCount(names, dest)
  {
    if names == [] then 0
    else
      var last := names[|names| - 1];
      FailedCount(names[..|names| - 1], dest, outcome) +
        (if Attempted(last, dest) && outcome(last) != Succeeded then 1 else 0)
  }

  /** How many names the pass hands to the processor. */
  function AttemptedCount(names: seq<string>, dest: set<string>): (r: nat)
    ensures r <= |names|
    ensures (forall n :: n in names ==> n in dest) ==> r == 0
  {
    if names == [] then 0
    else AttemptedCount(names[..|names| - 1], dest) + (if Attempted(names[|names| - 1], dest) then 1 else 0)
  }

  /** `last_backup_time` after the pass: the clock reading of the last success,
      or what it was before. */
  function LastSuccessTime(names: seq<string>, dest: set<string>, outcome: string -> ProcessOutcome,
                           clock: nat -> real, before: Option<real>): (r: Option<real>)
    ensures before.Some? ==> r.Some?
    ensures r != before ==> exists i :: 0 <= i < |names| && r == Some(clock(i)) && Attempted(names[i], dest) && outcome(names[i]) == Succeeded
  {
    if names == [] then before
    else
      var i := |names| - 1;
      if Attempted(names[i], dest) && outcome(names[i]) == Succeeded then Some(clock(i))
      else LastSuccessTime(names[..i], dest, outcome, clock, before)
  }

  /** Every attempted backup is counted exactly once, as a success or a failure;
      a skipped one is not counted. */
  lemma {:induction false} EachAttemptCountedOnce(names: seq<string>, dest: set<string>, outcome: string -> ProcessOutcome)
    ensures |SyncedNames(names, dest, outcome)| + FailedCount(names, dest, outcome) == AttemptedCount(names, dest)
  {
    if names != [] {
      EachAttemptCountedOnce(names[..|names| - 1], dest, outcome);
    }
  }

  /** The time of the last backup does not move when nothing synced. */
  lemma {:induction false} NoSyncKeepsLastTime(names: seq<string>, dest: set<string>, outcome: string -> ProcessOutcome,
                                              clock: nat -> real, before: Option<real>)
    requires SyncedNames(names, dest, outcome) == []
    ensures LastSuccessTime(names, dest, outcome, clock, before) == before
  {
    if names != [] {
      NoSyncKeepsLastTime(names[..|names| - 1], dest, outcome, clock, before);
    }
  }

  /** Nothing syncs when no name is both absent from the destination and successful. */
  lemma {:induction false} NothingToSync(names: seq<string>, dest: set<string>, outcome: string -> ProcessOutcome)
    requires forall i :: 0 <= i < |names| ==> !(Attempted(names[i], dest) && outcome(names[i]) == Succeeded)
    ensures SyncedNames(names, dest, outcome) == []
  {
    if names != [] {
      NothingToSync(names[..|names| - 1], dest, outcome);
    }
  }

  /** A second pass right after the first, with the synced names now at the
      destination and no new arrivals, syncs nothing. */
  lemma {:induction false} SyncTwice(names: seq<string>, dest: set<string>, outcome: string -> ProcessOutcome)
    ensures var synced := SyncedNames(names, dest, outcome);
      SyncedNames(names, dest + (set n | n in synced), outcome) == []
  {
    var synced := SyncedNames(names, dest, outcome);
    SyncedNamesMembers(names, dest, outcome);
    NothingToSync(names, dest + (set n | n in synced), outcome);
  }

  /** When something synced, the time of the last backup is the clock reading
      taken at the position of the last synced name. */
  lemma {:induction false} LastTimeIsLastSync(names: seq<string>, dest: set<string>, outcome: string -> ProcessOutcome,
                                             clock: nat -> real, before: Option<real>)
    requires SyncedNames(names, dest, outcome) != []
    ensures exists i :: (0 <= i < |names| && LastSuccessTime(names, dest, outcome, clock, before) == Some(clock(i)) &&
                         names[i] == Last(SyncedNames(names, dest, outcome)))
  {
    var i := |names| - 1;
    if !(Attempted(names[i], dest) && outcome(names[i]) == Succeeded) {
      var prefix := names[..i];
      LastTimeIsLastSync(prefix, dest, outcome, clock, before);
      var k :| 0 <= k < |prefix| && LastSuccessTime(prefix, dest, outcome, clock, before) == Some(clock(k)) &&
        prefix[k] == Last(SyncedNames(prefix, dest, outcome));
      assert names[k] == prefix[k];
    }
  }

  /** One more name in the pass: how the synced names, the failure count and the
      time of the last backup extend. */
  lemma PassStep(names: seq<string>, i: nat, dest: set<string>, outcome: string -> ProcessOutcome,
                 clock: nat -> real, before: Option<real>)
    requires i < |names|
    ensures var hit := Attempted(names[i], dest) && outcome(names[i]) == Succeeded;
      && SyncedNames(names[..i + 1], dest, outcome) == SyncedNames(names[..i], dest, outcome) + (if hit then [names[i]] else [])
      && FailedCount(names[..i + 1], dest, outcome) ==
           FailedCount(names[..i], dest, outcome) + (if Attempted(names[i], dest) && !hit then 1 else 0)
      && LastSuccessTime(names[..i + 1], dest, outcome, clock, before) ==
           (if hit then Some(clock(i)) else LastSuccessTime(names[..i], dest, outcome, clock, before))
  {
    assert names[..i + 1][..i] == names[..i];
  }

  function Last<T>(s: seq<T>): T
    requires s != []
  {
    s[|s| - 1]
  }

  /** The loop of `sync_existing_backups` over the source backups: a name already
      at the destination is skipped; otherwise the processor's outcome is counted,
      a success with the clock reading of its position. */
  method Pass(names: seq<string>, dest: set<string>, outcome: string -> ProcessOutcome,
              clock: nat -> real, before: Option<real>)
    returns (synced: seq<string>, failed: nat, last: Option<real>)
    ensures synced == SyncedNames(names, dest, outcome)
    ensures failed == FailedCount(names, dest, outcome)
    ensures last == LastSuccessTime(names, dest, outcome, clock, before)
  {
    synced, failed, last := [], 0, before;
    for i := 0 to |names|
      invariant synced == SyncedNames(names[..i], dest, outcome)
      invariant failed == FailedCount(names[..i], dest, outcome)
      invariant last == LastSuccessTime(names[..i], dest, outcome, clock, before)
    {
      var name := names[i];
      PassStep(names, i, dest, outcome, clock, before);
      if name in dest {
        continue;
      }
      if outcome(name) == Succeeded {
        last := Some(clock(i));
        synced := synced + [name];
      } else {
        // a failure and an exception are both counted as failed
        failed := failed + 1;
      }
    }
    assert names[..|names|] == names;
  }

  class BackupOrchestrator {
    var isRunning: bool
    var isMonitoring: bool
    const startTime: real
    var backupsProcessed: nat
    var backupsFailed: nat
    var lastBackupTime: Option<real>

    constructor (startTime: real)
      ensures !isRunning && !isMonitoring && this.startTime == startTime
      ensures backupsProcessed == 0 && backupsFailed == 0 && lastBackupTime == None
    {
      isRunning := false;
      isMonitoring := false;
      this.startTime := startTime;
      backupsProcessed := 0;
      backupsFailed := 0;
      lastBackupTime := None;
    }

    /** `sync_existing_backups`: every `*.tar` name of the source not yet at the
        destination is processed in order; successes are counted and returned,
        failures and exceptions counted; one cleanup follows if anything synced.
        A cleanup that raises makes the pass return an empty list, with the
        counters already updated. */
    method SyncExistingBackups(sourceNames: seq<string>, dest: set<string>, outcome: string -> ProcessOutcome,
                               clock: nat -> real, cleanupRaises: bool)
      returns (synced: seq<string>, cleanupRan: bool)
      modifies this
      ensures var tars := Glob(sourceNames, ".tar");
        && synced == (if cleanupRaises && cleanupRan then [] else SyncedNames(tars, dest, outcome))
        && backupsProcessed == old(backupsProcessed) + |SyncedNames(tars, dest, outcome)|
        && backupsFailed == old(backupsFailed) + FailedCount(tars, dest, outcome)
        && lastBackupTime == LastSuccessTime(tars, dest, outcome, clock, old(lastBackupTime))
      ensures cleanupRan <==> SyncedNames(Glob(sourceNames, ".tar"), dest, outcome) != []
      ensures isRunning == old(isRunning) && isMonitoring == old(isMonitoring)
    {
      var sourceBackups := Glob(sourceNames, ".tar");
      synced := [];
      if sourceBackups == [] {
        return [], false;
      }
      var passSynced, passFailed, passLast := Pass(sourceBackups, dest, outcome, clock, lastBackupTime);
      synced := passSynced;
      backupsProcessed := backupsProcessed + |passSynced|;
      backupsFailed := backupsFailed + passFailed;
      lastBackupTime := passLast;
      cleanupRan := synced != [];
      if cleanupRan && cleanupRaises {
        // the exception leaves the outer try: the pass reports nothing synced
        synced := [];
      }
    }

    /** `process_single_backup`: true exactly when the processor succeeded and
        the cleanup that follows a success did not raise.  A success is counted
        and stamped before the cleanup; any failure or exception is counted as a
        failure, so a raising cleanup counts the backup both ways. */
    method ProcessSingleBackup(outcome: ProcessOutcome, now: real, cleanupRaises: bool)
      returns (ok: bool, cleanupRan: bool)
      modifies this
      ensures ok <==> outcome == Succeeded && !cleanupRaises
      ensures cleanupRan <==> outcome == Succeeded
      ensures backupsProcessed == old(backupsProcessed) + (if outcome == Succeeded then 1 else 0)
      ensures backupsFailed == old(backupsFailed) + (if ok then 0 else 1)
      ensures lastBackupTime == if outcome == Succeeded then Some(now) else old(lastBackupTime)
      ensures isRunning == old(isRunning) && isMonitoring == old(isMonitoring)
    {
      match outcome {
        case Succeeded =>
          backupsProcessed := backupsProcessed + 1;
          lastBackupTime := Some(now);
          if cleanupRaises {
            backupsFailed := backupsFailed + 1;
            return false, true;
          }
          return true, true;
        case Failed =>
          backupsFailed := backupsFailed + 1;
          return false, false;
        case Raised =>
          backupsFailed := backupsFailed + 1;
          return false, false;
      }
    }

    /** `get_status`: a snapshot of the flags and counters. */
    function GetStatus(): (s: OrchestratorStatus)
      reads this
      ensures s.backupsProcessed == backupsProcessed && s.backupsFailed == backupsFailed
      ensures s.lastBackupTime == lastBackupTime && s.startTime == startTime
      ensures s.isRunning == isRunning && s.isMonitoring == isMonitoring
    {
      OrchestratorStatus(isRunning, isMonitoring, startTime, backupsProcessed, backupsFailed, lastBackupTime)
    }
  }
}
