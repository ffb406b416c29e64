/** The transfer engine (backup/backup_processor.py): source validation, the
    checksum ceiling, the copy/verify retry loop and the result of one backup.

    The file system is not modelled.  What the engine learns from it arrives as
    inputs: a `SourceProbe` per validation, the bytes of the source, and, per
    copy attempt, a `CopyAttempt` saying how the unlink/copy/verify went.  The
    checksum is an arbitrary function `digest` of a file's bytes. */
module Transfer {
  import opened Common

  type Bytes = seq<bv8>

  // ---------------------------------------------------------------------------
  // Source validation

  /** A `stat().st_size` reading, or the text of the exception it raised. */
  datatype Reading = Size(n: nat) | StatFailed(reason: string)

  /** What `_validate_source_file` observes: `exists()`, `is_file()`, then the
      three size readings it takes (the emptiness check, then two readings
      around a short sleep). */
  datatype SourceProbe = SourceProbe(present: bool, isFile: bool, size: Reading, size1: Reading, size2: Reading)

  /** The reasons `_validate_source_file` gives, in the order it checks them. */
  datatype ValidationError =
    | Missing                 // "File does not exist"
    | NotRegularFile          // "Not a regular file"
    | Empty                   // "File is empty"
    | NotTar(suffix: string)  // "Not a .tar file: <suffix>"
    | StillBeingWritten       // "File is still being written"
    | ValidationRaised(reason: string)  // "Validation error: <exception>"

  /** `_validate_source_file`: `None` for a valid file, otherwise the first check
      that fails. */
  function ValidateSource(name: string, p: SourceProbe): (r: Option<ValidationError>)
    ensures r.None? <==>
      p.present && p.isFile && p.size.Size? && p.size.n > 0 && Suffix(name) == ".tar" &&
      p.size1.Size? && p.size2.Size? && p.size1.n == p.size2.n
    ensures r == Some(Missing) <==> !p.present
    ensures r == Some(NotRegularFile) <==> p.present && !p.isFile
    ensures r == Some(Empty) <==> p.present && p.isFile && p.size == Size(0)
    ensures r.Some? && r.value.NotTar? <==>
      p.present && p.isFile && p.size.Size? && p.size.n > 0 && Suffix(name) != ".tar"
    ensures r.Some? && r.value.NotTar? ==> r.value.suffix == Suffix(name)
    ensures r == Some(StillBeingWritten) <==>
      p.present && p.isFile && p.size.Size? && p.size.n > 0 && Suffix(name) == ".tar" &&
      p.size1.Size? && p.size2.Size? && p.size1.n != p.size2.n
    ensures r.Some? && r.value.ValidationRaised? <==>
      p.present && p.isFile &&
      (p.size.StatFailed? || (p.size.n > 0 && Suffix(name) == ".tar" && (p.size1.StatFailed? || p.size2.StatFailed?)))
    ensures r.Some? && r.value.ValidationRaised? ==>
      r.value.reason == (if p.size.StatFailed? then p.size.reason
                         else if p.size1.StatFailed? then p.size1.reason else p.size2.reason)
  {
    if !p.present then Some(Missing)
    else if !p.isFile then Some(NotRegularFile)
    else match p.size
      case StatFailed(e) => Some(ValidationRaised(e))
      case Size(n) =>
        if n == 0 then Some(Empty)
        else if Suffix(name) != ".tar" then Some(NotTar(Suffix(name)))
        else match (p.size1, p.size2)
          case (StatFailed(e), _) => Some(ValidationRaised(e))
          case (_, StatFailed(e)) => Some(ValidationRaised(e))
          case (Size(s1), Size(s2)) => if s1 != s2 then Some(StillBeingWritten) else None
  }

  /** A name passes validation only when it ends in ".tar" with something before
      the dot: `x.tar.gz` and `.tar` are both refused. */
  lemma ValidSourceIsTar(name: string, p: SourceProbe)
    requires ValidateSource(name, p).None?
    ensures EndsWith(name, ".tar") && |name| > 4
  {
    SuffixTar(name);
  }

  // ---------------------------------------------------------------------------
  // Checksums

  /** Files of 10 GiB and more are copied without a checksum. */
  const ChecksumCeiling: nat := 10 * 1024 * 1024 * 1024

  /** `_should_calculate_checksum`: strictly below the ceiling. */
  predicate ShouldCalculateChecksum(size: nat)
    ensures ShouldCalculateChecksum(size) <==> size < 10737418240
  {
    size < ChecksumCeiling
  }

  /** Python's truthiness of an optional string. */
  predicate Truthy(s: Option<string>) {
    s.Some? && s.value != ""
  }

  // ---------------------------------------------------------------------------
  // Verifying one copy

  /** Why a copy attempt failed. */
  datatype CopyError =
    | DestinationMissing                           // "Destination file not created"
    | SizeMismatch(source: nat, dest: nat)         // "Size mismatch: source=.., dest=.."
    | ChecksumMismatch(expected: string, actual: string)
    | VerificationRaised(reason: string)           // "Verification error: <exception>"
    | CopyRaised(reason: string)                   // str(e) of an exception in unlink or copy2
    | FailedAfter(attempts: int, last: Option<CopyError>)  // "Failed after N attempts[: last]"

  /** Python's truthiness of the message a `CopyError` stands for: only the text of
      an exception can be empty. */
  predicate MessageTruthy(e: CopyError) {
    !(e.CopyRaised? && e.reason == "")
  }

  datatype Verdict = Verdict(ok: bool, error: Option<CopyError>, checksumMatch: bool)

  /** `_verify_copy`: the destination must exist and have the source's size; when a
      truthy source checksum is given, the destination's digest must equal it. */
  function VerifyCopy(sourceSize: nat, dest: Option<Bytes>, checksum: Option<string>, digest: Bytes -> string): (r: Verdict)
    ensures r.ok <==>
      dest.Some? && |dest.value| == sourceSize && (Truthy(checksum) ==> digest(dest.value) == checksum.value)
    ensures r.ok <==> r.error.None?
    ensures r.checksumMatch <==> r.ok && Truthy(checksum)
    ensures dest.None? ==> r.error == Some(DestinationMissing)
    ensures dest.Some? && |dest.value| != sourceSize ==> r.error == Some(SizeMismatch(sourceSize, |dest.value|))
  {
    if dest.None? then Verdict(false, Some(DestinationMissing), false)
    else if sourceSize != |dest.value| then Verdict(false, Some(SizeMismatch(sourceSize, |dest.value|)), false)
    else if Truthy(checksum) then
      var actual := digest(dest.value);
      if checksum.value != actual then Verdict(false, Some(ChecksumMismatch(checksum.value, actual)), false)
      else Verdict(true, None, true)
    else Verdict(true, None, false)
  }

  // ---------------------------------------------------------------------------
  // The retry loop

  /** How one attempt of `_copy_with_retry` went: the unlink of a stale destination
      or `copy2` raised; or the copy finished and `_verify_copy` read the source
      size and saw the destination (absent, or its bytes); or a `stat` inside
      `_verify_copy` raised. */
  datatype CopyAttempt =
    | Raised(reason: string)
    | Copied(sourceSize: nat, dest: Option<Bytes>)
    | VerifyRaised(reason: string)

  function AttemptVerdict(c: CopyAttempt, checksum: Option<string>, digest: Bytes -> string): (v: Verdict)
    ensures v.ok ==> c.Copied?
    ensures !v.ok ==> v.error.Some?
  {
    match c
    case Raised(reason) => Verdict(false, Some(CopyRaised(reason)), false)
    case VerifyRaised(reason) => Verdict(false, Some(VerificationRaised(reason)), false)
    case Copied(sourceSize, dest) => VerifyCopy(sourceSize, dest, checksum, digest)
  }

  /** `(success, error, attempts_made, checksum_match)`. */
  datatype CopyReport = CopyReport(success: bool, error: Option<CopyError>, attempts: int, checksumMatch: bool)

  /** A report together with the sleeps taken between attempts. */
  datatype RetryRun = RetryRun(report: CopyReport, waits: seq<int>)

  /** The message kept for the final report: `last_error` when it is truthy. */
  function KeptError(lastError: Option<CopyError>): Option<CopyError> {
    if lastError.Some? && MessageTruthy(lastError.value) then lastError else None
  }

  /** The retry loop from attempt `a` on, `lastError` being the error of the attempt
      before it. */
  function Retry(a: nat, maxRetries: int, retryDelay: int, checksum: Option<string>, digest: Bytes -> string,
                 attempts: nat -> CopyAttempt, lastError: Option<CopyError>): (r: RetryRun)
    requires a >= 1
    ensures r.report.success ==> a <= r.report.attempts <= maxRetries && r.report.error.None?
    ensures !r.report.success ==> r.report.attempts == maxRetries && !r.report.checksumMatch
    ensures !r.report.success ==> r.report.error.Some? && r.report.error.value.FailedAfter?
    ensures |r.waits| <= if a <= maxRetries then maxRetries - a else 0
    decreases if a <= maxRetries then maxRetries - a + 1 else 0
  {
    if a > maxRetries then
      RetryRun(CopyReport(false, Some(FailedAfter(maxRetries, KeptError(lastError))), maxRetries, false), [])
    else
      var v := AttemptVerdict(attempts(a), checksum, digest);
      if v.ok then RetryRun(CopyReport(true, None, a, v.checksumMatch), [])
      else
        var rest := Retry(a + 1, maxRetries, retryDelay, checksum, digest, attempts, v.error);
        RetryRun(rest.report, (if a < maxRetries then [retryDelay * a] else []) + rest.waits)
  }

  /** `_copy_with_retry`: attempts 1 to `max_retries`, stopping at the first whose
      verification passes, sleeping `retry_delay * attempt` after every failed
      attempt but the last. */
  method CopyWithRetry(maxRetries: int, retryDelay: int, checksum: Option<string>, digest: Bytes -> string,
                       attempts: nat -> CopyAttempt)
    returns (report: CopyReport, waits: seq<int>)
    ensures RetryRun(report, waits) == Retry(1, maxRetries, retryDelay, checksum, digest, attempts, None)
  {
    var lastError: Option<CopyError> := None;
    waits := [];
    var attempt := 1;
    ghost var run := Retry(1, maxRetries, retryDelay, checksum, digest, attempts, None);
    while attempt <= maxRetries
      invariant attempt >= 1
      invariant run.report == Retry(attempt, maxRetries, retryDelay, checksum, digest, attempts, lastError).report
      invariant run.waits == waits + Retry(attempt, maxRetries, retryDelay, checksum, digest, attempts, lastError).waits
      decreases maxRetries - attempt
    {
      RetryStep(attempt, maxRetries, retryDelay, checksum, digest, attempts, lastError);
      var verdict := AttemptVerdict(attempts(attempt), checksum, digest);
      if verdict.ok {
        return CopyReport(true, None, attempt, verdict.checksumMatch), waits;
      }
      lastError := verdict.error;
      if attempt < maxRetries {
        waits := waits + [retryDelay * attempt];
      }
      attempt := attempt + 1;
    }
    assert waits + [] == waits;
    report := CopyReport(false, Some(FailedAfter(maxRetries, KeptError(lastError))), maxRetries, false);
  }

  /** One attempt of the retry loop, unfolded. */
  lemma RetryStep(a: nat, maxRetries: int, retryDelay: int, checksum: Option<string>, digest: Bytes -> string,
                  attempts: nat -> CopyAttempt, lastError: Option<CopyError>)
    requires 1 <= a <= maxRetries
    ensures var v := AttemptVerdict(attempts(a), checksum, digest);
      var run := Retry(a, maxRetries, retryDelay, checksum, digest, attempts, lastError);
      var rest := Retry(a + 1, maxRetries, retryDelay, checksum, digest, attempts, v.error);
      && (v.ok ==> run == RetryRun(CopyReport(true, None, a, v.checksumMatch), []))
      && (!v.ok ==> run.report == rest.report)
      && (!v.ok ==> run.waits == (if a < maxRetries then [retryDelay * a] else []) + rest.waits)
  {
  }

  /** A successful run stops at the first attempt whose verification passes,
      and reports that attempt and its checksum flag. */
  lemma {:induction false} RetrySuccess(a: nat, maxRetries: int, retryDelay: int, checksum: Option<string>,
                                        digest: Bytes -> string, attempts: nat -> CopyAttempt, lastError: Option<CopyError>)
    requires a >= 1
    requires Retry(a, maxRetries, retryDelay, checksum, digest, attempts, lastError).report.success
    ensures var r := Retry(a, maxRetries, retryDelay, checksum, digest, attempts, lastError).report;
      && a <= r.attempts <= maxRetries
      && AttemptVerdict(attempts(r.attempts), checksum, digest).ok
      && r.checksumMatch == AttemptVerdict(attempts(r.attempts), checksum, digest).checksumMatch
      && r.error.None?
      && (forall b :: a <= b < r.attempts ==> !AttemptVerdict(attempts(b), checksum, digest).ok)
    decreases if a <= maxRetries then maxRetries - a + 1 else 0
  {
    var v := AttemptVerdict(attempts(a), checksum, digest);
    if !v.ok {
      RetrySuccess(a + 1, maxRetries, retryDelay, checksum, digest, attempts, v.error);
    }
  }

  /** A failed run made every attempt from `a` to `max_retries`, all failing, and
      reports `max_retries` attempts and the last attempt's error when truthy. */
  lemma {:induction false} RetryFailure(a: nat, maxRetries: int, retryDelay: int, checksum: Option<string>,
                                        digest: Bytes -> string, attempts: nat -> CopyAttempt, lastError: Option<CopyError>)
    requires a >= 1
    requires !Retry(a, maxRetries, retryDelay, checksum, digest, attempts, lastError).report.success
    ensures var r := Retry(a, maxRetries, retryDelay, checksum, digest, attempts, lastError).report;
      && r.attempts == maxRetries
      && !r.checksumMatch
      && (forall b :: a <= b <= maxRetries ==> !AttemptVerdict(attempts(b), checksum, digest).ok)
      && r.error == Some(FailedAfter(maxRetries,
           KeptError(if a <= maxRetries then AttemptVerdict(attempts(maxRetries), checksum, digest).error else lastError)))
    decreases if a <= maxRetries then maxRetries - a + 1 else 0
  {
    if a <= maxRetries {
      var v := AttemptVerdict(attempts(a), checksum, digest);
      RetryFailure(a + 1, maxRetries, retryDelay, checksum, digest, attempts, v.error);
    }
  }

  /** `[delay * lo, delay * (lo + 1), ..., delay * hi]`. */
  function Backoff(lo: int, hi: int, delay: int): (r: seq<int>)
    ensures |r| == (if hi >= lo then hi - lo + 1 else 0)
    decreases hi - lo + 1
  {
    if hi < lo then [] else [delay * lo] + Backoff(lo + 1, hi, delay)
  }

  /** The sleeps are `retry_delay * b` for every failed attempt `b` that was not the
      last one allowed. */
  lemma {:induction false} RetryWaits(a: nat, maxRetries: int, retryDelay: int, checksum: Option<string>,
                                      digest: Bytes -> string, attempts: nat -> CopyAttempt, lastError: Option<CopyError>)
    requires a >= 1
    ensures var run := Retry(a, maxRetries, retryDelay, checksum, digest, attempts, lastError);
      run.waits == Backoff(a, if run.report.success then run.report.attempts - 1 else maxRetries - 1, retryDelay)
    decreases if a <= maxRetries then maxRetries - a + 1 else 0
  {
    var run := Retry(a, maxRetries, retryDelay, checksum, digest, attempts, lastError);
    if a <= maxRetries {
      var v := AttemptVerdict(attempts(a), checksum, digest);
      if !v.ok {
        RetryWaits(a + 1, maxRetries, retryDelay, checksum, digest, attempts, v.error);
        if run.report.success {
          RetrySuccess(a + 1, maxRetries, retryDelay, checksum, digest, attempts, v.error);
        }
      }
    }
  }

  function Sum(s: seq<int>): int {
    if s == [] then 0 else s[0] + Sum(s[1..])
  }

  /** The sleeps of attempts `1..k` total `delay * k * (k + 1) / 2`. */
  lemma {:induction false} BackoffTotal(k: nat, delay: int)
    ensures 2 * Sum(Backoff(1, k, delay)) == delay * k * (k + 1)
  {
    if k > 0 {
      BackoffTotal(k - 1, delay);
      BackoffSnoc(1, k, delay);
      SumSnoc(Backoff(1, k - 1, delay), delay * k);
    }
  }

  lemma {:induction false} BackoffSnoc(lo: int, hi: int, delay: int)
    requires lo <= hi
    ensures Backoff(lo, hi, delay) == Backoff(lo, hi - 1, delay) + [delay * hi]
    decreases hi - lo
  {
    if lo < hi {
      BackoffSnoc(lo + 1, hi, delay);
    }
  }

  lemma {:induction false} SumSnoc(s: seq<int>, x: int)
    ensures Sum(s + [x]) == Sum(s) + x
  {
    if s != [] {
      assert (s + [x])[1..] == s[1..] + [x];
      SumSnoc(s[1..], x);
    }
  }

  /** A run that fails every attempt sleeps `retry_delay * (N - 1) * N / 2` in all. */
  lemma FullyFailedRunWaits(maxRetries: nat, retryDelay: int, checksum: Option<string>,
                            digest: Bytes -> string, attempts: nat -> CopyAttempt)
    requires maxRetries >= 1
    requires !Retry(1, maxRetries, retryDelay, checksum, digest, attempts, None).report.success
    ensures 2 * Sum(Retry(1, maxRetries, retryDelay, checksum, digest, attempts, None).waits) ==
      retryDelay * (maxRetries - 1) * maxRetries
  {
    RetryWaits(1, maxRetries, retryDelay, checksum, digest, attempts, None);
    BackoffTotal(maxRetries - 1, retryDelay);
  }

  // ---------------------------------------------------------------------------
  // One backup

  /** The settings `process_backup` reads. */
  datatype Settings = Settings(waitTime: int, maxRetries: int, retryDelay: int)

  /** Why `process_backup` failed. */
  datatype ProcessError =
    | ValidationFailed(reason: ValidationError)   // "Source validation failed: .."
    | ChangedDuringWait(reason: ValidationError)  // "Source changed during wait: .."
    | CopyFailed(copyError: CopyError)

  /** `BackupResult`, without the paths (they are the source path and the
      destination directory joined with the same name) and the duration. */
  datatype BackupResult = BackupResult(
    success: bool, sourceSize: nat, destinationSize: nat, error: Option<ProcessError>,
    attempts: int, checksumMatch: bool)

  /** How a call of `process_backup` ends: with a result, or with the exception
      that escapes it (reading the source for its checksum, or a `stat` taken
      for the result). */
  datatype Processed = Returned(result: BackupResult) | Escaped(reason: string)

  /** What `process_backup` learns from the file system: the probe before the
      wait, the probe after it, the source bytes when the checksum is taken (or
      the exception reading them raises), the copy attempts, and the `stat`
      readings of source and destination taken for the result. */
  datatype Observations = Observations(
    first: SourceProbe, second: SourceProbe, source: Bytes, checksumError: Option<string>,
    attempts: nat -> CopyAttempt, sourceSizeAfter: Reading, destSizeAfter: Reading)

  /** The checksum `process_backup` hands to the copy: the digest of the source,
      taken only under the ceiling. */
  function SourceChecksum(source: Bytes, digest: Bytes -> string): (r: Option<string>)
    ensures r.Some? <==> |source| < 10737418240
    ensures r.Some? ==> r.value == digest(source)
  {
    if ShouldCalculateChecksum(|source|) then Some(digest(source)) else None
  }

  /** The source passed the first validation and, after a positive wait, the
      second; without a wait the second is not taken. */
  predicate Validated(settings: Settings, name: string, obs: Observations) {
    ValidateSource(name, obs.first).None? &&
    (settings.waitTime <= 0 || ValidateSource(name, obs.second).None?)
  }

  /** The copy run `process_backup` starts for a validated source. */
  function CopyRun(settings: Settings, obs: Observations, digest: Bytes -> string): CopyReport {
    Retry(1, settings.maxRetries, settings.retryDelay, SourceChecksum(obs.source, digest), digest, obs.attempts, None).report
  }

  /** `process_backup`. */
  function ProcessBackup(settings: Settings, name: string, obs: Observations, digest: Bytes -> string): (r: Processed)
    ensures ValidateSource(name, obs.first).Some? ==>
      r == Returned(BackupResult(false, 0, 0, Some(ValidationFailed(ValidateSource(name, obs.first).value)), 1, false))
    ensures ValidateSource(name, obs.first).None? && settings.waitTime > 0 && ValidateSource(name, obs.second).Some? ==>
      r == Returned(BackupResult(false, 0, 0, Some(ChangedDuringWait(ValidateSource(name, obs.second).value)), 1, false))
    ensures Validated(settings, name, obs) && ShouldCalculateChecksum(|obs.source|) && obs.checksumError.Some? ==>
      r == Escaped(obs.checksumError.value)
    ensures Validated(settings, name, obs) && !(ShouldCalculateChecksum(|obs.source|) && obs.checksumError.Some?) ==>
      var rep := CopyRun(settings, obs, digest);
      && (obs.sourceSizeAfter.StatFailed? ==> r == Escaped(obs.sourceSizeAfter.reason))
      && (obs.sourceSizeAfter.Size? && rep.success && obs.destSizeAfter.StatFailed? ==> r == Escaped(obs.destSizeAfter.reason))
      && (obs.sourceSizeAfter.Size? && (!rep.success || obs.destSizeAfter.Size?) ==>
            r.Returned? &&
            r.result.success == rep.success && r.result.attempts == rep.attempts &&
            r.result.checksumMatch == rep.checksumMatch &&
            r.result.sourceSize == obs.sourceSizeAfter.n &&
            r.result.destinationSize == (if rep.success then obs.destSizeAfter.n else 0) &&
            (rep.success ==> r.result.error.None?) &&
            (!rep.success ==> rep.error.Some? && r.result.error == Some(CopyFailed(rep.error.value))))
    ensures r.Returned? && r.result.success ==>
      Validated(settings, name, obs) && 1 <= r.result.attempts <= settings.maxRetries && r.result.error.None?
    ensures r.Returned? && !r.result.success ==>
      r.result.destinationSize == 0 && !r.result.checksumMatch && r.result.error.Some?
    ensures r.Returned? && r.result.checksumMatch ==>
      ShouldCalculateChecksum(|obs.source|) && digest(obs.source) != "" && r.result.attempts >= 0 &&
      var a := obs.attempts(r.result.attempts);
      a.Copied? && a.dest.Some? && digest(a.dest.value) == digest(obs.source)
  {
    var first := ValidateSource(name, obs.first);
    if first.Some? then
      Returned(BackupResult(false, 0, 0, Some(ValidationFailed(first.value)), 1, false))
    else if settings.waitTime > 0 && ValidateSource(name, obs.second).Some? then
      Returned(BackupResult(false, 0, 0, Some(ChangedDuringWait(ValidateSource(name, obs.second).value)), 1, false))
    else if ShouldCalculateChecksum(|obs.source|) && obs.checksumError.Some? then
      Escaped(obs.checksumError.value)
    else
      var checksum := SourceChecksum(obs.source, digest);
      var report := CopyRun(settings, obs, digest);
      match obs.sourceSizeAfter
        case StatFailed(e) => Escaped(e)
        case Size(sourceSize) =>
          if report.success then
            RetrySuccess(1, settings.maxRetries, settings.retryDelay, checksum, digest, obs.attempts, None);
            match obs.destSizeAfter
              case StatFailed(e) => Escaped(e)
              case Size(destSize) =>
                Returned(BackupResult(true, sourceSize, destSize, None, report.attempts, report.checksumMatch))
          else
            RetryFailure(1, settings.maxRetries, settings.retryDelay, checksum, digest, obs.attempts, None);
            Returned(BackupResult(false, sourceSize, 0, Some(CopyFailed(report.error.value)), report.attempts, false))
  }

  /** Without a wait the second probe is never looked at: the result does not
      depend on it. */
  lemma NoWaitIgnoresSecondProbe(settings: Settings, name: string, obs: Observations, q: SourceProbe, digest: Bytes -> string)
    requires settings.waitTime <= 0
    ensures ProcessBackup(settings, name, obs, digest) == ProcessBackup(settings, name, obs.(second := q), digest)
  {
  }

  /** An exception escapes `process_backup` exactly when the source was validated
      and then the checksum read, the source `stat`, or after a successful copy
      the destination `stat` raises. */
  lemma EscapesExactly(settings: Settings, name: string, obs: Observations, digest: Bytes -> string)
    ensures var r := ProcessBackup(settings, name, obs, digest);
      r.Escaped? <==>
        Validated(settings, name, obs) &&
        ((ShouldCalculateChecksum(|obs.source|) && obs.checksumError.Some?) ||
         obs.sourceSizeAfter.StatFailed? ||
         (CopyRun(settings, obs, digest).success && obs.destSizeAfter.StatFailed?))
  {
  }
}
