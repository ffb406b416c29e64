/** The disk mounter (backup_sync/storage/disk_mounter.py): parsing `mount`
    output, finding where a device is mounted, unmounting with retries and the
    decision tree of mounting a USB device.

    Every external command is an input `CommandResult`; a command run several
    times takes its `k`-th result from a function of `k`. */
module Mounter {
  import opened Common

  datatype CommandResult = CommandResult(success: bool, stdout: string, stderr: string)

  datatype MountedDevice = MountedDevice(device: string, mountPoint: string, filesystem: string)

  // ---------------------------------------------------------------------------
  // `list_mounted_devices`

  /** The entry a line of `mount` output gives, if any: the line mentions
      "/dev/", has at least three tokens and its first token is a device path. */
  function LineEntry(line: string): (r: Option<MountedDevice>)
    ensures r.Some? ==> Contains(line, "/dev/") && |Words(line)| >= 3 && StartsWith(Words(line)[0], "/dev/")
    ensures r.Some? ==> r.value.filesystem == if |Words(line)| > 4 then Words(line)[4] else "unknown"
  {
    var parts := Words(line);
    if Contains(line, "/dev/") && |parts| >= 3 && StartsWith(parts[0], "/dev/") then
      Some(MountedDevice(parts[0][5..], parts[2], if |parts| > 4 then parts[4] else "unknown"))
    else None
  }

  function Entries(lines: seq<string>): (r: seq<MountedDevice>)
    ensures |r| <= |lines|
  {
    if lines == [] then []
    else (match LineEntry(lines[0]) case Some(e) => [e] case None => []) + Entries(lines[1..])
  }

  /** The entries are those of the qualifying lines, in line order: concatenating
      two runs of lines concatenates their entries. */
  lemma {:induction false} EntriesConcat(a: seq<string>, b: seq<string>)
    ensures Entries(a + b) == Entries(a) + Entries(b)
  {
    if a != [] {
      assert (a + b)[0] == a[0];
      assert (a + b)[1..] == a[1..] + b;
      EntriesConcat(a[1..], b);
    } else {
      assert a + b == b;
    }
  }

  /** Every entry comes from a qualifying line: the device is its first token
      without "/dev/", the mount point its third token, the filesystem its fifth
      token or "unknown". */
  lemma {:induction false} EntriesFromLines(lines: seq<string>)
    ensures forall e :: e in Entries(lines) ==> exists i :: 0 <= i < |lines| && LineEntry(lines[i]) == Some(e)
    ensures forall i :: 0 <= i < |lines| && LineEntry(lines[i]).Some? ==> LineEntry(lines[i]).value in Entries(lines)
  {
    if lines != [] {
      EntriesFromLines(lines[1..]);
      forall e | e in Entries(lines) ensures exists i :: 0 <= i < |lines| && LineEntry(lines[i]) == Some(e) {
        if e in Entries(lines[1..]) {
          var i :| 0 <= i < |lines[1..]| && LineEntry(lines[1..][i]) == Some(e);
          assert lines[i + 1] == lines[1..][i];
        }
      }
      forall i | 0 <= i < |lines| && LineEntry(lines[i]).Some? ensures LineEntry(lines[i]).value in Entries(lines) {
        if i > 0 {
          assert lines[1..][i - 1] == lines[i];
        }
      }
    }
  }

  /** A qualifying line's entry is the device of its first token. */
  lemma LineEntryShape(line: string)
    ensures var e := LineEntry(line);
      e.Some? ==> |Words(line)| >= 3 && Words(line)[0] == "/dev/" + e.value.device && e.value.mountPoint == Words(line)[2]
  {
    var parts := Words(line);
    if LineEntry(line).Some? {
      assert parts[0] == parts[0][..5] + parts[0][5..];
    }
  }

  /** `list_mounted_devices`: nothing when `mount` fails, otherwise one entry per
      qualifying line. */
  method ListMountedDevices(mount: CommandResult) returns (devices: seq<MountedDevice>)
    ensures !mount.success ==> devices == []
    ensures mount.success ==> devices == Entries(SplitOn(mount.stdout, '\n'))
  {
    devices := [];
    if !mount.success {
      return;
    }
    var lines := SplitOn(mount.stdout, '\n');
    for i := 0 to |lines|
      invariant devices == Entries(lines[..i])
    {
      assert lines[..i + 1] == lines[..i] + [lines[i]];
      EntriesConcat(lines[..i], [lines[i]]);
      assert [lines[i]][1..] == [];
      var entry := LineEntry(lines[i]);
      if entry.Some? {
        devices := devices + [entry.value];
      }
    }
    assert lines[..|lines|] == lines;
  }

  // ---------------------------------------------------------------------------
  // `_get_device_mount_point`

  /** Whether a line of `mount` output passes the fallback's test as written:
      it contains "/dev/<device>" anywhere and has at least three tokens. */
  predicate MentionsDevice(line: string, device: string) {
    Contains(line, "/dev/" + device) && |Words(line)| >= 3
  }

  /** The fallback as written: the third token of the first line that contains
      "/dev/<device>" anywhere and has at least three tokens. */
  function FallbackMountPointAsWritten(lines: seq<string>, device: string): (r: Option<string>)
    ensures r.None? <==> forall i :: 0 <= i < |lines| ==> !MentionsDevice(lines[i], device)
    ensures r.Some? ==> exists i :: (0 <= i < |lines| && MentionsDevice(lines[i], device) && Words(lines[i])[2] == r.value &&
      (forall j :: 0 <= j < i ==> !MentionsDevice(lines[j], device)))
  {
    if lines == [] then None
    else if MentionsDevice(lines[0], device) then Some(Words(lines[0])[2])
    else
      var r := FallbackMountPointAsWritten(lines[1..], device);
      assert forall i :: 1 <= i < |lines| ==> lines[i] == lines[1..][i - 1];
      if r.Some? then
        var k :| 0 <= k < |lines[1..]| && MentionsDevice(lines[1..][k], device) && Words(lines[1..][k])[2] == r.value &&
          (forall j :: 0 <= j < k ==> !MentionsDevice(lines[1..][j], device));
        assert lines[k + 1] == lines[1..][k];
        r
      else r
  }

  /** Whether a line of `mount` output is the mount of `device`: its first token
      is exactly the device path. */
  predicate MountsDevice(line: string, device: string) {
    var parts := Words(line);
    |parts| >= 3 && parts[0] == "/dev/" + device
  }

  /** The fallback as intended: the third token of the first line whose device
      is exactly `device`. */
  function FallbackMountPoint(lines: seq<string>, device: string): (r: Option<string>)
    ensures r.None? <==> forall i :: 0 <= i < |lines| ==> !MountsDevice(lines[i], device)
    ensures r.Some? ==> exists i :: (0 <= i < |lines| && MountsDevice(lines[i], device) && Words(lines[i])[2] == r.value &&
      (forall j :: 0 <= j < i ==> !MountsDevice(lines[j], device)))
  {
    if lines == [] then None
    else if MountsDevice(lines[0], device) then Some(Words(lines[0])[2])
    else
      var r := FallbackMountPoint(lines[1..], device);
      assert forall i :: 1 <= i < |lines| ==> lines[i] == lines[1..][i - 1];
      if r.Some? then
        var k :| 0 <= k < |lines[1..]| && MountsDevice(lines[1..][k], device) && Words(lines[1..][k])[2] == r.value &&
          (forall j :: 0 <= j < k ==> !MountsDevice(lines[1..][j], device));
        assert lines[k + 1] == lines[1..][k];
        r
      else r
  }

  /** The substring test lets the mount of another device through: for
      "sda1", the line of "sda10" is taken, so the fallback as written reports
      where sda10 is mounted, while the intended fallback finds sda1's line. */
  lemma FallbackAsWrittenMatchesLongerName()
    ensures var lines := ["/dev/sda10" + " " + "on" + " " + "/mnt", "/dev/sda1" + " " + "on" + " " + "/media"];
      FallbackMountPointAsWritten(lines, "sda1") == Some("/mnt") &&
      FallbackMountPoint(lines, "sda1") == Some("/media")
  {
    var l0 := "/dev/sda10" + " " + "on" + " " + "/mnt";
    var l1 := "/dev/sda1" + " " + "on" + " " + "/media";
    var lines := [l0, l1];
    WordsOfThree("/dev/sda10", "on", "/mnt");
    WordsOfThree("/dev/sda1", "on", "/media");
    assert StartsWith(l0, "/dev/" + "sda1") by {
      assert l0[..9] == "/dev/sda1";
    }
    assert "/dev/sda10" != "/dev/" + "sda1" by {
      assert |"/dev/sda10"| == 10;
    }
    assert !MountsDevice(l0, "sda1");
    assert MountsDevice(l1, "sda1");
    assert lines[1..] == [l1];
  }

  /** Where the device is mounted: the trimmed answer of `findmnt` when it gives
      one, otherwise the fallback over the lines of `mount`. */
  function GetDeviceMountPointSpec(device: string, findmnt: CommandResult, mount: CommandResult): (r: Option<string>)
    ensures findmnt.success && Strip(findmnt.stdout) != "" ==> r == Some(Strip(findmnt.stdout))
    ensures r.Some? && r != Some(Strip(findmnt.stdout)) ==>
      mount.success && exists i :: 0 <= i < |SplitOn(mount.stdout, '\n')| && MountsDevice(SplitOn(mount.stdout, '\n')[i], device)
    ensures !findmnt.success && !mount.success ==> r.None?
  {
    if findmnt.success && Strip(findmnt.stdout) != "" then Some(Strip(findmnt.stdout))
    else if mount.success && mount.stdout != "" then FallbackMountPoint(SplitOn(mount.stdout, '\n'), device)
    else None
  }
  /** `_get_device_mount_point`. */
  method GetDeviceMountPoint(device: string, findmnt: CommandResult, mount: CommandResult) returns (r: Option<string>)
    ensures r == GetDeviceMountPointSpec(device, findmnt, mount)
  {
    if findmnt.success && findmnt.stdout != "" {
      var mountPoint := Strip(findmnt.stdout);
      if mountPoint != "" {
        return Some(mountPoint);
      }
    }
    if mount.success && mount.stdout != "" {
      var lines := SplitOn(mount.stdout, '\n');
      for i := 0 to |lines|
        invariant FallbackMountPoint(lines[i..], device) == FallbackMountPoint(lines, device)
      {
        assert lines[i..][1..] == lines[i + 1..];
        if MountsDevice(lines[i], device) {
          return Some(Words(lines[i])[2]);
        }
      }
      assert lines[|lines|..] == [];
    }
    return None;
  }

  // ---------------------------------------------------------------------------
  // Unmounting

  /** Whether an attempt of `umount <device>` counts as done: it succeeded or
      the device was not mounted. */
  predicate UnmountDone(r: CommandResult) {
    r.success || Contains(Lower(r.stderr), "not mounted")
  }

  /** `unmount_device`: up to three attempts; true at the first that is done,
      false after three that are not.  `attempts` counts the commands run. */
  method UnmountDevice(umount: nat -> CommandResult) returns (ok: bool, attempts: nat)
    ensures 1 <= attempts <= 3
    ensures ok <==> exists k :: 0 <= k < 3 && UnmountDone(umount(k))
    ensures ok ==> UnmountDone(umount(attempts - 1)) && forall k :: 0 <= k < attempts - 1 ==> !UnmountDone(umount(k))
    ensures !ok ==> attempts == 3
  {
    for attempt := 0 to 3
      invariant forall k :: 0 <= k < attempt ==> !UnmountDone(umount(k))
    {
      var result := umount(attempt);
      if result.success {
        return true, attempt + 1;
      } else if Contains(Lower(result.stderr), "not mounted") {
        return true, attempt + 1;
      }
    }
    return false, 3;
  }

  /** `unmount_mount_point`: true without any command when the path is not a
      mount point; otherwise up to three attempts, true at the first success. */
  method UnmountMountPoint(isMountPoint: bool, umount: nat -> CommandResult) returns (ok: bool, attempts: nat)
    ensures !isMountPoint ==> ok && attempts == 0
    ensures isMountPoint ==> 1 <= attempts <= 3
    ensures isMountPoint ==> (ok <==> exists k :: 0 <= k < 3 && umount(k).success)
    ensures isMountPoint && ok ==> umount(attempts - 1).success && forall k :: 0 <= k < attempts - 1 ==> !umount(k).success
  {
    if !isMountPoint {
      return true, 0;
    }
    for attempt := 0 to 3
      invariant forall k :: 0 <= k < attempt ==> !umount(k).success
    {
      if umount(attempt).success {
        return true, attempt + 1;
      }
    }
    return false, 3;
  }

  // ---------------------------------------------------------------------------
  // Mounting

  /** Whether a failed `mount -t <fs>` is retried without `-t`. */
  predicate RetryWithoutType(first: CommandResult) {
    !first.success &&
    (Contains(Lower(first.stderr), "wrong fs type") || Contains(Lower(first.stderr), "unknown filesystem"))
  }

  /** `_perform_mount`: the first mount's success, else the retry's when the
      error names a wrong or unknown filesystem, else failure.  Gives the
      outcome and whether the retry ran. */
  function PerformMount(first: CommandResult, retry: CommandResult): (r: (bool, bool))
    ensures r.1 <==> RetryWithoutType(first)
    ensures r.0 <==> first.success || (RetryWithoutType(first) && retry.success)
  {
    if first.success then (true, false)
    else if RetryWithoutType(first) then (retry.success, true)
    else (false, false)
  }

  /** What `_detect_filesystem` gets from `blkid`, then from `lsblk`. */
  function DetectFilesystem(blkid: CommandResult, lsblk: CommandResult): (r: Option<string>)
    ensures r.Some? <==> (blkid.success && blkid.stdout != "") || (lsblk.success && lsblk.stdout != "")
    ensures blkid.success && blkid.stdout != "" ==> r == Some(Strip(blkid.stdout))
  {
    if blkid.success && blkid.stdout != "" then Some(Strip(blkid.stdout))
    else if lsblk.success && lsblk.stdout != "" then Some(Strip(lsblk.stdout))
    else None
  }

  /** What the mounter observes while mounting one device. */
  datatype MountProbes = MountProbes(
    deviceExists: bool,
    findmnt: CommandResult, mount: CommandResult,
    umount: nat -> CommandResult,
    blkid: CommandResult, lsblk: CommandResult,
    prepared: bool,
    firstMount: CommandResult, retryMount: CommandResult,
    findmntAfter: CommandResult, mountAfter: CommandResult)

  datatype MountError =
    | DeviceMissing
    | UnmountFailed(from: string)
    | PrepareFailed
    | MountCommandFailed
    | NotAtMountPoint

  datatype MountResult = MountResult(
    success: bool, device: string, mountPoint: string, filesystem: string,
    error: Option<MountError>, wasAlreadyMounted: bool)

  /** One of the three `umount` attempts is done. */
  predicate UnmountSucceeds(umount: nat -> CommandResult) {
    exists k :: 0 <= k < 3 && UnmountDone(umount(k))
  }

  /** The filesystem a mount uses: the given one unless it is empty, else the
      detected one, else "auto". */
  function ChosenFilesystem(filesystem: Option<string>, p: MountProbes): string {
    if filesystem.Some? && filesystem.value != "" then filesystem.value
    else OrDefault(DetectFilesystem(p.blkid, p.lsblk), "auto")
  }

  /** The device exists and is free to be mounted: it was not mounted, or it was
      mounted elsewhere and the unmount is done. */
  predicate FreeToMount(mountPoint: string, device: string, p: MountProbes) {
    p.deviceExists &&
    var current := GetDeviceMountPointSpec(device, p.findmnt, p.mount);
    current.None? || (current != Some(mountPoint) && UnmountSucceeds(p.umount))
  }

  /** `mount_usb_device`.  `mounted` tells whether a mount command was issued. */
  method MountUsbDevice(mountPoint: string, device: string, filesystem: Option<string>, p: MountProbes)
    returns (result: MountResult, mounted: bool)
    ensures result.device == device && result.mountPoint == mountPoint
    ensures result.success <==> result.error.None?
    ensures !p.deviceExists ==> result.error == Some(DeviceMissing) && result.filesystem == "" && !mounted
    ensures result.wasAlreadyMounted ==> result.success && !mounted
    ensures p.deviceExists ==> var current := GetDeviceMountPointSpec(device, p.findmnt, p.mount);
      && (current == Some(mountPoint) ==>
            result.success && result.wasAlreadyMounted &&
            result.filesystem == OrDefault(DetectFilesystem(p.blkid, p.lsblk), "unknown"))
      && (current.Some? && current != Some(mountPoint) && !UnmountSucceeds(p.umount) ==>
            result.error == Some(UnmountFailed(current.value)) && result.filesystem == "" && !mounted)
    ensures FreeToMount(mountPoint, device, p) ==>
      result.filesystem == ChosenFilesystem(filesystem, p) && !result.wasAlreadyMounted && (mounted <==> p.prepared)
    ensures FreeToMount(mountPoint, device, p) && !p.prepared ==> result.error == Some(PrepareFailed)
    ensures FreeToMount(mountPoint, device, p) && p.prepared ==>
      && (result.success <==>
            PerformMount(p.firstMount, p.retryMount).0 &&
            GetDeviceMountPointSpec(device, p.findmntAfter, p.mountAfter) == Some(mountPoint))
      && (!PerformMount(p.firstMount, p.retryMount).0 ==> result.error == Some(MountCommandFailed))
      && (PerformMount(p.firstMount, p.retryMount).0 &&
          GetDeviceMountPointSpec(device, p.findmntAfter, p.mountAfter) != Some(mountPoint) ==>
            result.error == Some(NotAtMountPoint))
    ensures result.success && !result.wasAlreadyMounted ==>
      FreeToMount(mountPoint, device, p) && p.prepared && mounted && PerformMount(p.firstMount, p.retryMount).0 &&
      GetDeviceMountPointSpec(device, p.findmntAfter, p.mountAfter) == Some(mountPoint)
  {
    mounted := false;
    if !p.deviceExists {
      return MountResult(false, device, mountPoint, "", Some(DeviceMissing), false), false;
    }
    var currentMount := GetDeviceMountPoint(device, p.findmnt, p.mount);
    if currentMount.Some? {
      if currentMount.value != mountPoint {
        var unmounted, _ := UnmountDevice(p.umount);
        if !unmounted {
          return MountResult(false, device, mountPoint, "", Some(UnmountFailed(currentMount.value)), false), false;
        }
      } else {
        var fsType := OrDefault(DetectFilesystem(p.blkid, p.lsblk), "unknown");
        return MountResult(true, device, mountPoint, fsType, None, true), false;
      }
    }
    var fs := ChosenFilesystem(filesystem, p);
    if !p.prepared {
      return MountResult(false, device, mountPoint, fs, Some(PrepareFailed), false), false;
    }
    mounted := true;
    var (mountSuccess, _) := PerformMount(p.firstMount, p.retryMount);
    if mountSuccess {
      var after := GetDeviceMountPoint(device, p.findmntAfter, p.mountAfter);
      if after == Some(mountPoint) {
        return MountResult(true, device, mountPoint, fs, None, false), true;
      } else {
        return MountResult(false, device, mountPoint, fs, Some(NotAtMountPoint), false), true;
      }
    } else {
      return MountResult(false, device, mountPoint, fs, Some(MountCommandFailed), false), true;
    }
  }
}
