/** The disk scanner (discovery/disk_scanner.py): flattening the `lsblk` device
    tree, parsing its text output, naming partitions and filtering USB devices.

    A device of the JSON tree is a map of string attributes with its children;
    the sysfs probes that decide whether a device is on the USB bus are an
    input `probe`, None when neither the device link nor the removable flag
    could be read, in which case the system-disk fallback decides. */
module Disks {
  import opened Common

  datatype Node = Node(attrs: map<string, string>, children: seq<Node>)

  /** One block device as the scanner lists it. */
  datatype Device = Device(
    name: string, size: string, kind: string, mountpoint: string,
    fsLabel: string, uuid: string, fstype: string, parent: string)

  datatype DiskInfo = DiskInfo(
    name: string, devicePath: string, sizeGb: real, filesystem: string, fsLabel: string,
    uuid: string, mountpoint: string, isUsb: bool, isPartition: bool, parentDisk: string)

  /** `device.get(key, "")`. */
  function Get(attrs: map<string, string>, key: string): string {
    if key in attrs then attrs[key] else ""
  }

  function DeviceOf(node: Node, parent: string): Device {
    Device(Get(node.attrs, "name"), Get(node.attrs, "size"), Get(node.attrs, "type"),
           Get(node.attrs, "mountpoint"), Get(node.attrs, "label"), Get(node.attrs, "uuid"),
           Get(node.attrs, "fstype"), parent)
  }

  // ---------------------------------------------------------------------------
  // The JSON tree

  /** The devices of a forest in preorder: each device, then its children
      (whose parent is its name), then its following siblings. */
  function Flatten(devices: seq<Node>, parent: string): (r: seq<Device>)
    ensures |r| >= |devices|
    ensures devices != [] ==> r[0] == DeviceOf(devices[0], parent)
    decreases devices
  {
    if devices == [] then []
    else
      var d := devices[0];
      assert d in devices;
      [DeviceOf(d, parent)] + Flatten(d.children, Get(d.attrs, "name")) + Flatten(devices[1..], parent)
  }

  /** Number of devices in a forest. */
  function NodeCount(devices: seq<Node>): nat
    decreases devices
  {
    if devices == [] then 0
    else
      assert devices[0] in devices;
      1 + NodeCount(devices[0].children) + NodeCount(devices[1..])
  }

  /** Every device of the tree is listed exactly once. */
  lemma {:induction false} FlattenCount(devices: seq<Node>, parent: string)
    ensures |Flatten(devices, parent)| == NodeCount(devices)
    decreases devices
  {
    if devices != [] {
      assert devices[0] in devices;
      FlattenCount(devices[0].children, Get(devices[0].attrs, "name"));
      FlattenCount(devices[1..], parent);
    }
  }

  /** Siblings keep their input order: the listing of two runs of siblings is
      the listing of the first followed by that of the second. */
  lemma {:induction false} FlattenConcat(a: seq<Node>, b: seq<Node>, parent: string)
    ensures Flatten(a + b, parent) == Flatten(a, parent) + Flatten(b, parent)
    decreases a
  {
    if a != [] {
      assert (a + b)[0] == a[0];
      assert (a + b)[1..] == a[1..] + b;
      FlattenConcat(a[1..], b, parent);
    } else {
      assert a + b == b;
    }
  }

  /** A device comes first in its own listing, with the parent passed in, and
      its children follow with its name as their parent. */
  lemma FlattenOne(d: Node, parent: string)
    ensures Flatten([d], parent) == [DeviceOf(d, parent)] + Flatten(d.children, Get(d.attrs, "name"))
  {
    assert [d][1..] == [];
  }

  /** Listing one more sibling appends that device and its subtree. */
  lemma FlattenSnoc(devices: seq<Node>, i: nat, parent: string)
    requires i < |devices|
    ensures Flatten(devices[..i + 1], parent) ==
      Flatten(devices[..i], parent) + [DeviceOf(devices[i], parent)] +
      Flatten(devices[i].children, Get(devices[i].attrs, "name"))
  {
    assert devices[..i + 1] == devices[..i] + [devices[i]];
    FlattenConcat(devices[..i], [devices[i]], parent);
    FlattenOne(devices[i], parent);
  }

  /** Every device of `r` has `parent` as its parent, or the name of a device
      listed before it. */
  predicate ParentsPrecede(r: seq<Device>, parent: string) {
    forall i :: 0 <= i < |r| ==> r[i].parent == parent || exists j :: 0 <= j < i && r[j].name == r[i].parent
  }

  /** In the listing, a device's parent is the parent passed in or a device
      listed before it. */
  lemma {:induction false} FlattenParentsPrecede(devices: seq<Node>, parent: string)
    ensures ParentsPrecede(Flatten(devices, parent), parent)
    decreases devices
  {
    if devices != [] {
      var d := devices[0];
      assert d in devices;
      var name := Get(d.attrs, "name");
      var kids := Flatten(d.children, name);
      var rest := Flatten(devices[1..], parent);
      FlattenParentsPrecede(d.children, name);
      FlattenParentsPrecede(devices[1..], parent);
      var r := [DeviceOf(d, parent)] + kids + rest;
      forall i | 0 <= i < |r| && r[i].parent != parent
        ensures exists j :: 0 <= j < i && r[j].name == r[i].parent
      {
        if i == 0 {
        } else if i < 1 + |kids| {
          var k := i - 1;
          assert r[i] == kids[k];
          if kids[k].parent == name {
            assert r[0].name == r[i].parent;
          } else {
            var j :| 0 <= j < k && kids[j].name == kids[k].parent;
            assert r[j + 1] == kids[j];
          }
        } else {
          var k := i - 1 - |kids|;
          assert r[i] == rest[k];
          var j :| 0 <= j < k && rest[j].name == rest[k].parent;
          assert r[j + 1 + |kids|] == rest[j];
        }
      }
    }
  }

  /** `_extract_devices_from_tree`: appends each device, then extends with the
      listing of its children when it has any. */
  method ExtractDevicesFromTree(devices: seq<Node>, parent: string) returns (result: seq<Device>)
    ensures result == Flatten(devices, parent)
    decreases devices
  {
    result := [];
    for i := 0 to |devices|
      invariant result == Flatten(devices[..i], parent)
    {
      var device := devices[i];
      assert device in devices;
      var name := Get(device.attrs, "name");
      FlattenSnoc(devices, i, parent);
      result := result + [DeviceOf(device, parent)];
      if device.children != [] {
        var sub := ExtractDevicesFromTree(device.children, name);
        result := result + sub;
      } else {
        assert Flatten(device.children, name) == [];
      }
    }
    assert devices[..|devices|] == devices;
  }

  // ---------------------------------------------------------------------------
  // The text output

  /** The device a row with at least seven tokens describes. */
  function RowDevice(parts: seq<string>): Device
    requires |parts| >= 7
  {
    Device(parts[0], parts[1], parts[2], parts[3], parts[4], parts[5], parts[6], "")
  }

  /** The device of one row, if it has at least seven whitespace-separated tokens. */
  function RowDevices(row: string): (r: seq<Device>)
    ensures |r| <= 1
  {
    var parts := Words(row);
    if |parts| >= 7 then [RowDevice(parts)] else []
  }

  /** The devices of the rows with at least seven whitespace-separated tokens. */
  function ParseRows(rows: seq<string>): (r: seq<Device>)
    ensures |r| <= |rows|
  {
    if rows == [] then [] else RowDevices(rows[0]) + ParseRows(rows[1..])
  }

  /** Every row with seven tokens yields its device, and no device has a parent. */
  lemma {:induction false} ParseRowsSpec(rows: seq<string>)
    ensures var r := ParseRows(rows);
      && (forall d :: d in r ==> d.parent == "")
      && (forall i :: 0 <= i < |rows| && |Words(rows[i])| >= 7 ==> RowDevice(Words(rows[i])) in r)
  {
    if rows != [] {
      ParseRowsSpec(rows[1..]);
      var r := ParseRows(rows);
      forall i | 0 <= i < |rows| && |Words(rows[i])| >= 7 ensures RowDevice(Words(rows[i])) in r {
        if i > 0 {
          assert rows[1..][i - 1] == rows[i];
        }
      }
    }
  }

  /** Every device comes from a row with seven tokens, read positionally. */
  lemma {:induction false} ParseRowsSound(rows: seq<string>)
    ensures forall d :: d in ParseRows(rows) ==>
      exists i :: 0 <= i < |rows| && |Words(rows[i])| >= 7 && d == RowDevice(Words(rows[i]))
  {
    if rows != [] {
      ParseRowsSound(rows[1..]);
      var r := ParseRows(rows);
      var rest := ParseRows(rows[1..]);
      forall d | d in r ensures exists i :: 0 <= i < |rows| && |Words(rows[i])| >= 7 && d == RowDevice(Words(rows[i])) {
        if d !in rest {
          assert d == RowDevice(Words(rows[0]));
        } else {
          var i :| 0 <= i < |rows[1..]| && |Words(rows[1..][i])| >= 7 && d == RowDevice(Words(rows[1..][i]));
          assert rows[i + 1] == rows[1..][i];
        }
      }
    }
  }

  /** A token of `split()` is never empty, so no parsed field is empty: a row
      with an empty column has fewer tokens and is dropped. */
  lemma {:induction false} ParsedFieldsNonEmpty(rows: seq<string>)
    ensures forall d :: d in ParseRows(rows) ==>
      d.name != "" && d.size != "" && d.kind != "" && d.mountpoint != "" && d.fsLabel != "" && d.uuid != "" && d.fstype != ""
  {
    if rows != [] {
      ParsedFieldsNonEmpty(rows[1..]);
    }
  }

  lemma {:induction false} ParseRowsConcat(a: seq<string>, b: seq<string>)
    ensures ParseRows(a + b) == ParseRows(a) + ParseRows(b)
  {
    if a == [] {
      assert a + b == b;
    } else {
      assert (a + b)[0] == a[0] && (a + b)[1..] == a[1..] + b;
      ParseRowsConcat(a[1..], b);
    }
  }

  /** Parsing one more row appends its device, if it has one. */
  lemma ParseRowsStep(rows: seq<string>, i: nat)
    requires i < |rows|
    ensures ParseRows(rows[..i + 1]) == ParseRows(rows[..i]) + RowDevices(rows[i])
  {
    assert rows[..i + 1] == rows[..i] + [rows[i]];
    ParseRowsConcat(rows[..i], [rows[i]]);
    assert [rows[i]][1..] == [];
  }

  /** `_parse_lsblk_text`: the header line is skipped and every other line of the
      stripped output is parsed as a row. */
  method ParseLsblkText(textOutput: string) returns (devices: seq<Device>)
    ensures devices == ParseRows(SplitOn(Strip(textOutput), '\n')[1..])
  {
    var lines := SplitOn(Strip(textOutput), '\n');
    var rows := lines[1..];
    devices := [];
    for i := 0 to |rows|
      invariant devices == ParseRows(rows[..i])
    {
      ParseRowsStep(rows, i);
      var parts := Words(rows[i]);
      if |parts| >= 7 {
        devices := devices + [RowDevice(parts)];
      }
    }
    assert rows[..|rows|] == rows;
  }

  // ---------------------------------------------------------------------------
  // Partitions

  /** `re.search(r'\d+$', name)`. */
  predicate IsPartition(name: string) {
    EndsWithDigit(name)
  }

  /** The parent disk of a partition: its name without the trailing digits. */
  function ParentDisk(name: string): (r: string)
    ensures !IsPartition(name) ==> r == name
    ensures !IsPartition(r)
    ensures |r| <= |name| && name[..|r|] == r
    ensures IsPartition(name) ==> |r| < |name|
    ensures forall i :: |r| <= i < |name| ==> IsDigit(name[i])
  {
    if IsPartition(name) then StripTrailingDigits(name) else name
  }

  /** A parent disk is its own parent disk. */
  lemma ParentDiskIdempotent(name: string)
    ensures ParentDisk(ParentDisk(name)) == ParentDisk(name)
  {
  }

  /** The detailed record of a device (`_get_detailed_disk_info`); the size in
      gigabytes is parsed elsewhere and passed in. */
  function DetailedDiskInfo(device: Device, sizeGb: real, probe: string -> Option<bool>): (r: DiskInfo)
    ensures r.isPartition <==> IsPartition(device.name)
    ensures r.parentDisk == ParentDisk(device.name)
    ensures r.isUsb == IsUsbDevice(device.name, probe)
    ensures r.devicePath == "/dev/" + device.name
    ensures r.name == device.name && r.sizeGb == sizeGb && r.filesystem == device.fstype
    ensures r.fsLabel == device.fsLabel && r.uuid == device.uuid && r.mountpoint == device.mountpoint
  {
    DiskInfo(device.name, "/dev/" + device.name, sizeGb, device.fstype, device.fsLabel, device.uuid,
             device.mountpoint, IsUsbDevice(device.name, probe), IsPartition(device.name), ParentDisk(device.name))
  }

  // ---------------------------------------------------------------------------
  // USB detection

  const SystemDisks: set<string> := {"sda", "mmcblk0", "nvme0n1", "vda"}

  /** `sda` or `vda` followed by digits only. */
  predicate DigitSuffixedSdaOrVda(name: string) {
    |name| >= 3 && (name[..3] == "sda" || name[..3] == "vda") && forall i :: 3 <= i < |name| ==> IsDigit(name[i])
  }

  /** A digit-stripped name is a listed system disk exactly when the name is
      `sda` or `vda` followed by digits only: `mmcblk0` and `nvme0n1` end in a
      digit, so no stripped name can equal them. */
  lemma StrippedIsSystemDisk(name: string)
    ensures StripTrailingDigits(name) in SystemDisks <==> DigitSuffixedSdaOrVda(name)
  {
    var r := StripTrailingDigits(name);
    if r in SystemDisks {
      assert r == "sda" || r == "vda" by {
        assert r == "sda" || r == "mmcblk0" || r == "nvme0n1" || r == "vda";
        assert EndsWithDigit("mmcblk0") && EndsWithDigit("nvme0n1");
      }
      assert |r| == 3 && name[..3] == r;
    }
    if DigitSuffixedSdaOrVda(name) {
      var d := name[..3];
      assert !EndsWithDigit(d);
      StripAppendedDigits(d, name[3..]);
      assert d + name[3..] == name;
      assert r == d;
    }
  }

  /** The last resort of `_is_usb_device` as written: the name without its
      trailing digits is not one of the listed system disks.  Only `sda`, `vda`
      and those names followed by digits are ever recognised. */
  function FallbackAsWritten(name: string): (r: bool)
    ensures !r <==> DigitSuffixedSdaOrVda(name)
  {
    StrippedIsSystemDisk(name);
    StripTrailingDigits(name) !in SystemDisks
  }

  /** The name with a partition suffix `p<digits>` removed when it follows a
      digit (`mmcblk0p1`, `nvme0n1p2`), otherwise unchanged. */
  function WithoutPartitionSuffix(name: string): (r: string)
    ensures |r| <= |name| && name[..|r|] == r
  {
    var base := StripTrailingDigits(name);
    if |base| < |name| && |base| >= 2 && base[|base| - 1] == 'p' && IsDigit(base[|base| - 2])
    then base[..|base| - 1] else name
  }

  /** The fallback as intended: a listed system disk is recognised by its own
      name, by `<disk><digits>` for `sda` and `vda`, and by `<disk>p<digits>`
      for `mmcblk0` and `nvme0n1`. */
  predicate Fallback(name: string) {
    name !in SystemDisks && StripTrailingDigits(name) !in SystemDisks && WithoutPartitionSuffix(name) !in SystemDisks
  }

  /** As written, the eMMC and NVMe system disks listed for exclusion are
      reported as USB: stripping the trailing digits of `mmcblk0` or `nvme0n1`
      never gives a listed name. */
  lemma FallbackAsWrittenMissesEmmcAndNvme()
    ensures FallbackAsWritten("mmcblk0") && FallbackAsWritten("nvme0n1") && FallbackAsWritten("mmcblk0p1")
    ensures !FallbackAsWritten("sda1")
  {
    assert StripTrailingDigits("mmcblk0") == "mmcblk" by {
      assert "mmcblk0"[..6] == "mmcblk";
    }
    assert StripTrailingDigits("nvme0n1") == "nvme0n" by {
      assert "nvme0n1"[..6] == "nvme0n";
    }
    assert StripTrailingDigits("mmcblk0p1") == "mmcblk0p" by {
      assert "mmcblk0p1"[..8] == "mmcblk0p";
    }
    assert StripTrailingDigits("sda1") == "sda" by {
      assert "sda1"[..3] == "sda";
    }
  }

  /** Digits appended to a name are exactly what stripping trailing digits removes,
      when the name does not itself end in a digit. */
  lemma StripAppendedDigits(d: string, digits: string)
    requires !EndsWithDigit(d)
    requires forall i :: 0 <= i < |digits| ==> IsDigit(digits[i])
    ensures StripTrailingDigits(d + digits) == d
    decreases |digits|
  {
    if digits != [] {
      var s := d + digits;
      assert s[..|s| - 1] == d + digits[..|digits| - 1];
      StripAppendedDigits(d, digits[..|digits| - 1]);
    } else {
      assert d + digits == d;
    }
  }

  /** The intended fallback recognises every listed system disk and each of its
      partitions under the kernel's naming. */
  lemma FallbackRecognisesSystemDisks(digits: string)
    requires digits != [] && forall i :: 0 <= i < |digits| ==> IsDigit(digits[i])
    ensures forall d :: d in SystemDisks ==> !Fallback(d)
    ensures !Fallback("sda" + digits) && !Fallback("vda" + digits)
    ensures !Fallback("mmcblk0p" + digits) && !Fallback("nvme0n1p" + digits)
  {
    StripAppendedDigits("sda", digits);
    StripAppendedDigits("vda", digits);
    StripAppendedDigits("mmcblk0p", digits);
    StripAppendedDigits("nvme0n1p", digits);
    var m := "mmcblk0p" + digits;
    assert m[..7] == "mmcblk0";
    var n := "nvme0n1p" + digits;
    assert n[..7] == "nvme0n1";
  }

  /** `_is_usb_device`: the sysfs answer when there is one, else the fallback. */
  function IsUsbDevice(name: string, probe: string -> Option<bool>): (r: bool)
    ensures probe(name).Some? ==> r == probe(name).value
    ensures probe(name).None? && name in SystemDisks ==> !r
  {
    match probe(name)
    case Some(onUsb) => onUsb
    case None => Fallback(name)
  }

  predicate Skipped(name: string) {
    StartsWith(name, "loop") || StartsWith(name, "ram") || StartsWith(name, "zram")
  }

  /** The device itself when `_filter_usb_devices` keeps it, else nothing. */
  function KeptDevice(d: Device, probe: string -> Option<bool>): (r: seq<Device>)
    ensures |r| <= 1
  {
    if !Skipped(d.name) && IsUsbDevice(d.name, probe) then [d] else []
  }

  /** The devices `_filter_usb_devices` keeps. */
  function UsbDevices(devices: seq<Device>, probe: string -> Option<bool>): (r: seq<Device>)
    ensures |r| <= |devices|
  {
    if devices == [] then [] else KeptDevice(devices[0], probe) + UsbDevices(devices[1..], probe)
  }

  lemma {:induction false} UsbDevicesConcat(a: seq<Device>, b: seq<Device>, probe: string -> Option<bool>)
    ensures UsbDevices(a + b, probe) == UsbDevices(a, probe) + UsbDevices(b, probe)
  {
    if a == [] {
      assert a + b == b;
    } else {
      assert (a + b)[0] == a[0] && (a + b)[1..] == a[1..] + b;
      UsbDevicesConcat(a[1..], b, probe);
    }
  }

  /** Filtering one more device appends it when it is kept. */
  lemma UsbDevicesStep(devices: seq<Device>, i: nat, probe: string -> Option<bool>)
    requires i < |devices|
    ensures UsbDevices(devices[..i + 1], probe) == UsbDevices(devices[..i], probe) + KeptDevice(devices[i], probe)
  {
    assert devices[..i + 1] == devices[..i] + [devices[i]];
    UsbDevicesConcat(devices[..i], [devices[i]], probe);
    assert [devices[i]][1..] == [];
  }

  /** A device is kept exactly when it is not a loop, RAM or zram device and it
      is on USB. */
  lemma {:induction false} UsbDevicesMembers(devices: seq<Device>, probe: string -> Option<bool>)
    ensures forall d :: d in UsbDevices(devices, probe) <==> d in devices && !Skipped(d.name) && IsUsbDevice(d.name, probe)
  {
    if devices != [] {
      UsbDevicesMembers(devices[1..], probe);
      assert devices == [devices[0]] + devices[1..];
    }
  }

  /** `_filter_usb_devices`: loop, RAM and zram devices are dropped before any
      USB test; the others are kept when they are on USB. */
  method FilterUsbDevices(allDevices: seq<Device>, probe: string -> Option<bool>) returns (usbDevices: seq<Device>)
    ensures usbDevices == UsbDevices(allDevices, probe)
  {
    usbDevices := [];
    for i := 0 to |allDevices|
      invariant usbDevices == UsbDevices(allDevices[..i], probe)
    {
      UsbDevicesStep(allDevices, i, probe);
      var device := allDevices[i];
      if Skipped(device.name) {
        continue;
      }
      if IsUsbDevice(device.name, probe) {
        usbDevices := usbDevices + [device];
      }
    }
    assert allDevices[..|allDevices|] == allDevices;
  }
}
