/** The first-run helper (discovery/first_run_helper.py): which of the
    discovered USB disks to suggest when none is configured. */
module FirstRun {
  import opened Common
  import opened Disks

  /** The disks of `ds` that satisfy `p`, in order. */
  function Keep(ds: seq<DiskInfo>, p: DiskInfo -> bool): (r: seq<DiskInfo>)
    ensures forall d :: d in r <==> d in ds && p(d)
    ensures IsSubsequence(r, ds)
  {
    if ds == [] then []
    else
      var rest := Keep(ds[1..], p);
      if p(ds[0]) then
        var r := [ds[0]] + rest;
        assert r[1..] == rest;
        r
      else
        assert rest != [] ==> rest[0] in rest;
        rest
  }

  predicate IsPartitionDisk(d: DiskInfo) { d.isPartition }
  predicate HasFilesystem(d: DiskInfo) { d.filesystem != "" }
  predicate IsExt4(d: DiskInfo) { d.filesystem == "ext4" }

  /** Some disk of `ds` satisfies `p`. */
  predicate Any(ds: seq<DiskInfo>, p: DiskInfo -> bool) {
    exists d :: d in ds && p(d)
  }

  /** One narrowing stage, `[d for d in ds if p(d)] or ds`: it narrows to the
      disks satisfying `p` only when that leaves something, and keeps them in
      order. */
  function Narrow(ds: seq<DiskInfo>, p: DiskInfo -> bool): (r: seq<DiskInfo>)
    ensures Any(ds, p) ==> forall d :: d in r <==> d in ds && p(d)
    ensures !Any(ds, p) ==> r == ds
    ensures IsSubsequence(r, ds)
    ensures ds != [] ==> r != []
  {
    var kept := Keep(ds, p);
    if kept != [] then
      assert kept[0] in kept;
      kept
    else
      SubsequenceRefl(ds);
      ds
  }

  /** The candidates after the three narrowing stages: partitions, then disks
      with a filesystem, then ext4 disks; a stage that would leave nothing is
      skipped.  The survivors of the last stage are all kept, in input order. */
  function Candidates(disks: seq<DiskInfo>): (r: seq<DiskInfo>)
    ensures var partitions := Narrow(disks, IsPartitionDisk);
      var withFs := Narrow(partitions, HasFilesystem);
      forall d :: d in r <==>
        && d in disks
        && (Any(disks, IsPartitionDisk) ==> d.isPartition)
        && (Any(partitions, HasFilesystem) ==> d.filesystem != "")
        && (Any(withFs, IsExt4) ==> d.filesystem == "ext4")
    ensures IsSubsequence(r, disks)
    ensures disks != [] ==> r != []
  {
    var partitions := Narrow(disks, IsPartitionDisk);
    var withFs := Narrow(partitions, HasFilesystem);
    var r := Narrow(withFs, IsExt4);
    SubsequenceTrans(withFs, partitions, disks);
    SubsequenceTrans(r, withFs, disks);
    r
  }

  /** When a partition is among the disks, every candidate is a partition; when
      an ext4 partition is, every candidate is an ext4 partition. */
  lemma CandidatesPreferExt4Partitions(disks: seq<DiskInfo>)
    ensures Any(disks, IsPartitionDisk) ==> forall d :: d in Candidates(disks) ==> d.isPartition
    ensures (exists d :: d in disks && d.isPartition && d.filesystem == "ext4") ==>
      forall d :: d in Candidates(disks) ==> d.isPartition && d.filesystem == "ext4"
  {
    var partitions := Narrow(disks, IsPartitionDisk);
    var withFs := Narrow(partitions, HasFilesystem);
    if e :| e in disks && e.isPartition && e.filesystem == "ext4" {
      assert e in partitions;
      assert e in withFs;
      assert Any(withFs, IsExt4);
    }
  }

  /** Index of the first disk of largest size, as `max(ds, key=size_gb)` finds it. */
  function LargestIndex(ds: seq<DiskInfo>): (i: nat)
    requires ds != []
    ensures i < |ds|
    ensures forall j :: 0 <= j < |ds| ==> ds[j].sizeGb <= ds[i].sizeGb
    ensures forall j :: 0 <= j < i ==> ds[j].sizeGb < ds[i].sizeGb
  {
    if |ds| == 1 then 0
    else
      var k := |ds| - 1;
      var j := LargestIndex(ds[..k]);
      assert forall m :: 0 <= m < k ==> ds[..k][m] == ds[m];
      if ds[k].sizeGb > ds[j].sizeGb then k else j
  }

  /** `suggest_best_disk`: no suggestion for no disks, otherwise the name of the
      first largest candidate. */
  function SuggestBestDisk(disks: seq<DiskInfo>): (r: Option<string>)
    ensures r.None? <==> disks == []
  {
    if disks == [] then None
    else
      var c := Candidates(disks);
      Some(c[LargestIndex(c)].name)
  }

  /** `i` is the first index of largest size in `c`. */
  predicate FirstLargest(c: seq<DiskInfo>, i: int) {
    0 <= i < |c| &&
    (forall j :: 0 <= j < |c| ==> c[j].sizeGb <= c[i].sizeGb) &&
    (forall j :: 0 <= j < i ==> c[j].sizeGb < c[i].sizeGb)
  }

  /** The suggestion is the name of a candidate of largest size, the first such
      in input order; it is one of the disks, and a partition whenever there is one. */
  lemma SuggestionIsFirstLargestCandidate(disks: seq<DiskInfo>)
    requires disks != []
    ensures var c := Candidates(disks);
      exists i :: FirstLargest(c, i) && SuggestBestDisk(disks) == Some(c[i].name) &&
        c[i] in disks &&
        ((exists d :: d in disks && d.isPartition) ==> c[i].isPartition)
  {
    var c := Candidates(disks);
    CandidatesPreferExt4Partitions(disks);
    var i := LargestIndex(c);
    assert FirstLargest(c, i);
    assert c[i] in c;
    assert SuggestBestDisk(disks) == Some(c[i].name);
  }

  /** An ext4 partition wins over a larger partition of another filesystem, and
      a partition wins over a larger whole disk. */
  lemma PrefersExt4Partition()
    ensures SuggestBestDisk([
      DiskInfo("sdb", "/dev/sdb", 500.0, "", "", "", "", true, false, "sdb"),
      DiskInfo("sdb1", "/dev/sdb1", 200.0, "vfat", "", "", "", true, true, "sdb"),
      DiskInfo("sdb2", "/dev/sdb2", 100.0, "ext4", "", "", "", true, true, "sdb")]) == Some("sdb2")
  {
    var whole := DiskInfo("sdb", "/dev/sdb", 500.0, "", "", "", "", true, false, "sdb");
    var vfat := DiskInfo("sdb1", "/dev/sdb1", 200.0, "vfat", "", "", "", true, true, "sdb");
    var ext4 := DiskInfo("sdb2", "/dev/sdb2", 100.0, "ext4", "", "", "", true, true, "sdb");
    var disks := [whole, vfat, ext4];
    assert disks[1..] == [vfat, ext4] && disks[1..][1..] == [ext4] && [ext4][1..] == [];
    assert Keep([ext4], IsPartitionDisk) == [ext4];
    assert Keep(disks, IsPartitionDisk) == [vfat, ext4];
    assert [vfat, ext4][1..] == [ext4];
    assert Keep([ext4], HasFilesystem) == [ext4];
    assert Keep([vfat, ext4], HasFilesystem) == [vfat, ext4];
    assert !IsExt4(vfat) by {
      assert "vfat"[0] != "ext4"[0];
    }
    assert Keep([ext4], IsExt4) == [ext4];
    assert Keep([vfat, ext4], IsExt4) == [ext4];
    assert Candidates(disks) == [ext4];
  }
}
