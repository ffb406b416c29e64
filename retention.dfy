/** The retention policy of the destination directory (backup/cleanup_manager.py).

    The directory is enumerated into a listing of `(name, mtime, size)` records;
    the listing is an input here (the enumeration order of the file system is not
    something the program controls).  The directory itself is the set of names
    in it, a field of `CleanupManager` that deletions shrink. */
module Retention {
  import opened Common

  /** One record of `_get_backup_files`: the file's name, `st_mtime` and `st_size`. */
  datatype Entry = Entry(name: string, mtime: real, size: nat)

  // ---------------------------------------------------------------------------
  // The listing

  /** The entries of `s` whose name ends in `suffix` (a `glob("*" + suffix)`), in order. */
  function Matching(s: seq<Entry>, suffix: string): (r: seq<Entry>)
    ensures forall e :: e in r <==> e in s && EndsWith(e.name, suffix)
  {
    if s == [] then []
    else if EndsWith(s[0].name, suffix) then [s[0]] + Matching(s[1..], suffix)
    else Matching(s[1..], suffix)
  }

  /** `_get_backup_files`: the `*.tar` entries of the enumeration first, then the
      `*.tar.gz` entries.  Entries whose `stat` fails are not in the enumeration. */
  function BackupFiles(enumerated: seq<Entry>): (r: seq<Entry>)
    ensures forall e :: e in r ==> e in enumerated
    ensures |r| == |Matching(enumerated, ".tar")| + |Matching(enumerated, ".tar.gz")|
  {
    Matching(enumerated, ".tar") + Matching(enumerated, ".tar.gz")
  }

  /** The listing holds exactly the `*.tar` and `*.tar.gz` entries, and every
      `*.tar` entry comes before every `*.tar.gz` entry. */
  lemma BackupFilesShape(enumerated: seq<Entry>)
    ensures forall e :: e in BackupFiles(enumerated) <==>
                          (e in enumerated && (EndsWith(e.name, ".tar") || EndsWith(e.name, ".tar.gz")))
    ensures forall i, j ::
      (0 <= i < j < |BackupFiles(enumerated)| && EndsWith(BackupFiles(enumerated)[j].name, ".tar"))
      ==> EndsWith(BackupFiles(enumerated)[i].name, ".tar")
  {
    var tars := Matching(enumerated, ".tar");
    var gzs := Matching(enumerated, ".tar.gz");
    var all := BackupFiles(enumerated);
    forall i, j | 0 <= i < j < |all| && EndsWith(all[j].name, ".tar")
      ensures EndsWith(all[i].name, ".tar")
    {
      if j >= |tars| {
        assert all[j] in gzs;
        TarIsNotTarGz(all[j].name);
        assert false;
      }
      assert all[i] in tars;
    }
  }

  /** The two patterns are disjoint: a `*.tar` name ends in 'r', a `*.tar.gz` name in 'z'. */
  lemma TarIsNotTarGz(name: string)
    requires EndsWith(name, ".tar")
    ensures !EndsWith(name, ".tar.gz")
  {
    assert name[|name| - 4..][3] == 'r';
  }

  // ---------------------------------------------------------------------------
  // The stable sort by modification time (`list.sort(key=lambda x: x[1])`)

  predicate SortedByMtime(s: seq<Entry>) {
    forall i, j :: 0 <= i < j < |s| ==> s[i].mtime <= s[j].mtime
  }

  /** The entries of `s` with modification time `t`, in order. */
  function WithMtime(s: seq<Entry>, t: real): seq<Entry> {
    if s == [] then []
    else if s[0].mtime == t then [s[0]] + WithMtime(s[1..], t)
    else WithMtime(s[1..], t)
  }

  /** Inserts `e` before the first entry that is not older than it. */
  function Insert(e: Entry, s: seq<Entry>): (r: seq<Entry>)
    requires SortedByMtime(s)
    ensures SortedByMtime(r)
    ensures |r| == |s| + 1
    ensures forall x :: x in r <==> x == e || x in s
  {
    if s == [] || e.mtime <= s[0].mtime then [e] + s
    else
      assert s == [s[0]] + s[1..];
      var tail := Insert(e, s[1..]);
      var r := [s[0]] + tail;
      assert forall x :: x in s[1..] ==> s[0].mtime <= x.mtime;
      assert forall k :: 0 < k < |r| ==> r[k] == tail[k - 1];
      assert forall k :: 0 < k < |r| ==> r[k] in tail;
      r
  }

  lemma {:induction false} InsertPermutation(e: Entry, s: seq<Entry>)
    requires SortedByMtime(s)
    ensures multiset(Insert(e, s)) == multiset(s) + multiset{e}
  {
    if !(s == [] || e.mtime <= s[0].mtime) {
      InsertPermutation(e, s[1..]);
      assert s == [s[0]] + s[1..];
    }
  }

  /** `e` lands in front of every entry of its own time. */
  lemma {:induction false} InsertStable(e: Entry, s: seq<Entry>, t: real)
    requires SortedByMtime(s)
    ensures WithMtime(Insert(e, s), t) == if t == e.mtime then [e] + WithMtime(s, t) else WithMtime(s, t)
  {
    var r := Insert(e, s);
    if s == [] || e.mtime <= s[0].mtime {
      assert r[1..] == s;
    } else {
      assert r[1..] == Insert(e, s[1..]);
      InsertStable(e, s[1..], t);
    }
  }

  /** Python's stable sort by `mtime`: the result is a permutation ordered by
      modification time; `SortStable` adds that entries of equal time keep their
      listing order, which together determine the result. */
  function SortByMtime(s: seq<Entry>): (r: seq<Entry>)
    ensures |r| == |s|
    ensures SortedByMtime(r)
  {
    if s == [] then []
    else
      assert s == [s[0]] + s[1..];
      Insert(s[0], SortByMtime(s[1..]))
  }

  /** The sort keeps exactly the entries of the listing. */
  lemma {:induction false} SortMembers(s: seq<Entry>)
    ensures forall x :: x in SortByMtime(s) <==> x in s
  {
    if s != [] {
      SortMembers(s[1..]);
      assert s == [s[0]] + s[1..];
    }
  }

  /** The sort is a permutation of the listing. */
  lemma {:induction false} SortPermutation(s: seq<Entry>)
    ensures multiset(SortByMtime(s)) == multiset(s)
  {
    if s != [] {
      SortPermutation(s[1..]);
      InsertPermutation(s[0], SortByMtime(s[1..]));
      assert s == [s[0]] + s[1..];
    }
  }

  /** For every time `t`, the entries carrying `t` keep their listing order. */
  lemma {:induction false} SortStable(s: seq<Entry>, t: real)
    ensures WithMtime(SortByMtime(s), t) == WithMtime(s, t)
  {
    if s != [] {
      SortStable(s[1..], t);
      InsertStable(s[0], SortByMtime(s[1..]), t);
    }
  }

  function SumSizes(s: seq<Entry>): nat {
    if s == [] then 0 else SumSizes(s[..|s| - 1]) + s[|s| - 1].size
  }

  lemma {:induction false} SumSizesConcat(a: seq<Entry>, b: seq<Entry>)
    ensures SumSizes(a + b) == SumSizes(a) + SumSizes(b)
    decreases |b|
  {
    if b == [] {
      assert a + b == a;
    } else {
      assert (a + b)[..|a + b| - 1] == a + b[..|b| - 1];
      SumSizesConcat(a, b[..|b| - 1]);
    }
  }

  /** The total size does not depend on the order of the entries. */
  lemma {:induction false} SumSizesSort(s: seq<Entry>)
    ensures SumSizes(SortByMtime(s)) == SumSizes(s)
  {
    if s != [] {
      SumSizesSort(s[1..]);
      SumSizesInsert(s[0], SortByMtime(s[1..]));
      SumSizesConcat([s[0]], s[1..]);
      assert [s[0]] + s[1..] == s;
      assert SumSizes([s[0]]) == s[0].size by {
        assert [s[0]][..0] == [];
      }
    }
  }

  lemma {:induction false} SumSizesInsert(e: Entry, s: seq<Entry>)
    requires SortedByMtime(s)
    ensures SumSizes(Insert(e, s)) == e.size + SumSizes(s)
  {
    assert SumSizes([e]) == e.size by {
      assert [e][..0] == [];
    }
    if s == [] || e.mtime <= s[0].mtime {
      SumSizesConcat([e], s);
    } else {
      SumSizesInsert(e, s[1..]);
      SumSizesConcat([s[0]], Insert(e, s[1..]));
      SumSizesConcat([s[0]], s[1..]);
      assert [s[0]] + s[1..] == s;
      assert SumSizes([s[0]]) == s[0].size by {
        assert [s[0]][..0] == [];
      }
    }
  }

  /** The first entry of `s` with time `t` is the first of `WithMtime(s, t)`. */
  lemma {:induction false} FirstWithMtime(s: seq<Entry>, t: real, i: nat)
    requires i < |s| && s[i].mtime == t
    requires forall j :: 0 <= j < i ==> s[j].mtime != t
    ensures WithMtime(s, t) != [] && WithMtime(s, t)[0] == s[i]
  {
    if i > 0 {
      FirstWithMtime(s[1..], t, i - 1);
    }
  }

  /** An entry of `s` with time `t` shows up in `WithMtime(s, t)`. */
  lemma {:induction false} InWithMtime(s: seq<Entry>, i: nat)
    requires i < |s|
    ensures WithMtime(s, s[i].mtime) != []
  {
    if i > 0 && s[0].mtime != s[i].mtime {
      InWithMtime(s[1..], i - 1);
    }
  }

  // ---------------------------------------------------------------------------
  // Queries over the listing

  /** `needs_cleanup`: more files than the configured maximum. */
  predicate NeedsCleanup(listing: seq<Entry>, maxBackups: int)
    ensures !NeedsCleanup(listing, maxBackups) ==> CleanupTargets(listing, maxBackups, false) == []
    ensures NeedsCleanup(listing, maxBackups) && maxBackups >= 0 ==>
      |CleanupTargets(listing, maxBackups, false)| == |listing| - maxBackups
  {
    |listing| > maxBackups
  }

  /** `find_oldest_backup`: the first record after the stable sort by time, that is
      the earliest-listed record among those with the smallest modification time. */
  function FindOldestBackup(listing: seq<Entry>): (r: Option<Entry>)
    ensures r.None? <==> listing == []
    ensures r.Some? ==>
      exists i :: 0 <= i < |listing| && listing[i] == r.value && (forall j :: 0 <= j < i ==> listing[j].mtime > r.value.mtime)
    ensures r.Some? ==> forall e :: e in listing ==> r.value.mtime <= e.mtime
  {
    if listing == [] then None
    else
      SortedHeadIsFirstMinimal(listing);
      Some(SortByMtime(listing)[0])
  }

  /** Some index is the first one carrying time `t`. */
  lemma {:induction false} FirstIndex(s: seq<Entry>, t: real, k: nat)
    requires k < |s| && s[k].mtime == t
    ensures exists i :: 0 <= i <= k && s[i].mtime == t && forall j :: 0 <= j < i ==> s[j].mtime != t
    decreases k
  {
    if exists j :: 0 <= j < k && s[j].mtime == t {
      var j :| 0 <= j < k && s[j].mtime == t;
      FirstIndex(s, t, j);
    }
  }

  /** The head of the stable sort is the earliest-listed entry of minimal time. */
  lemma SortedHeadIsFirstMinimal(listing: seq<Entry>)
    requires listing != []
    ensures var oldest := SortByMtime(listing)[0];
      (exists i :: 0 <= i < |listing| && listing[i] == oldest &&
        (forall j :: 0 <= j < i ==> listing[j].mtime > oldest.mtime)) &&
      (forall e :: e in listing ==> oldest.mtime <= e.mtime)
  {
    var sorted := SortByMtime(listing);
    SortMembers(listing);
    var oldest := sorted[0];
    assert oldest in sorted;
    forall e | e in listing ensures oldest.mtime <= e.mtime {
      assert e in sorted;
    }
    var k :| 0 <= k < |listing| && listing[k] == oldest;
    FirstIndex(listing, oldest.mtime, k);
    var i :| 0 <= i <= k && listing[i].mtime == oldest.mtime &&
      forall j :: 0 <= j < i ==> listing[j].mtime != oldest.mtime;
    FirstWithMtime(listing, oldest.mtime, i);
    FirstWithMtime(sorted, oldest.mtime, 0);
    SortStable(listing, oldest.mtime);
    assert listing[i] == oldest;
    forall j | 0 <= j < i ensures listing[j].mtime > oldest.mtime {
      assert listing[j] in listing;
    }
  }

  /** `find_largest_backup`: the first record after a stable sort by size, largest
      first, that is the earliest-listed record among those of the largest size. */
  function FindLargestBackup(listing: seq<Entry>): (r: Option<Entry>)
    ensures r.None? <==> listing == []
    ensures r.Some? ==>
      exists i :: 0 <= i < |listing| && listing[i] == r.value && (forall j :: 0 <= j < i ==> listing[j].size < r.value.size)
    ensures r.Some? ==> forall e :: e in listing ==> e.size <= r.value.size
  {
    if listing == [] then None
    else
      var rest := FindLargestBackup(listing[1..]);
      if rest.Some? && rest.value.size > listing[0].size then
        assert forall e :: e in listing ==> e == listing[0] || e in listing[1..];
        var i :| 0 <= i < |listing[1..]| && listing[1..][i] == rest.value &&
          (forall j :: 0 <= j < i ==> listing[1..][j].size < rest.value.size);
        assert listing[i + 1] == rest.value;
        rest
      else
        assert forall e :: e in listing ==> e == listing[0] || e in listing[1..];
        Some(listing[0])
  }

  // ---------------------------------------------------------------------------
  // What cleanup deletes

  /** The records `cleanup_old_backups(force)` tries to delete: nothing for an empty
      listing or, without `force`, for a listing within the limit; otherwise the
      slice `sorted[:count - max]`, which for a negative bound (only reachable with
      `force`) drops that many records from the end. */
  function CleanupTargets(listing: seq<Entry>, maxBackups: int, force: bool): (r: seq<Entry>)
    ensures listing == [] ==> r == []
    ensures !force && |listing| <= maxBackups ==> r == []
    ensures !force && |listing| > maxBackups ==>
      |r| == (if maxBackups >= 0 then |listing| - maxBackups else |listing|)
    ensures force && listing != [] ==>
      var k := |listing| - maxBackups;
      |r| == (if k >= 0 then (if k <= |listing| then k else |listing|)
              else (if 2 * |listing| - maxBackups >= 0 then 2 * |listing| - maxBackups else 0))
    ensures r == SortByMtime(listing)[..|r|]
  {
    var sorted := SortByMtime(listing);
    if |listing| == 0 then []
    else if !force && |listing| <= maxBackups then []
    else
      var k := |listing| - maxBackups;
      if k <= 0 && !force then [] else SliceTo(sorted, k)
  }

  /** Without `force`, the targets are the `count - max` oldest records, and of the
      records with any one time `t`, the ones deleted are the first listed. */
  lemma CleanupTargetsOldestFirst(listing: seq<Entry>, maxBackups: int, t: real)
    requires 0 <= maxBackups < |listing|
    ensures var r := CleanupTargets(listing, maxBackups, false);
      && |r| == |listing| - maxBackups
      && (forall e :: e in r ==> e in listing)
      && (forall i, j :: 0 <= i < |r| <= j < |listing| ==> r[i].mtime <= SortByMtime(listing)[j].mtime)
      && WithMtime(listing, t) == WithMtime(r, t) + WithMtime(SortByMtime(listing)[|r|..], t)
  {
    var sorted := SortByMtime(listing);
    SortMembers(listing);
    var r := CleanupTargets(listing, maxBackups, false);
    forall i, j | 0 <= i < |r| <= j < |listing| ensures r[i].mtime <= sorted[j].mtime {
      assert r[i] == sorted[i];
    }
    forall e | e in r ensures e in listing {
      assert e in sorted;
    }
    assert sorted == r + sorted[|r|..];
    WithMtimeConcat(r, sorted[|r|..], t);
    SortStable(listing, t);
  }

  lemma {:induction false} WithMtimeConcat(a: seq<Entry>, b: seq<Entry>, t: real)
    ensures WithMtime(a + b, t) == WithMtime(a, t) + WithMtime(b, t)
  {
    if a == [] {
      assert a + b == b;
    } else {
      assert (a + b)[1..] == a[1..] + b;
      WithMtimeConcat(a[1..], b, t);
    }
  }

  /** `needs_cleanup` is exactly the condition under which an unforced cleanup of a
      non-empty listing has something to delete. */
  lemma NeedsCleanupAgreesWithCleanup(listing: seq<Entry>, maxBackups: int)
    ensures CleanupTargets(listing, maxBackups, false) != [] <==>
      listing != [] && NeedsCleanup(listing, maxBackups)
  {
  }

  // ---------------------------------------------------------------------------
  // Unlinking the targets

  /** Unlinking the target records in order.  An unlink succeeds when the name is
      still in the directory and is not one whose unlink fails; a failure is
      skipped and the loop goes on.  Gives the deleted names and the new directory. */
  function UnlinkEach(targets: seq<Entry>, files: set<string>, failing: set<string>): (r: (seq<string>, set<string>))
    ensures |r.0| <= |targets|
    ensures r.1 <= files
    ensures forall n :: n in r.0 ==> n in files && n !in failing && n !in r.1
    decreases |targets|
  {
    if targets == [] then ([], files)
    else
      var n := targets[0].name;
      if n in files && n !in failing then
        var rest := UnlinkEach(targets[1..], files - {n}, failing);
        ([n] + rest.0, rest.1)
      else UnlinkEach(targets[1..], files, failing)
  }

  /** Unlinking from target `i` on: that target first, then the rest. */
  lemma UnlinkEachStep(targets: seq<Entry>, i: nat, files: set<string>, failing: set<string>)
    requires i < |targets|
    ensures var n := targets[i].name;
      var rest := UnlinkEach(targets[i + 1..], files - {n}, failing);
      UnlinkEach(targets[i..], files, failing) ==
        if n in files && n !in failing then ([n] + rest.0, rest.1) else UnlinkEach(targets[i + 1..], files, failing)
  {
    assert targets[i..][1..] == targets[i + 1..];
  }

  function Names(s: seq<Entry>): (r: seq<string>)
    ensures |r| == |s| && forall i :: 0 <= i < |s| ==> r[i] == s[i].name
  {
    if s == [] then [] else [s[0].name] + Names(s[1..])
  }

  /** Exactly the deleted names leave the directory. */
  lemma {:induction false} UnlinkEachRemoves(targets: seq<Entry>, files: set<string>, failing: set<string>)
    ensures UnlinkEach(targets, files, failing).1 == files - set n | n in UnlinkEach(targets, files, failing).0
    decreases |targets|
  {
    if targets != [] {
      var n := targets[0].name;
      if n in files && n !in failing {
        UnlinkEachRemoves(targets[1..], files - {n}, failing);
        var rest := UnlinkEach(targets[1..], files - {n}, failing);
        assert (set m | m in [n] + rest.0) == {n} + set m | m in rest.0;
      } else {
        UnlinkEachRemoves(targets[1..], files, failing);
      }
    }
  }

  /** A deleted name was a target, was present, and its unlink did not fail. */
  lemma {:induction false} UnlinkEachDeletesPresent(targets: seq<Entry>, files: set<string>, failing: set<string>)
    ensures forall n :: n in UnlinkEach(targets, files, failing).0 ==> n in files && n !in failing && n in Names(targets)
    decreases |targets|
  {
    if targets != [] {
      var n := targets[0].name;
      assert Names(targets) == [n] + Names(targets[1..]);
      if n in files && n !in failing {
        UnlinkEachDeletesPresent(targets[1..], files - {n}, failing);
      } else {
        UnlinkEachDeletesPresent(targets[1..], files, failing);
      }
    }
  }

  /** Every target that was present and whose unlink succeeds is deleted. */
  lemma {:induction false} UnlinkEachComplete(targets: seq<Entry>, files: set<string>, failing: set<string>)
    ensures forall t :: t in targets && t.name in files && t.name !in failing ==> t.name in UnlinkEach(targets, files, failing).0
    decreases |targets|
  {
    if targets != [] {
      var n := targets[0].name;
      if n in files && n !in failing {
        UnlinkEachComplete(targets[1..], files - {n}, failing);
        forall t | t in targets && t.name in files && t.name !in failing
          ensures t.name in UnlinkEach(targets, files, failing).0
        {
          if t.name != n {
            assert t in targets[1..];
          }
        }
      } else {
        UnlinkEachComplete(targets[1..], files, failing);
        forall t | t in targets && t.name in files && t.name !in failing
          ensures t.name in UnlinkEach(targets, files, failing).0
        {
          assert t in targets[1..];
        }
      }
    }
  }

  /** The deleted names come in target order, each once. */
  lemma {:induction false} UnlinkEachInOrder(targets: seq<Entry>, files: set<string>, failing: set<string>)
    ensures IsSubsequence(UnlinkEach(targets, files, failing).0, Names(targets))
    ensures forall i, j :: 0 <= i < j < |UnlinkEach(targets, files, failing).0| ==>
      UnlinkEach(targets, files, failing).0[i] != UnlinkEach(targets, files, failing).0[j]
    decreases |targets|
  {
    if targets != [] {
      var n := targets[0].name;
      assert Names(targets) == [n] + Names(targets[1..]);
      if n in files && n !in failing {
        UnlinkEachInOrder(targets[1..], files - {n}, failing);
        UnlinkEachDeletesPresent(targets[1..], files - {n}, failing);
        var rest := UnlinkEach(targets[1..], files - {n}, failing).0;
        assert ([n] + rest)[1..] == rest;
        forall i, j | 0 <= i < j < |[n] + rest| ensures ([n] + rest)[i] != ([n] + rest)[j] {
          if i == 0 {
            assert rest[j - 1] in rest;
          }
        }
      } else {
        UnlinkEachInOrder(targets[1..], files, failing);
        UnlinkEachDeletesPresent(targets[1..], files, failing);
        var rest := UnlinkEach(targets[1..], files, failing).0;
        if rest != [] {
          assert rest[0] in rest;
        }
      }
    }
  }

  // ---------------------------------------------------------------------------
  // Plans and statistics

  /** The dictionary `get_cleanup_plan` returns, without its formatted fields. */
  datatype CleanupPlan = CleanupPlan(
    needed: bool, currentCount: nat, maxAllowed: int,
    toDelete: seq<Entry>, toKeep: seq<Entry>, freedSpace: nat)

  /** The dictionary `get_backup_stats` returns, without its formatted fields. */
  datatype BackupStats = BackupStats(
    count: nat, totalSizeBytes: nat, oldest: Option<string>, newest: Option<string>,
    files: seq<Entry>)

  /** One loop of `get_cleanup_plan`: a record per file, in order, and the sum of
      their sizes. */
  method DescribeFiles(files: seq<Entry>) returns (records: seq<Entry>, totalSize: nat)
    ensures records == files && totalSize == SumSizes(files)
  {
    records := [];
    totalSize := 0;
    for i := 0 to |files|
      invariant records == files[..i]
      invariant totalSize == SumSizes(records)
    {
      assert files[..i + 1][..i] == files[..i];
      records := records + [files[i]];
      totalSize := totalSize + files[i].size;
    }
    assert files[..|files|] == files;
  }

  /** `get_cleanup_plan`: the sorted listing split into what an unforced cleanup
      would delete and what it would keep, with the bytes it would free. */
  method GetCleanupPlan(listing: seq<Entry>, maxBackups: int) returns (plan: CleanupPlan)
    ensures plan.needed <==> listing != [] && |listing| > maxBackups
    ensures plan.currentCount == |listing| && plan.maxAllowed == maxBackups
    ensures |plan.toDelete| == if plan.needed then (if maxBackups >= 0 then |listing| - maxBackups else |listing|) else 0
    ensures plan.toDelete == CleanupTargets(listing, maxBackups, false)
    ensures plan.toKeep == SortByMtime(listing)[|plan.toDelete|..]
    ensures plan.freedSpace == SumSizes(plan.toDelete)
  {
    if listing == [] {
      return CleanupPlan(false, 0, maxBackups, [], [], 0);
    }
    var sorted := SortByMtime(listing);
    var currentCount := |sorted|;
    var needed := currentCount > maxBackups;
    var toDelete: seq<Entry> := [];
    var toKeep: seq<Entry> := [];
    var freed: nat := 0;
    if needed {
      var toDeleteCount := currentCount - maxBackups;
      var filesToDelete := SliceTo(sorted, toDeleteCount);
      var filesToKeep := SliceFrom(sorted, toDeleteCount);
      assert filesToDelete == CleanupTargets(listing, maxBackups, false);
      SliceSplit(sorted, toDeleteCount);
      toDelete, freed := DescribeFiles(filesToDelete);
      var keptSize;
      toKeep, keptSize := DescribeFiles(filesToKeep);
    } else {
      var keptSize;
      toKeep, keptSize := DescribeFiles(sorted);
    }
    plan := CleanupPlan(needed, currentCount, maxBackups, toDelete, toKeep, freed);
  }

  /** `e` is a record of the listing that no record of it is newer than. */
  predicate Newest(listing: seq<Entry>, e: Entry) {
    e in listing && forall f :: f in listing ==> f.mtime <= e.mtime
  }

  /** The last record of the sort by time is a newest record. */
  lemma SortedLastIsNewest(listing: seq<Entry>)
    requires listing != []
    ensures Newest(listing, SortByMtime(listing)[|listing| - 1])
  {
    var sorted := SortByMtime(listing);
    SortMembers(listing);
    assert sorted[|sorted| - 1] in sorted;
    forall f | f in listing ensures f.mtime <= sorted[|sorted| - 1].mtime {
      assert f in sorted;
    }
  }

  /** No entry of `s` has time `t`, so none is selected. */
  lemma {:induction false} NoneWithMtime(s: seq<Entry>, t: real)
    requires forall j :: 0 <= j < |s| ==> s[j].mtime != t
    ensures WithMtime(s, t) == []
  {
    if s != [] {
      NoneWithMtime(s[1..], t);
    }
  }

  /** The last entry of `s` with time `t` is the last of `WithMtime(s, t)`. */
  lemma {:induction false} LastWithMtime(s: seq<Entry>, t: real, i: nat)
    requires i < |s| && s[i].mtime == t
    requires forall j :: i < j < |s| ==> s[j].mtime != t
    ensures WithMtime(s, t) != [] && WithMtime(s, t)[|WithMtime(s, t)| - 1] == s[i]
  {
    if i == 0 {
      NoneWithMtime(s[1..], t);
    } else {
      LastWithMtime(s[1..], t, i - 1);
    }
  }

  /** Some index is the last one carrying time `t`. */
  lemma {:induction false} LastIndex(s: seq<Entry>, t: real, k: nat)
    requires k < |s| && s[k].mtime == t
    ensures exists i :: k <= i < |s| && s[i].mtime == t && forall j :: i < j < |s| ==> s[j].mtime != t
    decreases |s| - k
  {
    if exists j :: k < j < |s| && s[j].mtime == t {
      var j :| k < j < |s| && s[j].mtime == t;
      LastIndex(s, t, j);
    }
  }

  /** When `r` selects the same entries of time `t` as `s` and ends with one of
      them, it ends with the last entry of `s` carrying `t`. */
  lemma StableLast(s: seq<Entry>, r: seq<Entry>, i: nat)
    requires i < |s| && r != [] && r[|r| - 1].mtime == s[i].mtime
    requires forall j :: i < j < |s| ==> s[j].mtime != s[i].mtime
    requires WithMtime(r, s[i].mtime) == WithMtime(s, s[i].mtime)
    ensures s[i] == r[|r| - 1]
  {
    LastWithMtime(s, s[i].mtime, i);
    LastWithMtime(r, s[i].mtime, |r| - 1);
  }

  /** The last record of the stable sort is the last-listed record among those of
      the largest time: every record listed after it is strictly older. */
  lemma SortedLastIsLastNewest(listing: seq<Entry>)
    requires listing != []
    ensures var newest := SortByMtime(listing)[|listing| - 1];
      Newest(listing, newest) &&
      exists i :: 0 <= i < |listing| && listing[i] == newest &&
        (forall j :: i < j < |listing| ==> listing[j].mtime < newest.mtime)
  {
    var sorted := SortByMtime(listing);
    var newest := sorted[|listing| - 1];
    assert Newest(listing, newest) by {
      SortedLastIsNewest(listing);
    }
    var k :| 0 <= k < |listing| && listing[k] == newest;
    LastIndex(listing, newest.mtime, k);
    var i :| k <= i < |listing| && listing[i].mtime == newest.mtime &&
      forall j :: i < j < |listing| ==> listing[j].mtime != newest.mtime;
    assert listing[i] == newest by {
      SortStable(listing, newest.mtime);
      StableLast(listing, sorted, i);
    }
    forall j | i < j < |listing| ensures listing[j].mtime < newest.mtime {
      assert listing[j] in listing;
    }
  }

  /** `get_backup_stats`: count and total size of the listing, the names of the
      first and last records after the stable sort by time, and the sorted records. */
  method GetBackupStats(listing: seq<Entry>) returns (stats: BackupStats)
    ensures stats.count == |listing|
    ensures stats.totalSizeBytes == SumSizes(listing)
    ensures stats.files == SortByMtime(listing)
    ensures listing == [] ==> stats.oldest.None? && stats.newest.None?
    ensures listing != [] ==> stats.oldest == Some(FindOldestBackup(listing).value.name)
    ensures listing != [] ==> stats.newest == Some(SortByMtime(listing)[|listing| - 1].name)
    ensures listing != [] ==> stats.newest.Some? && exists e :: Newest(listing, e) && e.name == stats.newest.value
  {
    if listing == [] {
      return BackupStats(0, 0, None, None, []);
    }
    var sorted := SortByMtime(listing);
    SumSizesSort(listing);
    var totalSize := SumSizes(sorted);
    var oldestFile := sorted[0];
    var newestFile := sorted[|sorted| - 1];
    SortedLastIsNewest(listing);
    var details, detailsSize := DescribeFiles(sorted);
    stats := BackupStats(|sorted|, totalSize, Some(oldestFile.name), Some(newestFile.name), details);
  }

  /** The unlink loop of `cleanup_old_backups`: each target in order, skipping
      one that is gone or whose unlink fails. */
  method UnlinkAll(targets: seq<Entry>, files: set<string>, failing: set<string>)
    returns (deleted: seq<string>, after: set<string>)
    ensures (deleted, after) == UnlinkEach(targets, files, failing)
  {
    deleted := [];
    after := files;
    assert targets[0..] == targets;
    for i := 0 to |targets|
      invariant deleted + UnlinkEach(targets[i..], after, failing).0 == UnlinkEach(targets, files, failing).0
      invariant UnlinkEach(targets[i..], after, failing).1 == UnlinkEach(targets, files, failing).1
    {
      UnlinkEachStep(targets, i, after, failing);
      var name := targets[i].name;
      if name in after && name !in failing {
        after := after - {name};
        deleted := deleted + [name];
      }
    }
    assert targets[|targets|..] == [];
    assert deleted + [] == deleted;
  }

  // ---------------------------------------------------------------------------
  // The manager and its directory

  class CleanupManager {
    const maxBackups: int
    /** The names present in the backup directory. */
    var files: set<string>

    constructor (maxBackups: int, files: set<string>)
      ensures this.maxBackups == maxBackups && this.files == files
    {
      this.maxBackups := maxBackups;
      this.files := files;
    }

    /** `cleanup_old_backups(force)`: unlinks the targets oldest first, skipping any
        whose unlink fails (`failing`), and returns the deleted names. */
    method CleanupOldBackups(force: bool, listing: seq<Entry>, failing: set<string>) returns (deleted: seq<string>)
      modifies this
      ensures deleted == UnlinkEach(CleanupTargets(listing, maxBackups, force), old(files), failing).0
      ensures files == UnlinkEach(CleanupTargets(listing, maxBackups, force), old(files), failing).1
    {
      if listing == [] {
        return [];
      }
      if !force && |listing| <= maxBackups {
        return [];
      }
      var backupFiles := SortByMtime(listing);
      var toDeleteCount := |backupFiles| - maxBackups;
      if toDeleteCount <= 0 && !force {
        return [];
      }
      var filesToDelete := SliceTo(backupFiles, toDeleteCount);
      assert filesToDelete == CleanupTargets(listing, maxBackups, force);
      deleted, files := UnlinkAll(filesToDelete, files, failing);
    }

    /** `delete_specific_backup`: false and no change when the name is absent or its
        unlink fails; otherwise the name leaves the directory. */
    method DeleteSpecificBackup(name: string, unlinkFails: bool) returns (ok: bool)
      modifies this
      ensures ok <==> name in old(files) && !unlinkFails
      ensures files == if ok then old(files) - {name} else old(files)
    {
      if name !in files {
        return false;
      }
      if unlinkFails {
        return false;
      }
      files := files - {name};
      return true;
    }
  }

  /** The cleanup of the source's own simulation: four records, two kept. */
  lemma CleanupKeepsTwoOfFour()
    ensures var listing := [Entry("old_backup_1.tar", 1.0, 1000), Entry("old_backup_2.tar", 5.0, 2000),
                            Entry("recent_backup_1.tar", 8.0, 1500), Entry("recent_backup_2.tar", 9.0, 1800)];
      Names(CleanupTargets(listing, 2, false)) == ["old_backup_1.tar", "old_backup_2.tar"]
  {
    var listing := [Entry("old_backup_1.tar", 1.0, 1000), Entry("old_backup_2.tar", 5.0, 2000),
                    Entry("recent_backup_1.tar", 8.0, 1500), Entry("recent_backup_2.tar", 9.0, 1800)];
    assert listing == [listing[0]] + listing[1..];
    assert listing[1..] == [listing[1]] + listing[2..];
    assert listing[2..] == [listing[2]] + listing[3..];
    assert listing[3..] == [listing[3]] + [];
  }
}
