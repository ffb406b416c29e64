/** The arrival detector (backup_sync/backup/backup_watcher.py): filters file
    system events, debounces repeated events for the same file name, keeps a
    callback registry, and polls a file until its size settles.

    Clock readings are `real` seconds passed in as `now`; a file's size readings
    are a function from the check number to the size, or `None` when `stat` raised. */
module Arrival {
  import opened Common

  /** Events for a name seen less than this many seconds ago are duplicates. */
  const DebounceSeconds: real := 2.0
  /** The debounce map is pruned once it holds more names than this. */
  const MaxRecentSize: nat := 100
  /** Pruning drops the names last seen more than this many seconds ago. */
  const CacheAgeSeconds: real := 3600.0

  /** The callback registry as created: the four known event types, no callbacks. */
  const InitialRegistry: map<string, seq<Callback>> := map[
    "backup_detected" := [], "backup_processing_started" := [],
    "backup_processing_completed" := [], "backup_processing_failed" := []]

  /** A registered callable, compared by identity. */
  type Callback = nat

  /** A watchdog event: `is_directory`, `src_path`, and `dest_path` for moves. */
  datatype FsEvent = FsEvent(isDirectory: bool, srcPath: string, destPath: string)

  /** What the handler did with an event: nothing, nothing because it was a
      duplicate, or it handed the path on for processing. */
  datatype Dispatch = Ignored | Duplicate | Dispatched(path: string)

  // ---------------------------------------------------------------------------
  // The debounce map

  /** `_is_duplicate_event`: the name was seen less than two seconds ago. */
  predicate IsDuplicate(recent: map<string, real>, name: string, now: real)
    ensures IsDuplicate(recent, name, now) ==> name in recent
    ensures name in recent && now == recent[name] ==> IsDuplicate(recent, name, now)
    ensures name in recent && now >= recent[name] + DebounceSeconds ==> !IsDuplicate(recent, name, now)
  {
    name in recent && now - recent[name] < DebounceSeconds
  }

  /** `_cleanup_recent_cache`: the entries at least as recent as an hour ago. */
  function Evict(recent: map<string, real>, now: real): (r: map<string, real>)
    ensures forall n :: n in r <==> n in recent && recent[n] >= now - CacheAgeSeconds
    ensures forall n :: n in r ==> r[n] == recent[n]
  {
    map n | n in recent && recent[n] >= now - CacheAgeSeconds :: recent[n]
  }

  /** `_record_event`: the name is stamped with `now`; when that makes the map
      larger than the cap, the stale entries are dropped. */
  function Record(recent: map<string, real>, name: string, now: real): (r: map<string, real>)
    ensures name in r && r[name] == now
    ensures forall n :: n in r && n != name ==> n in recent && r[n] == recent[n]
    ensures |recent[name := now]| <= MaxRecentSize ==> r.Keys == recent.Keys + {name}
    ensures |recent[name := now]| > MaxRecentSize ==>
      forall n :: n in r <==> n == name || (n in recent && recent[n] >= now - CacheAgeSeconds)
    ensures forall n :: n in recent && recent[n] >= now - CacheAgeSeconds ==> n in r
  {
    var stamped := recent[name := now];
    if |stamped| > MaxRecentSize then Evict(stamped, now) else stamped
  }

  /** Debouncing: once an event for a name is recorded at `t`, a later event for
      the same name is a duplicate exactly when it comes less than two seconds
      after `t`. */
  lemma RecordThenDebounce(recent: map<string, real>, name: string, t: real, now: real)
    ensures IsDuplicate(Record(recent, name, t), name, now) <==> now - t < DebounceSeconds
  {
  }

  /** Pruning is idempotent and keeps whatever was stamped at `now`. */
  lemma EvictIdempotent(recent: map<string, real>, now: real)
    ensures Evict(Evict(recent, now), now) == Evict(recent, now)
    ensures forall n :: n in recent && recent[n] == now ==> n in Evict(recent, now)
  {
  }

  /** The cap is not a bound: 101 names seen within the hour all stay. */
  lemma CapIsNotABound(recent: map<string, real>, name: string, now: real)
    requires name !in recent && |recent| == MaxRecentSize
    requires forall n :: n in recent ==> recent[n] >= now - CacheAgeSeconds
    ensures |Record(recent, name, now)| == MaxRecentSize + 1
  {
    var r := Record(recent, name, now);
    assert r.Keys == recent.Keys + {name};
  }

  /** The position of the first occurrence of `x` in `s`. */
  function IndexOf(s: seq<Callback>, x: Callback): (i: nat)
    requires x in s
    ensures i < |s| && s[i] == x && forall j :: 0 <= j < i ==> s[j] != x
  {
    if s[0] == x then 0 else 1 + IndexOf(s[1..], x)
  }

  /** `list.remove(x)`: drops the first occurrence of `x` and keeps the rest in order. */
  function RemoveFirst(s: seq<Callback>, x: Callback): (r: seq<Callback>)
    requires x in s
    ensures |r| == |s| - 1
    ensures multiset(r) == multiset(s) - multiset{x}
    ensures r == s[..IndexOf(s, x)] + s[IndexOf(s, x) + 1..]
  {
    var i := IndexOf(s, x);
    assert s == s[..i] + [x] + s[i + 1..];
    s[..i] + s[i + 1..]
  }

  // ---------------------------------------------------------------------------
  // Waiting for a file to settle

  /** The successful size readings among checks `0 .. n - 1`, in order. */
  function Successes(stat: nat -> Option<nat>, n: nat): seq<nat> {
    if n == 0 then []
    else Successes(stat, n - 1) + (if stat(n - 1).Some? then [stat(n - 1).value] else [])
  }

  /** Check `c` read a size, and it and the two successful readings before it are
      equal. */
  predicate StableAt(stat: nat -> Option<nat>, c: nat) {
    var s := Successes(stat, c + 1);
    stat(c).Some? && |s| >= 3 && s[|s| - 1] == s[|s| - 2] == s[|s| - 3]
  }

  class BackupWatcher {
    /** `recently_processed`: file name to the time its last event was recorded. */
    var recentlyProcessed: map<string, real>
    /** `callbacks`: event type to the callables registered for it. */
    var callbacks: map<string, seq<Callback>>

    constructor ()
      ensures recentlyProcessed == map[] && callbacks == InitialRegistry
    {
      recentlyProcessed := map[];
      callbacks := InitialRegistry;
    }

    /** `on_created`: directories and names whose suffix is not ".tar" are ignored,
        duplicates are dropped without refreshing their time, and anything else is
        recorded and handed on. */
    method OnCreated(event: FsEvent, now: real) returns (d: Dispatch)
      modifies this
      ensures callbacks == old(callbacks)
      ensures event.isDirectory || Suffix(FileName(event.srcPath)) != ".tar" ==>
        d == Ignored && recentlyProcessed == old(recentlyProcessed)
      ensures
        (!event.isDirectory && Suffix(FileName(event.srcPath)) == ".tar" &&
         IsDuplicate(old(recentlyProcessed), FileName(event.srcPath), now)) ==>
        d == Duplicate && recentlyProcessed == old(recentlyProcessed)
      ensures
        (!event.isDirectory && Suffix(FileName(event.srcPath)) == ".tar" &&
         !IsDuplicate(old(recentlyProcessed), FileName(event.srcPath), now)) ==>
        d == Dispatched(event.srcPath) &&
        recentlyProcessed == Record(old(recentlyProcessed), FileName(event.srcPath), now)
    {
      if event.isDirectory {
        return Ignored;
      }
      var name := FileName(event.srcPath);
      if Suffix(name) != ".tar" {
        return Ignored;
      }
      if IsDuplicate(recentlyProcessed, name, now) {
        return Duplicate;
      }
      RecordEvent(name, now);
      return Dispatched(event.srcPath);
    }

    /** `on_moved`: as `on_created`, for the destination path, and without a
        directory test. */
    method OnMoved(event: FsEvent, now: real) returns (d: Dispatch)
      modifies this
      ensures callbacks == old(callbacks)
      ensures Suffix(FileName(event.destPath)) != ".tar" ==>
        d == Ignored && recentlyProcessed == old(recentlyProcessed)
      ensures
        (Suffix(FileName(event.destPath)) == ".tar" &&
         IsDuplicate(old(recentlyProcessed), FileName(event.destPath), now)) ==>
        d == Duplicate && recentlyProcessed == old(recentlyProcessed)
      ensures
        (Suffix(FileName(event.destPath)) == ".tar" &&
         !IsDuplicate(old(recentlyProcessed), FileName(event.destPath), now)) ==>
        d == Dispatched(event.destPath) &&
        recentlyProcessed == Record(old(recentlyProcessed), FileName(event.destPath), now)
    {
      var name := FileName(event.destPath);
      if Suffix(name) != ".tar" {
        return Ignored;
      }
      if IsDuplicate(recentlyProcessed, name, now) {
        return Duplicate;
      }
      RecordEvent(name, now);
      return Dispatched(event.destPath);
    }

    /** `_record_event`. */
    method RecordEvent(name: string, now: real)
      modifies this
      ensures recentlyProcessed == Record(old(recentlyProcessed), name, now)
      ensures callbacks == old(callbacks)
    {
      recentlyProcessed := recentlyProcessed[name := now];
      if |recentlyProcessed| > MaxRecentSize {
        CleanupRecentCache(now);
      }
    }

    /** `_cleanup_recent_cache`: collects the names stamped before the cutoff, then
        deletes them. */
    method CleanupRecentCache(now: real)
      modifies this
      ensures recentlyProcessed == Evict(old(recentlyProcessed), now)
      ensures callbacks == old(callbacks)
    {
      var cutoff := now - CacheAgeSeconds;
      var toRemove: set<string> := {};
      var pending := recentlyProcessed.Keys;
      while pending != {}
        invariant pending <= recentlyProcessed.Keys
        invariant forall n :: n in toRemove <==>
          n in recentlyProcessed && n !in pending && recentlyProcessed[n] < cutoff
        decreases |pending|
      {
        var n :| n in pending;
        if recentlyProcessed[n] < cutoff {
          toRemove := toRemove + {n};
        }
        pending := pending - {n};
      }
      recentlyProcessed := recentlyProcessed - toRemove;
    }

    /** `register_callback`: appends to a known event type; an unknown type is
        refused and nothing changes. */
    method RegisterCallback(eventType: string, callback: Callback)
      modifies this
      ensures eventType !in old(callbacks) ==> callbacks == old(callbacks)
      ensures eventType in old(callbacks) ==>
        callbacks == old(callbacks)[eventType := old(callbacks)[eventType] + [callback]]
      ensures recentlyProcessed == old(recentlyProcessed)
    {
      if eventType !in callbacks {
        return;
      }
      callbacks := callbacks[eventType := callbacks[eventType] + [callback]];
    }

    /** `unregister_callback`: removes the first registration of the callable, if
        there is one. */
    method UnregisterCallback(eventType: string, callback: Callback)
      modifies this
      ensures eventType in old(callbacks) && callback in old(callbacks)[eventType] ==>
        callbacks == old(callbacks)[eventType := RemoveFirst(old(callbacks)[eventType], callback)]
      ensures !(eventType in old(callbacks) && callback in old(callbacks)[eventType]) ==>
        callbacks == old(callbacks)
      ensures recentlyProcessed == old(recentlyProcessed)
    {
      if eventType in callbacks && callback in callbacks[eventType] {
        callbacks := callbacks[eventType := RemoveFirst(callbacks[eventType], callback)];
      }
    }

    /** `get_recent_files`: a copy of the debounce map. */
    method GetRecentFiles() returns (recent: map<string, real>)
      ensures recent == recentlyProcessed
    {
      recent := recentlyProcessed;
    }

    /** `clear_recent_cache`. */
    method ClearRecentCache()
      modifies this
      ensures recentlyProcessed == map[] && callbacks == old(callbacks)
    {
      recentlyProcessed := map[];
    }

    /** `wait_for_file_stable`: polls up to `max_checks` times and reports whether
        three successful readings in a row were equal, and after how many checks;
        a failed reading is skipped without disturbing the count. */
    method WaitForFileStable(stat: nat -> Option<nat>, maxChecks: int) returns (stable: bool, checks: nat)
      ensures stable <==> exists c :: 0 <= c < maxChecks && StableAt(stat, c)
      ensures stable ==>
        1 <= checks && StableAt(stat, checks - 1) && forall c :: 0 <= c < checks - 1 ==> !StableAt(stat, c)
      ensures !stable ==> checks == if maxChecks > 0 then maxChecks else 0
    {
      var lastSize: int := -1;
      var stableChecks: nat := 0;
      var check: nat := 0;
      while check < maxChecks
        invariant check <= if maxChecks > 0 then maxChecks else 0
        invariant forall c :: 0 <= c < check ==> !StableAt(stat, c)
        invariant Successes(stat, check) == [] ==> lastSize == -1 && stableChecks == 0
        invariant Successes(stat, check) != [] ==>
          var s := Successes(stat, check);
          lastSize == s[|s| - 1] &&
          stableChecks == (if |s| >= 2 && s[|s| - 2] == s[|s| - 1] then 1 else 0)
        decreases maxChecks - check
      {
        var reading := stat(check);
        assert Successes(stat, check + 1) == Successes(stat, check) + (if reading.Some? then [reading.value] else []);
        if reading.Some? {
          var currentSize := reading.value;
          if currentSize == lastSize {
            stableChecks := stableChecks + 1;
          } else {
            stableChecks := 0;
          }
          lastSize := currentSize;
          if stableChecks >= 2 {
            assert StableAt(stat, check);
            return true, check + 1;
          }
        }
        check := check + 1;
      }
      return false, check;
    }
  }
}
