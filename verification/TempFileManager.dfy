/**
 TempFileManager used by one caller at a time: a registry of temp files under a limit on their number and
 on their total size, which evicts by last access.
 */
module TempFileManagers {
  import opened Common

  const MAX_TEMP_FILES: nat := 10

  type Path = string

  datatype FileInfo = FileInfo(size: nat, lastAccess: int, hasCallback: bool)

  type Files = map<Path, FileInfo>

  /** One statfs reading: the bytes available, and the bytes temp files may use in all (70 % of the disk). */
  datatype Usage = Usage(available: nat, limit: nat)

  /**
   What the disk answers to a statfs call, None for an error. The answer may depend on how many calls
   went before and on how many files were evicted so far.
   */
  type Disk = (nat, nat) -> Option<Usage>

  datatype SpaceError = StatfsFailed | InsufficientSpace | TooManyFiles

  /** os.Remove was called for a path, and succeeded or not. */
  datatype Event = CalledBack(path: Path) | Removed(path: Path, ok: bool)

  // ----- what the checks mean -----

  ghost function Used(files: Files): nat {
    Total(map p | p in files :: files[p].size)
  }

  ghost predicate Fits(files: Files, fileSize: nat, u: Usage) {
    fileSize <= u.available && Used(files) + fileSize <= u.limit
  }

  /** Each tracked file once, the least recently accessed first. */
  ghost predicate LeastRecentFirst(files: Files, order: seq<Path>) {
    && (forall p :: p in order <==> p in files)
    && (forall i, j :: 0 <= i < j < |order| ==> order[i] != order[j])
    && (forall i, j | 0 <= i < j < |order| ::
          order[i] in files && order[j] in files && files[order[i]].lastAccess <= files[order[j]].lastAccess)
  }

  /** The files left after evicting the first n of order. */
  function Remaining(files: Files, order: seq<Path>, n: nat): Files
    requires n <= |order|
  {
    map p | p in files && p !in order[..n] :: files[p]
  }

  /** The callback of each file, if it has one, and then its removal, which fails for the files of stuck. */
  function Evictions(files: Files, order: seq<Path>, stuck: set<Path>): seq<Event> {
    if order == [] then []
    else
      Evictions(files, order[..|order| - 1], stuck) + EvictionOf(files, order[|order| - 1], stuck)
  }

  function EvictionOf(files: Files, p: Path, stuck: set<Path>): seq<Event> {
    (if p in files && files[p].hasCallback then [CalledBack(p)] else []) + [Removed(p, p !in stuck)]
  }

  // ----- what EnsureSpaceAvailable does -----

  datatype Outcome = Outcome(error: Option<SpaceError>, evicted: nat)

  /** The loop, at the file after n evictions. */
  ghost function EvictFrom(files: Files, order: seq<Path>, fileSize: nat, disk: Disk, n: nat): (o: Outcome)
    requires n <= |order|
    ensures n <= o.evicted <= |order|
    decreases |order| - n
  {
    if n == |order| then FinalCheck(files, order, fileSize, disk, n + 1, n)
    else if disk(n + 1, n).None? then Outcome(Some(StatfsFailed), n)
    else if Enough(files, order, fileSize, disk(n + 1, n).value, n) then
      FinalCheck(files, order, fileSize, disk, n + 2, n)
    else EvictFrom(files, order, fileSize, disk, n + 1)
  }

  /** One round of the loop. */
  lemma EvictFromRound(files: Files, order: seq<Path>, fileSize: nat, disk: Disk, n: nat)
    requires n < |order|
    ensures var u := disk(n + 1, n);
            EvictFrom(files, order, fileSize, disk, n) ==
              if u.None? then Outcome(Some(StatfsFailed), n)
              else if Enough(files, order, fileSize, u.value, n) then FinalCheck(files, order, fileSize, disk, n + 2, n)
              else EvictFrom(files, order, fileSize, disk, n + 1)
  {
  }

  ghost predicate Enough(files: Files, order: seq<Path>, fileSize: nat, u: Usage, n: nat)
    requires n <= |order|
  {
    Fits(Remaining(files, order, n), fileSize, u) && |Remaining(files, order, n)| < MAX_TEMP_FILES
  }

  ghost function FinalCheck(files: Files, order: seq<Path>, fileSize: nat, disk: Disk, call: nat, n: nat): (o: Outcome)
    requires n <= |order|
    ensures o.evicted == n
  {
    if disk(call, n).None? then Outcome(Some(StatfsFailed), n)
    else if !Fits(Remaining(files, order, n), fileSize, disk(call, n).value) then Outcome(Some(InsufficientSpace), n)
    else if |Remaining(files, order, n)| >= MAX_TEMP_FILES then Outcome(Some(TooManyFiles), n)
    else Outcome(None, n)
  }

  ghost function Ensure(files: Files, order: seq<Path>, fileSize: nat, disk: Disk): (o: Outcome)
    ensures o.evicted <= |order|
  {
    if disk(0, 0).None? then Outcome(Some(StatfsFailed), 0)
    else if Fits(files, fileSize, disk(0, 0).value) && |files| < MAX_TEMP_FILES then Outcome(None, 0)
    else EvictFrom(files, order, fileSize, disk, 0)
  }

  // ----- helper facts -----

  lemma RemainingNone(files: Files, order: seq<Path>)
    ensures Remaining(files, order, 0) == files
  {
  }

  lemma RemainingNext(files: Files, order: seq<Path>, n: nat)
    requires LeastRecentFirst(files, order) && n < |order|
    ensures order[n] in Remaining(files, order, n) && Remaining(files, order, n)[order[n]] == files[order[n]]
    ensures Remaining(files, order, n + 1) == Remaining(files, order, n) - {order[n]}
  {
    assert order[n] in order;
    assert order[..n + 1] == order[..n] + [order[n]];
  }

  lemma RemainingAll(files: Files, order: seq<Path>)
    requires LeastRecentFirst(files, order)
    ensures Remaining(files, order, |order|) == map[]
  {
    assert order[..|order|] == order;
  }

  lemma EvictionsNext(files: Files, order: seq<Path>, stuck: set<Path>, n: nat)
    requires n < |order|
    ensures Evictions(files, order[..n + 1], stuck)
            == Evictions(files, order[..n], stuck) + EvictionOf(files, order[n], stuck)
  {
    assert order[..n + 1][..n] == order[..n];
  }

  /** What is left, and what was done, after the first n evictions. */
  ghost predicate Evicted(before: Files, order: seq<Path>, stuck: set<Path>, n: nat, files: Files, log: seq<Event>) {
    n <= |order| && files == Remaining(before, order, n) && log == Evictions(before, order[..n], stuck)
  }

  lemma EvictedNone(before: Files, order: seq<Path>, stuck: set<Path>)
    ensures Evicted(before, order, stuck, 0, before, [])
  {
    RemainingNone(before, order);
  }

  lemma EvictedNext(before: Files, order: seq<Path>, stuck: set<Path>, n: nat, files: Files, log: seq<Event>)
    requires LeastRecentFirst(before, order) && n < |order| && Evicted(before, order, stuck, n, files, log)
    ensures order[n] in files
    ensures Evicted(before, order, stuck, n + 1, files - {order[n]}, log + EvictionOf(files, order[n], stuck))
  {
    RemainingNext(before, order, n);
    EvictionsNext(before, order, stuck, n);
  }

  lemma SizesWithout(files: Files, p: Path)
    requires p in files
    ensures Used(files) == files[p].size + Used(files - {p})
  {
    var sizes := map q | q in files :: files[q].size;
    TotalRemove(sizes, p);
    assert (map q | q in files - {p} :: (files - {p})[q].size) == sizes - {p};
  }

  /** Fewer files use no more. */
  lemma {:induction false} FewerUseLess(files: Files, fewer: Files)
    requires fewer.Keys <= files.Keys && forall p :: p in fewer ==> fewer[p].size == files[p].size
    ensures Used(fewer) <= Used(files) && |fewer| <= |files|
    decreases |files|
  {
    if p :| p in files && p !in fewer {
      SizesWithout(files, p);
      FewerUseLess(files - {p}, fewer);
    } else {
      assert fewer.Keys == files.Keys;
      assert (map p | p in fewer :: fewer[p].size) == (map p | p in files :: files[p].size);
      assert |fewer| == |fewer.Keys| && |files| == |files.Keys|;
    }
  }

  lemma {:induction false} OldestExists(files: Files, rest: set<Path>)
    requires rest != {} && rest <= files.Keys
    ensures exists p :: p in rest && forall q :: q in rest ==> files[p].lastAccess <= files[q].lastAccess
  {
    var p :| p in rest;
    if rest - {p} == {} {
      assert rest == {p};
    } else {
      OldestExists(files, rest - {p});
      var o :| o in rest - {p} && forall q :: q in rest - {p} ==> files[o].lastAccess <= files[q].lastAccess;
      var oldest := if files[p].lastAccess <= files[o].lastAccess then p else o;
      assert forall q :: q in rest ==> q == p || q in rest - {p};
      assert oldest in rest && forall q :: q in rest ==> files[oldest].lastAccess <= files[q].lastAccess;
    }
  }

  class TempFileManager {
    var files: Files

    constructor ()
      ensures files == map[]
    {
      files := map[];
    }

    method Register(path: Path, size: nat, hasCallback: bool, now: int)
      modifies this
      ensures files == old(files)[path := FileInfo(size, now, hasCallback)]
    {
      files := files[path := FileInfo(size, now, hasCallback)];
    }

    method Unregister(path: Path)
      modifies this
      ensures files == old(files) - {path}
    {
      files := files - {path};
    }

    method UpdateAccess(path: Path, now: int)
      modifies this
      ensures files ==
                if path in old(files) then old(files)[path := old(files)[path].(lastAccess := now)] else old(files)
    {
      if path in files {
        files := files[path := files[path].(lastAccess := now)];
      }
    }

    method GetFileCount() returns (n: nat)
      ensures n == |files|
    {
      n := |files|;
    }

    method CheckSpaceAvailable(fileSize: nat, usage: Option<Usage>) returns (ok: Option<bool>)
      ensures ok.None? <==> usage.None?
      ensures ok.Some? ==>
                (ok.value <==> fileSize <= usage.value.available && Used(files) + fileSize <= usage.value.limit)
    {
      if usage.None? {
        return None;
      }
      var ourUsage := 0;
      var rest := files;
      while rest != map[]
        invariant rest.Keys <= files.Keys && ourUsage + Used(rest) == Used(files)
        decreases rest.Keys
      {
        var path :| path in rest;
        SizesWithout(rest, path);
        ourUsage := ourUsage + rest[path].size;
        rest := rest - {path};
      }
      assert Used(rest) == 0;
      return Some(fileSize <= usage.value.available && ourUsage + fileSize <= usage.value.limit);
    }

    /** The snapshot of the registry, sorted; the order of equal access times is left open. */
    method EntriesByLastAccess() returns (entries: seq<Path>)
      ensures LeastRecentFirst(files, entries)
    {
      entries := [];
      var rest := files.Keys;
      while rest != {}
        invariant rest <= files.Keys
        invariant forall p :: p in entries <==> p in files.Keys - rest
        invariant forall i, j :: 0 <= i < j < |entries| ==> entries[i] != entries[j]
        invariant forall i, j :: 0 <= i < j < |entries| ==>
                    entries[i] in files && entries[j] in files
                    && files[entries[i]].lastAccess <= files[entries[j]].lastAccess
        invariant forall i, q :: 0 <= i < |entries| && q in rest ==>
                    entries[i] in files && files[entries[i]].lastAccess <= files[q].lastAccess
        decreases rest
      {
        OldestExists(files, rest);
        var p :| p in rest && forall q :: q in rest ==> files[p].lastAccess <= files[q].lastAccess;
        assert forall i :: 0 <= i < |entries| ==> entries[i] in entries;
        entries := entries + [p];
        rest := rest - {p};
      }
    }

    method EnsureSpaceAvailable(fileSize: nat, disk: Disk, stuck: set<Path>)
      returns (error: Option<SpaceError>, log: seq<Event>, ghost order: seq<Path>)
      modifies this
      ensures LeastRecentFirst(old(files), order)
      ensures var o := Ensure(old(files), order, fileSize, disk);
              error == o.error && Evicted(old(files), order, stuck, o.evicted, files, log)
    {
      var entries := EntriesByLastAccess();
      order, log := entries, [];
      EvictedNone(files, entries, stuck);
      var fileCount := |files|;
      var spaceOK := CheckSpaceAvailable(fileSize, disk(0, 0));
      if spaceOK.None? {
        return Some(StatfsFailed), log, order;
      }
      if spaceOK.value && fileCount < MAX_TEMP_FILES {
        return None, log, order;
      }
      var i, calls, failed;
      failed, i, calls, log := EvictUntilEnough(entries, fileSize, disk, stuck);
      if failed {
        return Some(StatfsFailed), log, order;
      }
      spaceOK := CheckSpaceAvailable(fileSize, disk(calls, i));
      if spaceOK.None? {
        return Some(StatfsFailed), log, order;
      }
      if !spaceOK.value {
        return Some(InsufficientSpace), log, order;
      }
      if |files| >= MAX_TEMP_FILES {
        return Some(TooManyFiles), log, order;
      }
      error := None;
    }

    /** The eviction loop: how many files went, and how often the disk was asked so far. */
    method EvictUntilEnough(entries: seq<Path>, fileSize: nat, disk: Disk, stuck: set<Path>)
      returns (failed: bool, i: nat, calls: nat, log: seq<Event>)
      requires LeastRecentFirst(files, entries)
      modifies this
      ensures Evicted(old(files), entries, stuck, i, files, log)
      ensures EvictFrom(old(files), entries, fileSize, disk, 0) ==
                if failed then Outcome(Some(StatfsFailed), i)
                else FinalCheck(old(files), entries, fileSize, disk, calls, i)
    {
      failed, i, calls, log := false, 0, 1, [];
      ghost var before, goal := files, EvictFrom(files, entries, fileSize, disk, 0);
      EvictedNone(before, entries, stuck);
      while i < |entries|
        invariant calls == i + 1 && !failed && Evicted(before, entries, stuck, i, files, log)
        invariant goal == EvictFrom(before, entries, fileSize, disk, i)
      {
        var enough := LookAtSpace(before, entries, fileSize, disk, i);
        calls := calls + 1;
        if enough.None? {
          failed := true;
          return;
        }
        if enough.value {
          return;
        }
        log := EvictNext(before, entries, stuck, i, log);
        i := i + 1;
      }
    }

    method EvictNext(ghost before: Files, entries: seq<Path>, stuck: set<Path>, i: nat, log: seq<Event>)
      returns (longer: seq<Event>)
      requires LeastRecentFirst(before, entries) && i < |entries| && Evicted(before, entries, stuck, i, files, log)
      modifies this
      ensures Evicted(before, entries, stuck, i + 1, files, longer)
    {
      EvictedNext(before, entries, stuck, i, files, log);
      var events := EvictFile(entries[i], stuck);
      longer := log + events;
    }

    /** The check at the head of the loop, and what it decides about the rest of it. */
    method LookAtSpace(ghost before: Files, ghost entries: seq<Path>, fileSize: nat, disk: Disk, i: nat)
      returns (enough: Option<bool>)
      requires i < |entries| && files == Remaining(before, entries, i)
      ensures EvictFrom(before, entries, fileSize, disk, i) ==
                if enough.None? then Outcome(Some(StatfsFailed), i)
                else if enough.value then FinalCheck(before, entries, fileSize, disk, i + 2, i)
                else EvictFrom(before, entries, fileSize, disk, i + 1)
    {
      EvictFromRound(before, entries, fileSize, disk, i);
      var spaceOK := CheckSpaceAvailable(fileSize, disk(i + 1, i));
      enough := if spaceOK.None? then None else Some(spaceOK.value && |files| < MAX_TEMP_FILES);
    }

    /** The callback runs before the file is removed; the file is forgotten also if that fails. */
    method EvictFile(path: Path, stuck: set<Path>) returns (events: seq<Event>)
      requires path in files
      modifies this
      ensures files == old(files) - {path}
      ensures events == EvictionOf(old(files), path, stuck)
    {
      var info := files[path];
      files := files - {path};
      events := [];
      if info.hasCallback {
        events := [CalledBack(path)];
      }
      events := events + [Removed(path, path !in stuck)];
    }

    /** Removes every tracked file; stuck are those whose removal fails, which are forgotten all the same. */
    method CleanupAllFiles(stuck: set<Path>) returns (failures: nat)
      modifies this
      ensures files == map[] && failures == |old(files).Keys * stuck|
    {
      failures := 0;
      var paths := files.Keys;
      while paths != {}
        invariant paths <= files.Keys && failures + |paths * stuck| == |files.Keys * stuck|
        decreases paths
      {
        var path :| path in paths;
        assert paths * stuck == if path in stuck then (paths - {path}) * stuck + {path} else (paths - {path}) * stuck;
        if path in stuck {
          failures := failures + 1;
        }
        paths := paths - {path};
      }
      files := map[];
    }
  }

  // ----- main results -----

  /** "Too many temp files" is never reported. */
  lemma NeverTooMany(files: Files, order: seq<Path>, fileSize: nat, disk: Disk)
    requires LeastRecentFirst(files, order)
    ensures Ensure(files, order, fileSize, disk).error != Some(TooManyFiles)
  {
    NeverTooManyFrom(files, order, fileSize, disk, 0);
  }

  lemma {:induction false} NeverTooManyFrom(files: Files, order: seq<Path>, fileSize: nat, disk: Disk, n: nat)
    requires LeastRecentFirst(files, order) && n <= |order|
    ensures EvictFrom(files, order, fileSize, disk, n).error != Some(TooManyFiles)
    decreases |order| - n
  {
    if n == |order| {
      RemainingAll(files, order);
    } else {
      NeverTooManyFrom(files, order, fileSize, disk, n + 1);
    }
  }

  /**
   Eviction is least recently used first: what was evicted was last accessed no later than anything
   that is kept.
   */
  lemma EvictedAreOldest(files: Files, order: seq<Path>, n: nat, p: Path, q: Path)
    requires LeastRecentFirst(files, order) && n <= |order| && p in order[..n] && q in Remaining(files, order, n)
    ensures p in files && q in files && files[p].lastAccess <= files[q].lastAccess
  {
    var i :| 0 <= i < n && order[..n][i] == p;
    assert q in order;
    var j :| 0 <= j < |order| && order[j] == q;
    assert j >= n by {
      assert forall k :: 0 <= k < n ==> order[..n][k] == order[k];
    }
    assert order[i] == p;
  }

  /** The callback, if there is one, comes directly before the removal of the same file. */
  lemma {:induction false} CalledBackBeforeRemoved(files: Files, order: seq<Path>, stuck: set<Path>, i: nat)
    requires i < |Evictions(files, order, stuck)| && Evictions(files, order, stuck)[i].Removed?
    ensures var log := Evictions(files, order, stuck);
            var p := log[i].path;
            p in files && files[p].hasCallback ==> i > 0 && log[i - 1] == CalledBack(p)
  {
    var init, last := order[..|order| - 1], order[|order| - 1];
    if i < |Evictions(files, init, stuck)| {
      CalledBackBeforeRemoved(files, init, stuck, i);
    }
  }

  /** How often each event about p is in the log, when p was evicted or not. */
  ghost predicate CountedOnce(files: Files, log: seq<Event>, stuck: set<Path>, p: Path, evicted: bool) {
    && multiset(log)[Removed(p, p !in stuck)] == (if evicted then 1 else 0)
    && multiset(log)[Removed(p, p in stuck)] == 0
    && multiset(log)[CalledBack(p)] == if evicted && p in files && files[p].hasCallback then 1 else 0
  }

  /**
   Each evicted file is removed once, successfully unless it is stuck, and called back once if it has a
   callback; nothing happens to any other file.
   */
  lemma {:induction false} EvictedOnce(files: Files, order: seq<Path>, stuck: set<Path>, p: Path)
    requires forall i, j :: 0 <= i < j < |order| ==> order[i] != order[j]
    ensures CountedOnce(files, Evictions(files, order, stuck), stuck, p, p in order)
  {
    if order != [] {
      var init, last := order[..|order| - 1], order[|order| - 1];
      EvictedOnce(files, init, stuck, p);
      MemberOfLonger(order, p);
      EvictionCounts(files, Evictions(files, init, stuck), stuck, last, p, p in init);
    }
  }

  lemma MemberOfLonger(order: seq<Path>, p: Path)
    requires order != [] && forall i, j :: 0 <= i < j < |order| ==> order[i] != order[j]
    ensures var init, last := order[..|order| - 1], order[|order| - 1];
            last !in init && (p in order <==> p in init || p == last)
  {
    assert order == order[..|order| - 1] + [order[|order| - 1]];
  }

  lemma EvictionCounts(files: Files, log: seq<Event>, stuck: set<Path>, last: Path, p: Path, before: bool)
    requires CountedOnce(files, log, stuck, p, before) && !(before && p == last)
    ensures CountedOnce(files, log + EvictionOf(files, last, stuck), stuck, p, before || p == last)
  {
    var events := EvictionOf(files, last, stuck);
    assert multiset(log + events) == multiset(log) + multiset(events);
    OneEviction(files, stuck, last, p);
  }

  lemma OneEviction(files: Files, stuck: set<Path>, last: Path, p: Path)
    ensures CountedOnce(files, EvictionOf(files, last, stuck), stuck, p, p == last)
  {
    var removed := Removed(last, last !in stuck);
    if last in files && files[last].hasCallback {
      assert EvictionOf(files, last, stuck) == [CalledBack(last), removed];
    } else {
      assert EvictionOf(files, last, stuck) == [removed];
    }
  }

  // ----- what the checks decide, with the numbers written out -----

  /** Fewer than ten tracked files, and room for fileSize bytes on the disk and under the limit. */
  ghost predicate Room(files: Files, fileSize: nat, u: Usage) {
    |files| < 10 && fileSize <= u.available && Used(files) + fileSize <= u.limit
  }

  /** The bytes of tracked files add up: nothing for none, and each file its own size. */
  lemma UsedAddsUp(files: Files, path: Path, info: FileInfo)
    requires path !in files
    ensures Used(map[]) == 0
    ensures Used(files[path := info]) == Used(files) + info.size && |files[path := info]| == |files| + 1
  {
    RegisteredUses(files, path, info);
  }

  lemma RegisteredUses(files: Files, path: Path, info: FileInfo)
    requires path !in files
    ensures Used(files[path := info]) == Used(files) + info.size && |files[path := info]| == |files| + 1
  {
    SizesWithout(files[path := info], path);
    assert files[path := info] - {path} == files;
  }

  /** With room at the first look nothing is evicted, whatever the disk would say later. */
  lemma RoomEvictsNothing(files: Files, order: seq<Path>, fileSize: nat, disk: Disk)
    requires disk(0, 0).Some?
    requires |files| < 10 && fileSize <= disk(0, 0).value.available && Used(files) + fileSize <= disk(0, 0).value.limit
    ensures Ensure(files, order, fileSize, disk) == Outcome(None, 0)
  {
  }

  /** What all disks with the same first answer have in common. */
  ghost predicate DecidedAtOnce(files: Files, order: seq<Path>, fileSize: nat, first: Option<Usage>) {
    forall disk: Disk :: disk(0, 0) == first ==> Ensure(files, order, fileSize, disk) == Outcome(None, 0)
  }

  /** The first look decides for success if and only if there is room: a smaller disk is always asked again. */
  lemma DecidedAtOnceIffRoom(files: Files, order: seq<Path>, fileSize: nat, first: Option<Usage>)
    requires LeastRecentFirst(files, order)
    ensures DecidedAtOnce(files, order, fileSize, first)
            <==> first.Some? && |files| < 10 && fileSize <= first.value.available
                 && Used(files) + fileSize <= first.value.limit
  {
    if first.None? || !Room(files, fileSize, first.value) {
      var silent: Disk := (c: nat, e: nat) => if c == 0 && e == 0 then first else None;
      assert silent(0, 0) == first && silent(1, 0).None?;
      assert Ensure(files, order, fileSize, silent) != Outcome(None, 0);
    } else {
      forall disk: Disk | disk(0, 0) == first ensures Ensure(files, order, fileSize, disk) == Outcome(None, 0) {
        RoomEvictsNothing(files, order, fileSize, disk);
      }
    }
  }

  /** The k-th look of the loop, before evicting file k: the disk answered, and there was no room. */
  ghost predicate NoRoomAt(files: Files, order: seq<Path>, fileSize: nat, disk: Disk, k: nat)
    requires k <= |order|
  {
    disk(k + 1, k).Some? &&
      var left, u := Remaining(files, order, k), disk(k + 1, k).value;
      |left| >= 10 || fileSize > u.available || Used(left) + fileSize > u.limit
  }

  ghost predicate RoomAt(files: Files, order: seq<Path>, fileSize: nat, disk: Disk, k: nat)
    requires k <= |order|
  {
    disk(k + 1, k).Some? && Room(Remaining(files, order, k), fileSize, disk(k + 1, k).value)
  }

  /**
   Eviction is minimal: a file is evicted only after a look at the disk, for each shorter prefix, that found ten
   files, or too little space, or the limit exceeded; and unless statfs failed, the evicted prefix made room or is
   everything.
   */
  lemma EvictsShortestPrefix(files: Files, order: seq<Path>, fileSize: nat, disk: Disk)
    requires LeastRecentFirst(files, order)
    ensures var o := Ensure(files, order, fileSize, disk);
            && (forall k :: 0 <= k < o.evicted ==> NoRoomAt(files, order, fileSize, disk, k))
            && (o.evicted > 0 ==> disk(0, 0).Some? && !Room(files, fileSize, disk(0, 0).value))
            && (o.error != Some(StatfsFailed) && 0 < o.evicted < |order| ==>
                  RoomAt(files, order, fileSize, disk, o.evicted))
  {
    RemainingNone(files, order);
    ShortestFrom(files, order, fileSize, disk, 0);
  }

  /** From eviction n on, nothing shorter than the outcome made room; the outcome does, or is everything. */
  ghost predicate ShortestOutcome(files: Files, order: seq<Path>, fileSize: nat, disk: Disk, n: nat, o: Outcome) {
    && o.evicted <= |order|
    && (forall k :: n <= k < o.evicted ==> NoRoomAt(files, order, fileSize, disk, k))
    && (o.error != Some(StatfsFailed) && o.evicted < |order| ==> RoomAt(files, order, fileSize, disk, o.evicted))
  }

  lemma ShortestNext(files: Files, order: seq<Path>, fileSize: nat, disk: Disk, n: nat, o: Outcome)
    requires ShortestOutcome(files, order, fileSize, disk, n + 1, o)
    requires n < |order| && NoRoomAt(files, order, fileSize, disk, n)
    ensures ShortestOutcome(files, order, fileSize, disk, n, o)
  {
    forall k | n <= k < o.evicted ensures NoRoomAt(files, order, fileSize, disk, k) {
      if k > n {
        assert n + 1 <= k;
      }
    }
  }

  lemma {:induction false} ShortestFrom(files: Files, order: seq<Path>, fileSize: nat, disk: Disk, n: nat)
    requires n <= |order|
    ensures ShortestOutcome(files, order, fileSize, disk, n, EvictFrom(files, order, fileSize, disk, n))
    decreases |order| - n
  {
    if n < |order| {
      EvictFromRound(files, order, fileSize, disk, n);
      if NoRoomAt(files, order, fileSize, disk, n) {
        ShortestFrom(files, order, fileSize, disk, n + 1);
        ShortestNext(files, order, fileSize, disk, n, EvictFrom(files, order, fileSize, disk, n + 1));
      }
    }
  }

  /** The look after the loop: the loop has looked once more than it evicted, unless it evicted everything. */
  function LastLook(order: seq<Path>, disk: Disk, evicted: nat): Option<Usage> {
    disk(if evicted == |order| then evicted + 1 else evicted + 2, evicted)
  }

  /** How the call ends, told by the looks at the disk after so many evictions. */
  ghost predicate EndsAs(files: Files, order: seq<Path>, fileSize: nat, disk: Disk, o: Outcome) {
    o.evicted <= |order| &&
      var left, last := Remaining(files, order, o.evicted), LastLook(order, disk, o.evicted);
      var silent := (o.evicted < |order| && disk(o.evicted + 1, o.evicted).None?) || last.None?;
      && (o.error == Some(StatfsFailed) <==> silent)
      && (o.error == Some(InsufficientSpace) <==>
            !silent && (fileSize > last.value.available || Used(left) + fileSize > last.value.limit))
      && (o.error.None? <==> !silent && Room(left, fileSize, last.value))
  }

  /** The final check, when the loop has ended. */
  lemma FinalEnds(files: Files, order: seq<Path>, fileSize: nat, disk: Disk, n: nat)
    requires n <= |order| && |Remaining(files, order, n)| < 10
    requires n < |order| ==> disk(n + 1, n).Some?
    ensures EndsAs(files, order, fileSize, disk,
                   FinalCheck(files, order, fileSize, disk, if n == |order| then n + 1 else n + 2, n))
  {
  }

  lemma {:induction false} EndsFrom(files: Files, order: seq<Path>, fileSize: nat, disk: Disk, n: nat)
    requires LeastRecentFirst(files, order) && n <= |order|
    ensures EndsAs(files, order, fileSize, disk, EvictFrom(files, order, fileSize, disk, n))
    decreases |order| - n
  {
    if n == |order| {
      RemainingAll(files, order);
      FinalEnds(files, order, fileSize, disk, n);
    } else {
      EvictFromRound(files, order, fileSize, disk, n);
      if disk(n + 1, n).Some? {
        if Enough(files, order, fileSize, disk(n + 1, n).value, n) {
          FinalEnds(files, order, fileSize, disk, n);
        } else {
          EndsFrom(files, order, fileSize, disk, n + 1);
        }
      }
    }
  }

  /**
   Exactly how a call without room at the first look ends: with the error of statfs if one of its last looks was
   not answered, with too little space if the last one shows too little, and with success if it shows room.
   */
  lemma HowItEnds(files: Files, order: seq<Path>, fileSize: nat, disk: Disk)
    requires LeastRecentFirst(files, order)
    ensures disk(0, 0).None? ==> Ensure(files, order, fileSize, disk) == Outcome(Some(StatfsFailed), 0)
    ensures disk(0, 0).Some? && !Room(files, fileSize, disk(0, 0).value) ==>
              EndsAs(files, order, fileSize, disk, Ensure(files, order, fileSize, disk))
  {
    EndsFrom(files, order, fileSize, disk, 0);
  }

  /** Success means what the caller needs: room for one more file of this size. */
  lemma SuccessMeansRoom(files: Files, order: seq<Path>, fileSize: nat, disk: Disk, limit: nat)
    requires Ensure(files, order, fileSize, disk).error.None?
    requires forall c, e :: disk(c, e).Some? ==> disk(c, e).value.limit == limit
    ensures var left := Remaining(files, order, Ensure(files, order, fileSize, disk).evicted);
            Used(left) + fileSize <= limit && |left| < 10
  {
    RemainingNone(files, order);
    RoomFrom(files, order, fileSize, disk, limit, 0);
  }

  lemma {:induction false} RoomFrom(files: Files, order: seq<Path>, fileSize: nat, disk: Disk, limit: nat, n: nat)
    requires n <= |order|
    requires forall c, e :: disk(c, e).Some? ==> disk(c, e).value.limit == limit
    ensures var o := EvictFrom(files, order, fileSize, disk, n);
            o.error.None? ==>
              Used(Remaining(files, order, o.evicted)) + fileSize <= limit
              && |Remaining(files, order, o.evicted)| < MAX_TEMP_FILES
    decreases |order| - n
  {
    if n < |order| {
      RoomFrom(files, order, fileSize, disk, limit, n + 1);
    }
  }

  // ----- a disk on which every removal frees its bytes -----

  /** The bytes of the first n files of order. */
  ghost function Freed(files: Files, order: seq<Path>, n: nat): nat
    requires n <= |order|
  {
    FewerUseLess(files, Remaining(files, order, n));
    Used(files) - Used(Remaining(files, order, n))
  }

  /** statfs always answers, and each removed file gives back exactly its size. */
  ghost predicate Honest(files: Files, order: seq<Path>, disk: Disk, available: nat, limit: nat) {
    forall c: nat, e: nat :: e <= |order| ==> disk(c, e) == Some(Usage(available + Freed(files, order, e), limit))
  }

  /**
   Eviction is complete: on such a disk the call succeeds exactly when the file would fit with every
   tracked file gone.
   */
  lemma CompleteOnHonestDisk(files: Files, order: seq<Path>, fileSize: nat, disk: Disk, available: nat, limit: nat)
    requires LeastRecentFirst(files, order) && Honest(files, order, disk, available, limit)
    ensures Ensure(files, order, fileSize, disk).error.None?
            <==> fileSize <= available + Used(files) && fileSize <= limit
  {
    RemainingNone(files, order);
    CompleteFrom(files, order, fileSize, disk, available, limit, 0);
  }

  lemma {:induction false} CompleteFrom(files: Files, order: seq<Path>, fileSize: nat, disk: Disk,
                                        available: nat, limit: nat, n: nat)
    requires LeastRecentFirst(files, order) && Honest(files, order, disk, available, limit) && n <= |order|
    ensures EvictFrom(files, order, fileSize, disk, n).error.None?
            <==> fileSize <= available + Used(files) && fileSize <= limit
    decreases |order| - n
  {
    assert disk(n + 1, n) == Some(Usage(available + Freed(files, order, n), limit));
    assert disk(n + 2, n) == Some(Usage(available + Freed(files, order, n), limit));
    FewerUseLess(files, Remaining(files, order, n));
    if n == |order| {
      RemainingAll(files, order);
      assert Used(map[]) == 0;
    } else {
      CompleteFrom(files, order, fileSize, disk, available, limit, n + 1);
    }
  }

  // ----- the allocator over runs -----

  /** What sequential callers do. An allocation registers its file only if room was ensured. */
  datatype Operation =
    | Allocate(path: Path, size: nat, now: int, disk: Disk, order: seq<Path>)
    | OnlyEnsure(size: nat, disk: Disk, order: seq<Path>)
    | Forget(path: Path)
    | Access(path: Path, now: int)
    | CleanUp

  /** The operation is one the system performs: fresh names, an order by last access, a disk of fixed size. */
  ghost predicate Proper(files: Files, op: Operation, limit: nat) {
    match op
    case Allocate(path, _, _, disk, order) => path !in files && ProperEnsure(files, disk, order, limit)
    case OnlyEnsure(_, disk, order) => ProperEnsure(files, disk, order, limit)
    case _ => true
  }

  ghost predicate ProperEnsure(files: Files, disk: Disk, order: seq<Path>, limit: nat) {
    LeastRecentFirst(files, order) && forall c, e :: disk(c, e).Some? ==> disk(c, e).value.limit == limit
  }

  ghost function Perform(files: Files, op: Operation): Files {
    match op
    case Allocate(path, size, now, disk, order) =>
      var o := Ensure(files, order, size, disk);
      var left := Remaining(files, order, o.evicted);
      if o.error.None? then left[path := FileInfo(size, now, true)] else left
    case OnlyEnsure(size, disk, order) => Remaining(files, order, Ensure(files, order, size, disk).evicted)
    case Forget(path) => files - {path}
    case Access(path, now) => if path in files then files[path := files[path].(lastAccess := now)] else files
    case CleanUp => map[]
  }

  ghost predicate Step(files: Files, after: Files, limit: nat) {
    exists op :: Proper(files, op, limit) && Perform(files, op) == after
  }

  /** The registry, from the empty one on, after each of a sequence of operations. */
  ghost predicate IsRun(run: seq<Files>, limit: nat) {
    run != [] && run[0] == map[] && forall i :: 0 < i < |run| ==> Step(run[i - 1], run[i], limit)
  }

  ghost predicate WithinBounds(files: Files, limit: nat) {
    |files| <= MAX_TEMP_FILES && Used(files) <= limit
  }

  lemma AllocateKeeps(files: Files, op: Operation, limit: nat)
    requires WithinBounds(files, limit) && op.Allocate? && Proper(files, op, limit)
    ensures WithinBounds(Perform(files, op), limit)
  {
    var o := Ensure(files, op.order, op.size, op.disk);
    var left := Remaining(files, op.order, o.evicted);
    if o.error.None? {
      SuccessMeansRoom(files, op.order, op.size, op.disk, limit);
      RegisteredUses(left, op.path, FileInfo(op.size, op.now, true));
    } else {
      FewerUseLess(files, left);
    }
  }

  lemma PerformKeeps(files: Files, op: Operation, limit: nat)
    requires WithinBounds(files, limit) && Proper(files, op, limit)
    ensures WithinBounds(Perform(files, op), limit)
  {
    if op.Allocate? {
      AllocateKeeps(files, op, limit);
    } else {
      FewerUseLess(files, Perform(files, op));
    }
  }

  /**
   Allocator bound: after any run of sequential operations at most ten files are tracked and
   together they stay within the limit.
   */
  lemma {:induction false} BoundedOverRuns(run: seq<Files>, limit: nat, i: nat)
    requires IsRun(run, limit) && i < |run|
    ensures |run[i]| <= 10 && Used(run[i]) <= limit
  {
    if i == 0 {
      assert Used(map[]) == 0;
    } else {
      BoundedOverRuns(run, limit, i - 1);
      assert Step(run[i - 1], run[i], limit);
      var op :| Proper(run[i - 1], op, limit) && Perform(run[i - 1], op) == run[i];
      PerformKeeps(run[i - 1], op, limit);
    }
  }
}
