/**
 What the callbacks of fuseFS give their callers, told over the fields of the state: a successful StageFile
 makes a file that can be opened, a visible file survives its last Release, and eviction takes exactly the
 files that nobody has open.
 */
module StagingService {
  import opened Common
  import opened Staging
  import opened StagingInvariants

  /** Some live handle is mapped to the file. */
  predicate InUse(s: FS, id: string) {
    exists fh :: fh in s.handles && s.handles[fh].stagedID == id
  }

  /** The store exists, is open, and is not one that the manager has evicted. */
  predicate Usable(c: Config, stores: seq<Store>, k: nat) {
    k < |stores| && !stores[k].closed && !(c.tempFiles && stores[k].evicted)
  }

  lemma InUseIffCounted(s: FS, id: string)
    requires OpenRefsOk(s) && id in s.staged
    ensures InUse(s, id) <==> s.staged[id].openRef > 0
    ensures s.staged[id].openRef >= 0
  {
    if InUse(s, id) {
      var fh :| fh in s.handles && s.handles[fh].stagedID == id;
      assert fh in HandlesOf(s.handles, id);
    } else {
      assert HandlesOf(s.handles, id) == {};
    }
  }

  lemma OwnedIsOpen(s: FS, id: string, k: nat)
    requires OwnershipOk(s) && id in s.staged && s.staged[id].store == Some(k)
    ensures k < |s.stores| && !s.stores[k].closed
  {
    assert Owns(s.staged, id, k);
  }

  // ----- eviction -----

  /**
   EvictStagedFile: the file leaves if and only if nobody has it open, and its store is closed then; otherwise
   it only loses its tile. No other file, and no handle, is touched.
   */
  lemma EvictTakesUnused(c: Config, s: FS, id: string)
    requires Reachable(c, s) && id in s.staged
    ensures var t := EvictStagedFile(s, id);
            && (id in t.staged <==> InUse(s, id))
            && (id in t.staged ==> t.staged[id] == s.staged[id].(tileRef := 0) && t.stores == s.stores)
            && (id !in t.staged && s.staged[id].store.Some? ==>
                  s.staged[id].store.value < |t.stores| == |s.stores| && t.stores[s.staged[id].store.value].closed)
            && (forall o :: o != id ==> (o in t.staged <==> o in s.staged))
            && (forall o :: o != id && o in s.staged ==> t.staged[o] == s.staged[o])
            && t.handles == s.handles && t.nextFH == s.nextFH
  {
    ReachableKeeps(c, s);
    InUseIffCounted(s, id);
    if s.staged[id].store.Some? {
      OwnedIsOpen(s, id, s.staged[id].store.value);
    }
  }

  /** Clearing all tiles: exactly the files in use stay, unchanged but for the tile; handles stay. */
  lemma EvictAllTakesUnused(c: Config, s: FS)
    requires Reachable(c, s)
    ensures var t := EvictAll(s, s.staged.Keys);
            && (forall id :: id in t.staged <==> id in s.staged && InUse(s, id))
            && (forall id :: id in t.staged ==> t.staged[id] == s.staged[id].(tileRef := 0))
            && t.handles == s.handles && t.nextFH == s.nextFH && |t.stores| == |s.stores|
  {
    ReachableKeeps(c, s);
    forall id | id in s.staged ensures InUse(s, id) <==> s.staged[id].openRef != 0 {
      InUseIffCounted(s, id);
    }
  }

  /** What clearing all tiles does to one store: the store of an unused file is closed, any other stays. */
  lemma EvictAllClosesUnused(c: Config, s: FS, k: nat)
    requires Reachable(c, s) && k < |s.stores|
    ensures var t := EvictAll(s, s.staged.Keys);
            t.stores[k] == if exists id :: Owns(s.staged, id, k) && !InUse(s, id) then s.stores[k].(closed := true)
                           else s.stores[k]
  {
    ReachableKeeps(c, s);
    forall id | id in s.staged ensures InUse(s, id) <==> s.staged[id].openRef != 0 {
      InUseIffCounted(s, id);
    }
    forall id ensures Owns(s.staged, id, k) && !InUse(s, id) <==>
                      id in s.staged && Dropped(s, s.staged.Keys, id) && s.staged[id].store == Some(k) {
    }
  }

  /** The store of a file in use stays as it is. */
  lemma EvictAllKeepsUsed(c: Config, s: FS, id: string, k: nat)
    requires Reachable(c, s) && id in s.staged && s.staged[id].store == Some(k) && InUse(s, id)
    ensures k < |s.stores| == |EvictAll(s, s.staged.Keys).stores|
    ensures EvictAll(s, s.staged.Keys).stores[k] == s.stores[k] && !s.stores[k].closed
  {
    ReachableKeeps(c, s);
    OwnedIsOpen(s, id, k);
    EvictAllClosesUnused(c, s, k);
    assert forall o :: Owns(s.staged, o, k) ==> o == id by {
      assert Owns(s.staged, id, k);
    }
  }

  // ----- StageFile -----

  /** The store of this file can still be used. */
  predicate StoreUsable(c: Config, s: FS, id: string) {
    id in s.staged && s.staged[id].store.Some? && Usable(c, s.stores, s.staged[id].store.value)
  }

  /** The file was open, and its store can still be used. */
  predicate StillUsable(c: Config, s: FS, id: string) {
    InUse(s, id) && StoreUsable(c, s, id)
  }

  /** What StageFile needs to know of the state in which all tiles are cleared. */
  ghost predicate ClearedFor(c: Config, s: FS, id: string, d: FS) {
    && d == EvictAll(s, s.staged.Keys)
    && (id in d.staged <==> id in s.staged && InUse(s, id))
    && (id in d.staged ==> d.staged[id] == s.staged[id].(tileRef := 0))
    && (StoreUsable(c, d, id) <==> StillUsable(c, s, id))
    && |d.stores| == |s.stores|
    && StoreThere(d, id)
  }

  predicate StoreThere(d: FS, id: string) {
    id in d.staged && d.staged[id].store.Some? ==>
      d.staged[id].store.value < |d.stores| && !d.stores[d.staged[id].store.value].closed
  }

  lemma Clears(c: Config, s: FS, id: string) returns (d: FS)
    requires Reachable(c, s)
    ensures ClearedFor(c, s, id, d)
  {
    d := EvictAll(s, s.staged.Keys);
    EvictAllTakesUnused(c, s);
    if id in s.staged && InUse(s, id) && s.staged[id].store.Some? {
      EvictAllKeepsUsed(c, s, id, s.staged[id].store.value);
    }
  }

  /** Success, told from the state with all tiles cleared. */
  lemma ClearedStagesIff(c: Config, d: FS, id: string, name: string, env: StageEnv)
    requires StoreThere(d, id)
    ensures StageCleared(c, d, id, name, env).1
            <==> StoreUsable(c, d, id) || ((c.tempFiles ==> env.spaceOk) && env.urlOk && env.storeOk)
  {
  }

  /**
   When does StageFile succeed? If and only if the file is open with a store that can still be used, or the
   space check (for temp files), the URL and the new store all work out.
   */
  lemma StagesIff(c: Config, s: FS, id: string, name: string, env: StageEnv)
    requires Reachable(c, s)
    ensures StageFile(c, s, id, name, env).1
            <==> StillUsable(c, s, id) || ((c.tempFiles ==> env.spaceOk) && env.urlOk && env.storeOk)
  {
    var d := Clears(c, s, id);
    ClearedStagesIff(c, d, id, name, env);
  }

  /** A file that is staged and ready to be opened. */
  predicate Ready(c: Config, t: FS, id: string) {
    StoreUsable(c, t, id) && t.staged[id].tileRef == 1
  }

  lemma ClearedIsReady(c: Config, d: FS, id: string, name: string, env: StageEnv)
    requires StoreThere(d, id) && StageCleared(c, d, id, name, env).1
    ensures var t := StageCleared(c, d, id, name, env).0;
            && Ready(c, t, id)
            && (if id in d.staged
                then t.staged[id].fileName == d.staged[id].fileName && t.staged[id].openRef == d.staged[id].openRef
                else t.staged[id].fileName == name && t.staged[id].openRef == 0)
            && (if StoreUsable(c, d, id) then t.staged[id].store == d.staged[id].store
                else |t.stores| == |d.stores| + 1 && t.staged[id].store == Some(|d.stores|)
                     && t.stores[|d.stores|] == Store(0, false, false))
  {
  }

  /**
   A successful StageFile stages the file: it is visible, with a store that is open and not evicted. A file
   that was open keeps its name and its open references, and its store if that can still be used; any other is
   new, with the name given and not open; a new store is fresh.
   */
  lemma StagedIsReady(c: Config, s: FS, id: string, name: string, env: StageEnv)
    requires Reachable(c, s) && StageFile(c, s, id, name, env).1
    ensures var t := StageFile(c, s, id, name, env).0;
            && Ready(c, t, id)
            && (if id in s.staged && InUse(s, id)
                then t.staged[id].fileName == s.staged[id].fileName && t.staged[id].openRef == s.staged[id].openRef
                else t.staged[id].fileName == name && t.staged[id].openRef == 0)
            && (if StillUsable(c, s, id) then t.staged[id].store == s.staged[id].store
                else |t.stores| == |s.stores| + 1 && t.staged[id].store == Some(|s.stores|)
                     && t.stores[|s.stores|] == Store(0, false, false))
  {
    var d := Clears(c, s, id);
    ClearedIsReady(c, d, id, name, env);
  }

  lemma ClearedFails(c: Config, d: FS, id: string, name: string, env: StageEnv)
    requires StoreThere(d, id) && !StageCleared(c, d, id, name, env).1
    ensures var t := StageCleared(c, d, id, name, env).0;
            && (id in t.staged <==> id in d.staged)
            && (id in t.staged ==> t.staged[id] == d.staged[id].(tileRef := 1, store := None))
            && |t.stores| == |d.stores|
  {
  }

  /**
   A failed StageFile stages nothing new: the file is there if and only if it was open, visible again but
   without a store; no store is created.
   */
  lemma FailedStagesNothing(c: Config, s: FS, id: string, name: string, env: StageEnv)
    requires Reachable(c, s) && !StageFile(c, s, id, name, env).1
    ensures var t := StageFile(c, s, id, name, env).0;
            && (id in t.staged <==> id in s.staged && InUse(s, id))
            && (id in t.staged ==> t.staged[id] == s.staged[id].(tileRef := 1, store := None))
            && |t.stores| == |s.stores|
  {
    var d := Clears(c, s, id);
    ClearedFails(c, d, id, name, env);
  }

  lemma ClearedLeavesOthers(c: Config, d: FS, id: string, name: string, env: StageEnv)
    ensures var t := StageCleared(c, d, id, name, env).0;
            && (forall o :: o != id ==> (o in t.staged <==> o in d.staged))
            && (forall o :: o != id && o in t.staged ==> t.staged[o] == d.staged[o])
            && t.handles == d.handles && t.nextFH == d.nextFH
  {
  }

  /** StageFile takes from the other files their tiles, and the files that nobody has open; handles stay. */
  lemma StagingLeavesOthers(c: Config, s: FS, id: string, name: string, env: StageEnv)
    requires Reachable(c, s)
    ensures var t := StageFile(c, s, id, name, env).0;
            && (forall o :: o != id ==> (o in t.staged <==> o in s.staged && InUse(s, o)))
            && (forall o :: o != id && o in t.staged ==> t.staged[o] == s.staged[o].(tileRef := 0))
            && t.handles == s.handles && t.nextFH == s.nextFH
  {
    EvictAllTakesUnused(c, s);
    ClearedLeavesOthers(c, EvictAll(s, s.staged.Keys), id, name, env);
  }

  /** Two rounds of callbacks mark a store that is open in between. */
  lemma MarkedTwice(c: Config, stores: seq<Store>, first: set<nat>, second: set<nat>, k: nat)
    requires k < |stores|
    ensures var once := Marked(c, stores, first);
            var twice := Marked(c, once, second);
            && once[k] == stores[k].(evicted := stores[k].evicted || (c.tempFiles && !stores[k].closed && k in first))
            && twice[k] == stores[k].(evicted := stores[k].evicted
                                                 || (c.tempFiles && !stores[k].closed && (k in first || k in second)))
  {
  }

  lemma CreateStoreMarks(c: Config, d: FS, id: string, name: string, env: StageEnv, k: nat)
    requires k < |d.stores|
    ensures var t := CreateStore(c, d, id, name, env).0;
            k < |t.stores| &&
            t.stores[k] == d.stores[k].(evicted :=
              d.stores[k].evicted
              || (c.tempFiles && !d.stores[k].closed
                  && (k in env.evictedBefore || (env.spaceOk && env.urlOk && k in env.evictedDuring))))
  {
    MarkedTwice(c, d.stores, env.evictedBefore, env.evictedDuring, k);
  }

  lemma ClearedMarks(c: Config, d: FS, id: string, name: string, env: StageEnv, k: nat)
    requires StoreThere(d, id) && !StoreUsable(c, d, id) && k < |d.stores|
    ensures var t := StageCleared(c, d, id, name, env).0;
            k < |t.stores| &&
            (t.stores[k].evicted <==>
               || d.stores[k].evicted
               || (c.tempFiles && !t.stores[k].closed
                   && (k in env.evictedBefore || (env.spaceOk && env.urlOk && k in env.evictedDuring))))
  {
    var again := if id in d.staged then Restaged(c, d, id) else d;
    CreateStoreMarks(c, again, id, name, env, k);
  }

  /**
   Which stores count as evicted after a StageFile that needed a new store: those that did before, and those
   still open that the manager evicted for the space check, or, if it got that far, for the new store.
   */
  lemma StagingMarks(c: Config, s: FS, id: string, name: string, env: StageEnv, k: nat)
    requires Reachable(c, s) && !StillUsable(c, s, id) && k < |s.stores|
    ensures var t := StageFile(c, s, id, name, env).0;
            k < |t.stores| &&
            (t.stores[k].evicted <==>
               || s.stores[k].evicted
               || (c.tempFiles && !t.stores[k].closed
                   && (k in env.evictedBefore || (env.spaceOk && env.urlOk && k in env.evictedDuring))))
  {
    var d := Clears(c, s, id);
    EvictAllClosesUnused(c, s, k);
    ClearedMarks(c, d, id, name, env, k);
  }

  // ----- Open -----

  /**
   Open succeeds if and only if the file is staged under this name with a store that exists and is not evicted;
   without such a file there is no entry, and otherwise it is an I/O error; a failure changes nothing.
   */
  lemma OpensIff(c: Config, s: FS, id: string, name: string)
    requires Reachable(c, s)
    ensures var (t, r) := Open(c, s, id, name);
            var there := id in s.staged && s.staged[id].fileName == name;
            && (r.NoEntry? <==> !there)
            && (r.Opened? <==> there && s.staged[id].store.Some? && Usable(c, s.stores, s.staged[id].store.value))
            && (!r.Opened? ==> t == s)
  {
    ReachableKeeps(c, s);
    if id in s.staged && s.staged[id].store.Some? {
      OwnedIsOpen(s, id, s.staged[id].store.value);
    }
  }

  /** A successful Open issues the next handle for the file and its store, and counts it on both. */
  lemma OpenedHandle(c: Config, s: FS, id: string, name: string)
    requires Open(c, s, id, name).1.Opened?
    ensures var (t, r) := Open(c, s, id, name);
            id in s.staged && s.staged[id].store.Some? &&
            var k := s.staged[id].store.value;
            && k < |s.stores| == |t.stores|
            && r.fh == s.nextFH && t.nextFH == s.nextFH + 1
            && t.handles == s.handles[s.nextFH := Handle(k, id)]
            && t.staged.Keys == s.staged.Keys && t.staged[id] == s.staged[id].(openRef := s.staged[id].openRef + 1)
            && t.stores[k] == s.stores[k].(refCount := s.stores[k].refCount + 1)
            && (forall o :: o in s.staged && o != id ==> t.staged[o] == s.staged[o])
            && (forall j :: 0 <= j < |s.stores| && j != k ==> t.stores[j] == s.stores[j])
  {
  }

  lemma ReachableNext(c: Config, s: FS, e: Event)
    requires Reachable(c, s)
    ensures Reachable(c, Apply(c, s, e))
  {
    var run :| IsRun(c, run) && run[0] == Init && run[|run| - 1] == s;
    var t := Apply(c, s, e);
    assert Step(c, s, t);
    var longer := run + [t];
    forall i | 0 < i < |longer| ensures Step(c, longer[i - 1], longer[i]) {
      if i < |run| {
        assert Step(c, run[i - 1], run[i]);
      }
    }
    assert IsRun(c, longer) && longer[0] == Init && longer[|longer| - 1] == t;
  }

  /** After a successful StageFile, opening the file by the name it has gives the next handle, on its store. */
  lemma StagedCanBeOpened(c: Config, s: FS, id: string, name: string, env: StageEnv)
    requires Reachable(c, s) && StageFile(c, s, id, name, env).1
    ensures var t := StageFile(c, s, id, name, env).0;
            id in t.staged && t.staged[id].store.Some? &&
            var (u, r) := Open(c, t, id, t.staged[id].fileName);
            && r == Opened(t.nextFH)
            && t.nextFH in u.handles && u.handles[t.nextFH] == Handle(t.staged[id].store.value, id)
  {
    StagedIsReady(c, s, id, name, env);
    ReachableNext(c, s, Stage(id, name, env));
    var t := StageFile(c, s, id, name, env).0;
    OpensIff(c, t, id, t.staged[id].fileName);
    OpenedHandle(c, t, id, t.staged[id].fileName);
  }

  // ----- Release -----

  /** Another handle than fh is mapped to the file. */
  predicate InUseBeside(s: FS, id: string, fh: nat) {
    exists g :: g in s.handles && g != fh && s.handles[g].stagedID == id
  }

  /** The last release reports success exactly for a live handle; for an unknown one it changes nothing. */
  lemma ReleasesIff(c: Config, s: FS, fh: nat)
    requires Reachable(c, s)
    ensures Release(c, s, fh).1 <==> fh in s.handles
    ensures fh !in s.handles ==> Release(c, s, fh).0 == s
    ensures Release(c, s, fh).0.handles == s.handles - {fh} && Release(c, s, fh).0.nextFH == s.nextFH
  {
    ReachableKeeps(c, s);
    if fh in s.handles {
      assert HandleOk(s, fh, s.handles[fh]);
    } else {
      assert s.handles - {fh} == s.handles;
    }
  }

  lemma LastHandle(s: FS, id: string, fh: nat)
    requires OpenRefsOk(s) && fh in s.handles && s.handles[fh].stagedID == id && id in s.staged
    ensures InUseBeside(s, id, fh) <==> s.staged[id].openRef > 1
    ensures s.staged[id].openRef >= 1
  {
    var all := HandlesOf(s.handles, id);
    assert fh in all;
    assert |all - {fh}| == |all| - 1;
    if InUseBeside(s, id, fh) {
      var g :| g in s.handles && g != fh && s.handles[g].stagedID == id;
      assert g in all - {fh};
    } else {
      assert all - {fh} == {};
    }
  }

  lemma ReleaseDecides(c: Config, s: FS, fh: nat)
    requires fh in s.handles && s.handles[fh].store < |s.stores| && s.handles[fh].stagedID in s.staged
    ensures var id := s.handles[fh].stagedID;
            var e := s.staged[id];
            Release(c, s, fh).0.staged ==
              if e.tileRef == 0 && e.openRef == 1 && !c.debugSkipEviction then s.staged - {id}
              else s.staged[id := e.(openRef := e.openRef - 1)]
  {
    var id := s.handles[fh].stagedID;
    var counted := s.staged[id := s.staged[id].(openRef := s.staged[id].openRef - 1)];
    assert counted - {id} == s.staged - {id};
  }

  /**
   Which file leaves at a Release: that of the handle, if and only if it has no tile, no other handle, and eviction
   on Release is enabled. It stays with its store, tile and name, and one open reference less.
   */
  lemma ReleaseTakesUnused(c: Config, s: FS, fh: nat)
    requires Reachable(c, s) && fh in s.handles
    ensures var t, id := Release(c, s, fh).0, s.handles[fh].stagedID;
            && id in s.staged
            && (id in t.staged <==> s.staged[id].tileRef == 1 || InUseBeside(s, id, fh) || c.debugSkipEviction)
            && (id in t.staged ==> t.staged[id] == s.staged[id].(openRef := s.staged[id].openRef - 1))
            && (forall o :: o != id ==> (o in t.staged <==> o in s.staged))
            && (forall o :: o != id && o in s.staged ==> t.staged[o] == s.staged[o])
  {
    ReachableKeeps(c, s);
    assert HandleOk(s, fh, s.handles[fh]);
    LastHandle(s, s.handles[fh].stagedID, fh);
    ReleaseDecides(c, s, fh);
  }

  /** A visible or otherwise used file survives every Release, and its store stays open. */
  lemma VisibleSurvivesRelease(c: Config, s: FS, fh: nat, id: string)
    requires Reachable(c, s) && id in s.staged
    requires s.staged[id].tileRef == 1 || InUseBeside(s, id, fh)
    ensures var t := Release(c, s, fh).0;
            && id in t.staged && t.staged[id].store == s.staged[id].store
            && t.staged[id].tileRef == s.staged[id].tileRef && t.staged[id].fileName == s.staged[id].fileName
            && (s.staged[id].store.Some? ==>
                  s.staged[id].store.value < |t.stores| && !t.stores[s.staged[id].store.value].closed)
  {
    ReleasesIff(c, s, fh);
    if fh in s.handles {
      ReleaseTakesUnused(c, s, fh);
    }
    ReachableNext(c, s, ReleaseHandle(fh));
    ReachableKeeps(c, Release(c, s, fh).0);
    if s.staged[id].store.Some? {
      OwnedIsOpen(Release(c, s, fh).0, id, s.staged[id].store.value);
    }
  }

  // ----- while nothing is staged or evicted -----

  /** A step of a client that only opens and releases. */
  ghost predicate ClientStep(c: Config, s: FS, t: FS) {
    (exists id, name :: Open(c, s, id, name).0 == t) || (exists fh :: Release(c, s, fh).0 == t)
  }

  ghost predicate ClientRun(c: Config, run: seq<FS>) {
    run != [] && forall i :: 0 < i < |run| ==> ClientStep(c, run[i - 1], run[i])
  }

  lemma VisibleSurvivesStep(c: Config, s: FS, t: FS, id: string)
    requires Reachable(c, s) && ClientStep(c, s, t) && id in s.staged && s.staged[id].tileRef == 1
    ensures Reachable(c, t) && id in t.staged && t.staged[id].tileRef == 1
    ensures t.staged[id].store == s.staged[id].store && t.staged[id].fileName == s.staged[id].fileName
  {
    if i, name :| Open(c, s, i, name).0 == t {
      ReachableNext(c, s, OpenFile(i, name));
      OpensIff(c, s, i, name);
      if Open(c, s, i, name).1.Opened? {
        OpenedHandle(c, s, i, name);
      }
    } else {
      var fh :| Release(c, s, fh).0 == t;
      ReachableNext(c, s, ReleaseHandle(fh));
      VisibleSurvivesRelease(c, s, fh, id);
    }
  }

  /**
   However often a visible file is opened and released, it stays staged, with the same name and the same store,
   and the store stays open.
   */
  lemma {:induction false} VisibleStays(c: Config, run: seq<FS>, i: nat, id: string)
    requires ClientRun(c, run) && Reachable(c, run[0]) && i < |run|
    requires id in run[0].staged && run[0].staged[id].tileRef == 1
    ensures Reachable(c, run[i]) && id in run[i].staged && run[i].staged[id].tileRef == 1
    ensures run[i].staged[id].store == run[0].staged[id].store
    ensures run[i].staged[id].fileName == run[0].staged[id].fileName
    ensures run[0].staged[id].store.Some? ==>
              run[0].staged[id].store.value < |run[i].stores| && !run[i].stores[run[0].staged[id].store.value].closed
  {
    if i > 0 {
      VisibleStays(c, run, i - 1, id);
      assert ClientStep(c, run[i - 1], run[i]);
      VisibleSurvivesStep(c, run[i - 1], run[i], id);
    }
    ReachableKeeps(c, run[i]);
    if run[0].staged[id].store.Some? {
      OwnedIsOpen(run[i], id, run[0].staged[id].store.value);
    }
  }
}
