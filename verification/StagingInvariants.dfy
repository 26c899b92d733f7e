/** What every sequence of callbacks keeps: reference counts, ownership of stores, tiles and handles. */
module StagingInvariants {
  import opened Common
  import opened Staging

  function HandlesOf(handles: map<nat, Handle>, id: string): set<nat> {
    set fh | fh in handles && handles[fh].stagedID == id
  }

  function HandlesOn(handles: map<nat, Handle>, k: nat): set<nat> {
    set fh | fh in handles && handles[fh].store == k
  }

  predicate Owns(staged: map<string, Entry>, id: string, k: nat) {
    id in staged && staged[id].store == Some(k)
  }

  ghost predicate Owned(staged: map<string, Entry>, k: nat) {
    exists id :: Owns(staged, id, k)
  }

  // ----- the invariant -----

  /** openRef counts the live handles of a staged file. */
  ghost predicate OpenRefsOk(s: FS) {
    forall id :: id in s.staged ==> s.staged[id].openRef == |HandlesOf(s.handles, id)|
  }

  /** refCount counts the live handles on a store. */
  ghost predicate RefCountsOk(s: FS) {
    forall k :: 0 <= k < |s.stores| ==> s.stores[k].refCount == |HandlesOn(s.handles, k)|
  }

  /** Every live handle has an issued number, a staged file, and its file's store or one the manager evicted. */
  ghost predicate HandlesOk(s: FS) {
    forall fh :: fh in s.handles ==> HandleOk(s, fh, s.handles[fh])
  }

  predicate HandleOk(s: FS, fh: nat, h: Handle) {
    && fh < s.nextFH && h.store < |s.stores| && h.stagedID in s.staged
    && (Owns(s.staged, h.stagedID, h.store) || (s.stores[h.store].closed && s.stores[h.store].evicted))
  }

  /** A store is open exactly while one entry owns it. */
  ghost predicate OwnershipOk(s: FS) {
    && (forall id, k: nat :: Owns(s.staged, id, k) ==> k < |s.stores| && !s.stores[k].closed)
    && (forall i, j, k :: Owns(s.staged, i, k) && Owns(s.staged, j, k) ==> i == j)
    && (forall k :: 0 <= k < |s.stores| && !s.stores[k].closed ==> Owned(s.staged, k))
  }

  ghost predicate TilesOk(s: FS) {
    && (forall id :: id in s.staged ==> s.staged[id].tileRef == 0 || s.staged[id].tileRef == 1)
    && (forall i, j :: i in s.staged && j in s.staged && s.staged[i].tileRef == 1 && s.staged[j].tileRef == 1
          ==> i == j)
  }

  ghost predicate NoGarbage(s: FS) {
    forall id :: id in s.staged ==> s.staged[id].tileRef == 1 || s.staged[id].openRef > 0
  }

  ghost predicate Inv(c: Config, s: FS) {
    && OpenRefsOk(s) && RefCountsOk(s) && HandlesOk(s) && OwnershipOk(s) && TilesOk(s)
    && (!c.debugSkipEviction ==> NoGarbage(s))
  }

  // ----- eviction -----

  /** Removing an entry that nobody has open closes exactly its store. */
  lemma DoEvictKeeps(c: Config, s: FS, id: string)
    requires OpenRefsOk(s) && RefCountsOk(s) && HandlesOk(s) && OwnershipOk(s) && TilesOk(s)
    requires id in s.staged && s.staged[id].openRef == 0
    ensures var t := DoEvict(s, id);
            OpenRefsOk(t) && RefCountsOk(t) && HandlesOk(t) && OwnershipOk(t) && TilesOk(t)
  {
    var t := DoEvict(s, id);
    assert HandlesOf(s.handles, id) == {};
    forall fh | fh in t.handles ensures HandleOk(t, fh, t.handles[fh]) {
      assert HandleOk(s, fh, s.handles[fh]);
      assert fh !in HandlesOf(s.handles, id);
    }
    EvictKeepsOwnership(s, id);
  }

  lemma EvictKeepsOwnership(s: FS, id: string)
    requires OwnershipOk(s) && id in s.staged
    ensures OwnershipOk(DoEvict(s, id))
  {
    var t := DoEvict(s, id);
    forall k | 0 <= k < |t.stores| && !t.stores[k].closed ensures Owned(t.staged, k) {
      var o :| Owns(s.staged, o, k);
      assert Owns(t.staged, o, k);
    }
    forall o, k: nat | Owns(t.staged, o, k) ensures k < |t.stores| && !t.stores[k].closed {
      assert Owns(s.staged, o, k);
      assert Owns(s.staged, id, k) ==> o == id;
    }
    forall i, j, k | Owns(t.staged, i, k) && Owns(t.staged, j, k) ensures i == j {
      assert Owns(s.staged, i, k) && Owns(s.staged, j, k);
    }
  }

  /** The same entries own the same stores, open or closed as before; counters and tiles may differ. */
  ghost predicate SameOwners(s: FS, t: FS) {
    && t.staged.Keys == s.staged.Keys
    && (forall id :: id in s.staged ==> t.staged[id].store == s.staged[id].store)
    && |t.stores| == |s.stores|
    && (forall k :: 0 <= k < |s.stores| ==> t.stores[k].closed == s.stores[k].closed)
    && (forall k :: 0 <= k < |s.stores| && s.stores[k].evicted ==> t.stores[k].evicted)
    && s.nextFH <= t.nextFH
  }

  lemma SameOwnersKeepOwnership(s: FS, t: FS)
    requires SameOwners(s, t) && OwnershipOk(s)
    ensures OwnershipOk(t)
  {
    assert forall id, k: nat :: Owns(t.staged, id, k) <==> Owns(s.staged, id, k);
    forall k: nat | Owned(s.staged, k) ensures Owned(t.staged, k) {
      var o :| Owns(s.staged, o, k);
      assert Owns(t.staged, o, k);
    }
  }

  lemma SameOwnersKeepHandle(s: FS, t: FS, fh: nat, h: Handle)
    requires SameOwners(s, t) && HandleOk(s, fh, h)
    ensures HandleOk(t, fh, h)
  {
  }

  lemma SameOwnersKeep(s: FS, t: FS)
    requires SameOwners(s, t) && OwnershipOk(s) && HandlesOk(s)
    requires forall fh :: fh in t.handles ==> fh in s.handles && t.handles[fh] == s.handles[fh]
    ensures OwnershipOk(t) && HandlesOk(t)
  {
    SameOwnersKeepOwnership(s, t);
    forall fh | fh in t.handles ensures HandleOk(t, fh, t.handles[fh]) {
      SameOwnersKeepHandle(s, t, fh, s.handles[fh]);
    }
  }

  lemma TileKeeps(s: FS, id: string, tile: int)
    requires OpenRefsOk(s) && RefCountsOk(s) && HandlesOk(s) && OwnershipOk(s) && id in s.staged
    ensures var t := s.(staged := s.staged[id := s.staged[id].(tileRef := tile)]);
            OpenRefsOk(t) && RefCountsOk(t) && HandlesOk(t) && OwnershipOk(t)
  {
    SameOwnersKeep(s, s.(staged := s.staged[id := s.staged[id].(tileRef := tile)]));
  }

  lemma EvictKeeps(c: Config, s: FS, id: string)
    requires Inv(c, s)
    ensures Inv(c, EvictStagedFile(s, id))
  {
    if id in s.staged {
      TileKeeps(s, id, 0);
      var t := s.(staged := s.staged[id := s.staged[id].(tileRef := 0)]);
      if s.staged[id].openRef == 0 {
        DoEvictKeeps(c, t, id);
      }
    }
  }

  lemma {:induction false} EvictAllKeeps(c: Config, s: FS, ids: set<string>)
    requires Inv(c, s)
    ensures Inv(c, EvictAll(s, ids))
  {
    if ids == {} {
      EvictNone(s);
    } else {
      var id :| id in ids;
      EvictAllKeeps(c, s, ids - {id});
      EvictAllStep(s, ids - {id}, id);
      assert ids == (ids - {id}) + {id};
      EvictKeeps(c, EvictAll(s, ids - {id}), id);
    }
  }

  // ----- StageFile -----

  /** No tile is set; what is still staged is open. */
  ghost predicate Cleared(s: FS) {
    forall id :: id in s.staged ==> s.staged[id].tileRef == 0 && s.staged[id].openRef > 0
  }

  lemma EvictAllClears(c: Config, s: FS)
    requires Inv(c, s)
    ensures Inv(c, EvictAll(s, s.staged.Keys)) && Cleared(EvictAll(s, s.staged.Keys))
  {
    EvictAllKeeps(c, s, s.staged.Keys);
  }

  lemma MarkedKeeps(c: Config, s: FS, ks: set<nat>)
    requires Inv(c, s)
    ensures Inv(c, s.(stores := Marked(c, s.stores, ks)))
  {
    SameOwnersKeep(s, s.(stores := Marked(c, s.stores, ks)));
  }

  /** An evicted store is closed and detached; its live handles keep it, closed and marked. */
  lemma DetachKeeps(s: FS, id: string, k: nat, tile: int)
    requires OpenRefsOk(s) && RefCountsOk(s) && HandlesOk(s) && OwnershipOk(s)
    requires Owns(s.staged, id, k) && k < |s.stores| && s.stores[k].evicted
    ensures var t := s.(stores := Closed(s.stores, Some(k)),
                        staged := s.staged[id := s.staged[id].(store := None, tileRef := tile)]);
            OpenRefsOk(t) && RefCountsOk(t) && HandlesOk(t) && OwnershipOk(t)
  {
    var t := s.(stores := Closed(s.stores, Some(k)),
                staged := s.staged[id := s.staged[id].(store := None, tileRef := tile)]);
    forall fh | fh in t.handles ensures HandleOk(t, fh, t.handles[fh]) {
      assert HandleOk(s, fh, s.handles[fh]);
    }
    assert forall i, j :: Owns(t.staged, i, j) <==> i != id && Owns(s.staged, i, j);
    forall j | 0 <= j < |t.stores| && !t.stores[j].closed ensures Owned(t.staged, j) {
      var o :| Owns(s.staged, o, j);
      assert Owns(t.staged, o, j);
    }
  }

  lemma RestagedKeeps(c: Config, s: FS, id: string)
    requires Inv(c, s) && Cleared(s) && id in s.staged
    ensures Inv(c, Restaged(c, s, id))
  {
    var e := s.staged[id];
    if e.store.Some? && StoreEvicted(c, s.stores, e.store.value) {
      DetachKeeps(s, id, e.store.value, 1);
    } else {
      TileKeeps(s, id, 1);
    }
  }

  /** The tiles of a state in which id may be given its tile and a new store. */
  ghost predicate ReadyFor(s: FS, id: string) {
    && (forall i :: i in s.staged && i != id ==> s.staged[i].tileRef == 0)
    && (id in s.staged ==> s.staged[id].tileRef == 1 && s.staged[id].store.None?)
  }

  lemma NewStoreKeeps(c: Config, s: FS, id: string, name: string)
    requires Inv(c, s) && ReadyFor(s, id)
    ensures Inv(c, WithNewStore(s, id, name))
  {
    var t := WithNewStore(s, id, name);
    var k := |s.stores|;
    forall fh | fh in t.handles ensures HandleOk(t, fh, t.handles[fh]) {
      assert HandleOk(s, fh, s.handles[fh]);
    }
    if id !in s.staged {
      forall fh | fh in s.handles ensures fh !in HandlesOf(s.handles, id) {
        assert HandleOk(s, fh, s.handles[fh]);
      }
      assert HandlesOf(s.handles, id) == {};
    }
    forall fh | fh in s.handles ensures fh !in HandlesOn(s.handles, k) {
      assert HandleOk(s, fh, s.handles[fh]);
    }
    assert HandlesOn(s.handles, k) == {};
    NewStoreKeepsOwnership(s, id, name);
  }

  lemma NewStoreKeepsOwnership(s: FS, id: string, name: string)
    requires OwnershipOk(s) && ReadyFor(s, id)
    ensures OwnershipOk(WithNewStore(s, id, name))
  {
    var t, k := WithNewStore(s, id, name), |s.stores|;
    assert Owns(t.staged, id, k);
    assert forall i, j :: Owns(t.staged, i, j) <==> (i == id && j == k) || Owns(s.staged, i, j);
    forall j | 0 <= j < |t.stores| && !t.stores[j].closed ensures Owned(t.staged, j) {
      if j < k {
        var o :| Owns(s.staged, o, j);
        assert Owns(t.staged, o, j);
      }
    }
  }

  lemma CreateStoreKeeps(c: Config, s: FS, id: string, name: string, env: StageEnv)
    requires Inv(c, s) && ReadyFor(s, id)
    ensures Inv(c, CreateStore(c, s, id, name, env).0)
  {
    MarkedKeeps(c, s, env.evictedBefore);
    var s1 := s.(stores := Marked(c, s.stores, env.evictedBefore));
    MarkedKeeps(c, s1, env.evictedDuring);
    var s2 := s1.(stores := Marked(c, s1.stores, env.evictedDuring));
    NewStoreKeeps(c, s2, id, name);
  }

  lemma StageClearedKeeps(c: Config, s: FS, id: string, name: string, env: StageEnv)
    requires Inv(c, s) && Cleared(s)
    ensures Inv(c, StageCleared(c, s, id, name, env).0)
  {
    if id in s.staged {
      RestagedKeeps(c, s, id);
      var again := Restaged(c, s, id);
      if again.staged[id].store.None? {
        CreateStoreKeeps(c, again, id, name, env);
      }
    } else {
      CreateStoreKeeps(c, s, id, name, env);
    }
  }

  lemma StageKeeps(c: Config, s: FS, id: string, name: string, env: StageEnv)
    requires Inv(c, s)
    ensures Inv(c, StageFile(c, s, id, name, env).0)
  {
    EvictAllClears(c, s);
    StageClearedKeeps(c, EvictAll(s, s.staged.Keys), id, name, env);
  }

  // ----- Open and Release -----

  lemma HandlesOfAdded(handles: map<nat, Handle>, fh: nat, h: Handle, id: string)
    requires fh !in handles
    ensures |HandlesOf(handles[fh := h], id)| == |HandlesOf(handles, id)| + if id == h.stagedID then 1 else 0
  {
    assert HandlesOf(handles[fh := h], id)
        == if id == h.stagedID then HandlesOf(handles, id) + {fh} else HandlesOf(handles, id);
  }

  lemma HandlesOnAdded(handles: map<nat, Handle>, fh: nat, h: Handle, k: nat)
    requires fh !in handles
    ensures |HandlesOn(handles[fh := h], k)| == |HandlesOn(handles, k)| + if k == h.store then 1 else 0
  {
    assert HandlesOn(handles[fh := h], k)
        == if k == h.store then HandlesOn(handles, k) + {fh} else HandlesOn(handles, k);
  }

  /** t has one handle more than s, and one more on both counters of its file and store. */
  ghost predicate AddsHandle(s: FS, t: FS, fh: nat, h: Handle) {
    && fh !in s.handles && t.handles == s.handles[fh := h]
    && h.stagedID in s.staged && h.store < |s.stores|
    && t.stores == s.stores[h.store := s.stores[h.store].(refCount := s.stores[h.store].refCount + 1)]
    && t.staged == s.staged[h.stagedID := s.staged[h.stagedID].(openRef := s.staged[h.stagedID].openRef + 1)]
  }

  lemma AddedCounts(s: FS, t: FS, fh: nat, h: Handle)
    requires AddsHandle(s, t, fh, h)
    ensures OpenRefsOk(s) <==> OpenRefsOk(t)
    ensures RefCountsOk(s) <==> RefCountsOk(t)
  {
    forall id | id in s.staged
      ensures t.staged[id].openRef - s.staged[id].openRef == |HandlesOf(t.handles, id)| - |HandlesOf(s.handles, id)|
    {
      HandlesOfAdded(s.handles, fh, h, id);
    }
    forall k | 0 <= k < |s.stores|
      ensures t.stores[k].refCount - s.stores[k].refCount == |HandlesOn(t.handles, k)| - |HandlesOn(s.handles, k)|
    {
      HandlesOnAdded(s.handles, fh, h, k);
    }
  }

  lemma AddedOwners(s: FS, t: FS, fh: nat, h: Handle)
    requires AddsHandle(s, t, fh, h)
    ensures s.nextFH <= t.nextFH ==> SameOwners(s, t)
    ensures t.nextFH <= s.nextFH ==> SameOwners(t, s)
    ensures TilesOk(s) <==> TilesOk(t)
  {
  }

  lemma OpenKeeps(c: Config, s: FS, id: string, name: string)
    requires Inv(c, s)
    ensures Inv(c, Open(c, s, id, name).0)
  {
    if Open(c, s, id, name).1.Opened? {
      var t, k := Open(c, s, id, name).0, s.staged[id].store.value;
      assert Owns(s.staged, id, k);
      assert s.nextFH !in s.handles by {
        assert forall g :: g in s.handles ==> HandleOk(s, g, s.handles[g]);
      }
      AddKeeps(s, t, s.nextFH, Handle(k, id));
    }
  }

  lemma AddKeeps(s: FS, t: FS, fh: nat, h: Handle)
    requires OpenRefsOk(s) && RefCountsOk(s) && HandlesOk(s) && OwnershipOk(s) && TilesOk(s)
    requires AddsHandle(s, t, fh, h) && s.nextFH <= t.nextFH && fh < t.nextFH && Owns(s.staged, h.stagedID, h.store)
    ensures OpenRefsOk(t) && RefCountsOk(t) && HandlesOk(t) && OwnershipOk(t) && TilesOk(t)
    ensures NoGarbage(s) ==> NoGarbage(t)
  {
    AddedCounts(s, t, fh, h);
    AddedOwners(s, t, fh, h);
    SameOwnersKeepOwnership(s, t);
    forall g | g in t.handles ensures HandleOk(t, g, t.handles[g]) {
      if g != fh {
        SameOwnersKeepHandle(s, t, g, s.handles[g]);
      }
    }
  }

  /** The other way round: t is s without one handle. */
  lemma RemoveKeeps(s: FS, t: FS, fh: nat, h: Handle)
    requires OpenRefsOk(s) && RefCountsOk(s) && HandlesOk(s) && OwnershipOk(s) && TilesOk(s)
    requires AddsHandle(t, s, fh, h) && t.nextFH == s.nextFH
    ensures OpenRefsOk(t) && RefCountsOk(t) && HandlesOk(t) && OwnershipOk(t) && TilesOk(t)
  {
    AddedCounts(t, s, fh, h);
    AddedOwners(t, s, fh, h);
    SameOwnersKeep(s, t);
  }

  /** Release up to the decision whether to evict. */
  function Uncounted(s: FS, fh: nat): FS
    requires fh in s.handles && s.handles[fh].store < |s.stores| && s.handles[fh].stagedID in s.staged
  {
    var h := s.handles[fh];
    var e := s.staged[h.stagedID];
    s.(handles := s.handles - {fh},
       stores := s.stores[h.store := s.stores[h.store].(refCount := s.stores[h.store].refCount - 1)],
       staged := s.staged[h.stagedID := e.(openRef := e.openRef - 1)])
  }

  lemma UncountedIsInverse(s: FS, fh: nat)
    requires fh in s.handles && s.handles[fh].store < |s.stores| && s.handles[fh].stagedID in s.staged
    ensures AddsHandle(Uncounted(s, fh), s, fh, s.handles[fh])
  {
    var t, h := Uncounted(s, fh), s.handles[fh];
    assert s.handles == t.handles[fh := h];
    assert s.staged == t.staged[h.stagedID := t.staged[h.stagedID].(openRef := t.staged[h.stagedID].openRef + 1)];
    assert s.stores == t.stores[h.store := t.stores[h.store].(refCount := t.stores[h.store].refCount + 1)];
  }

  lemma ReleaseUncounts(c: Config, s: FS, fh: nat)
    requires fh in s.handles && s.handles[fh].store < |s.stores| && s.handles[fh].stagedID in s.staged
    ensures var t := Uncounted(s, fh);
            Release(c, s, fh).0 == if c.debugSkipEviction then t else TryEvict(t, s.handles[fh].stagedID)
  {
  }

  lemma UncountedKeeps(s: FS, fh: nat)
    requires OpenRefsOk(s) && RefCountsOk(s) && HandlesOk(s) && OwnershipOk(s) && TilesOk(s) && fh in s.handles
    ensures s.handles[fh].store < |s.stores| && s.handles[fh].stagedID in s.staged
    ensures var t := Uncounted(s, fh);
            OpenRefsOk(t) && RefCountsOk(t) && HandlesOk(t) && OwnershipOk(t) && TilesOk(t)
  {
    assert HandleOk(s, fh, s.handles[fh]);
    UncountedIsInverse(s, fh);
    RemoveKeeps(s, Uncounted(s, fh), fh, s.handles[fh]);
  }

  lemma ReleaseKeeps(c: Config, s: FS, fh: nat)
    requires Inv(c, s)
    ensures Inv(c, Release(c, s, fh).0)
  {
    if fh in s.handles {
      UncountedKeeps(s, fh);
      ReleaseUncounts(c, s, fh);
      var t, id := Uncounted(s, fh), s.handles[fh].stagedID;
      if !c.debugSkipEviction && t.staged[id].tileRef == 0 && t.staged[id].openRef == 0 {
        DoEvictKeeps(c, t, id);
      }
    }
  }

  lemma ApplyKeeps(c: Config, s: FS, e: Event)
    requires Inv(c, s)
    ensures Inv(c, Apply(c, s, e))
  {
    match e
    case Stage(id, name, env) => StageKeeps(c, s, id, name, env);
    case Evict(id) => EvictKeeps(c, s, id);
    case EvictEvery => EvictAllKeeps(c, s, s.staged.Keys);
    case OpenFile(id, name) => OpenKeeps(c, s, id, name);
    case ReleaseHandle(fh) => ReleaseKeeps(c, s, fh);
  }

  lemma {:induction false} RunKeeps(c: Config, run: seq<FS>, i: nat)
    requires IsRun(c, run) && Inv(c, run[0]) && i < |run|
    ensures Inv(c, run[i])
  {
    if i > 0 {
      RunKeeps(c, run, i - 1);
      assert Step(c, run[i - 1], run[i]);
      var e :| Apply(c, run[i - 1], e) == run[i];
      ApplyKeeps(c, run[i - 1], e);
    }
  }

  lemma ReachableKeeps(c: Config, s: FS)
    requires Reachable(c, s)
    ensures Inv(c, s)
  {
    var run :| IsRun(c, run) && run[0] == Init && run[|run| - 1] == s;
    RunKeeps(c, run, |run| - 1);
  }

  // ----- main results -----

  /**
   Lifecycle counting: after any callbacks, openRef and refCount are exactly the live handles of the
   file and of the store; a live handle has an issued number and its file is still staged, so Release
   always finds it.
   */
  lemma CountsAreExact(c: Config, s: FS)
    requires Reachable(c, s)
    ensures && (forall id :: id in s.staged ==> s.staged[id].openRef == |HandlesOf(s.handles, id)|)
            && (forall k :: 0 <= k < |s.stores| ==> s.stores[k].refCount == |HandlesOn(s.handles, k)|)
            && (forall fh :: fh in s.handles ==>
                  fh < s.nextFH && s.handles[fh].stagedID in s.staged && s.handles[fh].store < |s.stores|)
  {
    ReachableKeeps(c, s);
    assert forall fh :: fh in s.handles ==> HandleOk(s, fh, s.handles[fh]);
  }

  /**
   Ownership: every store ever created is open and owned by exactly one staged file, or closed and
   owned by none; and a store under a live handle is closed only if the manager had evicted it.
   */
  lemma StoresAreConserved(c: Config, s: FS, k: nat)
    requires Reachable(c, s) && k < |s.stores|
    ensures && (s.stores[k].closed <==> !Owned(s.staged, k))
            && (forall i, j :: Owns(s.staged, i, k) && Owns(s.staged, j, k) ==> i == j)
            && (HandlesOn(s.handles, k) != {} && s.stores[k].closed ==> s.stores[k].evicted)
  {
    ReachableKeeps(c, s);
    if HandlesOn(s.handles, k) != {} {
      var fh :| fh in HandlesOn(s.handles, k);
      assert HandleOk(s, fh, s.handles[fh]);
    }
  }

  /** Once every tile is cleared and every handle released, nothing is staged and every store is closed. */
  lemma NothingLeaks(c: Config, s: FS)
    requires Reachable(c, s) && !c.debugSkipEviction
    requires s.handles == map[] && forall id :: id in s.staged ==> s.staged[id].tileRef == 0
    ensures s.staged == map[] && forall k :: 0 <= k < |s.stores| ==> s.stores[k].closed
  {
    ReachableKeeps(c, s);
    forall id | id in s.staged ensures s.staged[id].openRef == 0 {
      assert HandlesOf(s.handles, id) == {};
    }
    assert s.staged == map[];
    assert forall k: nat :: !Owned(s.staged, k);
  }

  /**
   One tile: at most one staged file is visible. No garbage: with eviction on Release enabled, what is
   staged is visible or open, also after a StageFile that failed.
   */
  lemma SingleTileNoGarbage(c: Config, s: FS)
    requires Reachable(c, s)
    ensures && (forall i, j :: i in s.staged && j in s.staged && s.staged[i].tileRef == 1 && s.staged[j].tileRef == 1
                  ==> i == j)
            && (!c.debugSkipEviction ==>
                  forall id :: id in s.staged ==> s.staged[id].tileRef == 1 || s.staged[id].openRef > 0)
  {
    ReachableKeeps(c, s);
  }

  /** Even with eviction on Release skipped, the next StageFile sweeps what was left behind. */
  lemma StagingSweeps(c: Config, s: FS, id: string, name: string, env: StageEnv)
    requires Reachable(c, s)
    ensures NoGarbage(StageFile(c, s, id, name, env).0)
  {
    ReachableKeeps(c, s);
    EvictAllClears(c, s);
    var cleared, d := EvictAll(s, s.staged.Keys), c.(debugSkipEviction := false);
    StageClearedKeeps(d, cleared, id, name, env);
    SkipDoesNotMatter(c, d, cleared, id, name, env);
  }

  lemma SkipDoesNotMatter(c: Config, d: Config, s: FS, id: string, name: string, env: StageEnv)
    requires c.tempFiles == d.tempFiles
    ensures StageCleared(c, s, id, name, env) == StageCleared(d, s, id, name, env)
  {
  }

  /** Numbers only grow, and a handle that is live in t and was not in s has a number not issued in s. */
  ghost predicate NewNumbers(s: FS, t: FS) {
    s.nextFH <= t.nextFH && forall fh :: fh in t.handles && fh !in s.handles ==> s.nextFH <= fh
  }

  lemma {:induction false} NumbersAlong(run: seq<FS>, i: nat, j: nat)
    requires i <= j < |run| && forall k :: 0 < k < |run| ==> NewNumbers(run[k - 1], run[k])
    ensures NewNumbers(run[i], run[j])
    decreases j
  {
    if i < j {
      NumbersAlong(run, i, j - 1);
      assert NewNumbers(run[j - 1], run[j]);
    }
  }

  lemma StepNumbers(c: Config, s: FS, t: FS)
    requires Step(c, s, t)
    ensures NewNumbers(s, t)
  {
    var e :| Apply(c, s, e) == t;
    match e
    case Stage(id, name, env) => StagingIssuesNothing(c, s, id, name, env);
    case Evict(id) =>
    case EvictEvery =>
    case OpenFile(id, name) => OpenIssuesNext(c, s, id, name);
    case ReleaseHandle(fh) => ReleaseIssuesNothing(c, s, fh);
  }

  lemma StagingIssuesNothing(c: Config, s: FS, id: string, name: string, env: StageEnv)
    ensures var t := StageFile(c, s, id, name, env).0; t.handles == s.handles && t.nextFH == s.nextFH
  {
  }

  lemma OpenIssuesNext(c: Config, s: FS, id: string, name: string)
    ensures NewNumbers(s, Open(c, s, id, name).0)
  {
  }

  lemma ReleaseIssuesNothing(c: Config, s: FS, fh: nat)
    ensures NewNumbers(s, Release(c, s, fh).0)
  {
  }

  /** Between two states of a run, a handle that was not live before has a number not issued before. */
  lemma HandlesNeverReused(c: Config, run: seq<FS>, i: nat, j: nat)
    requires IsRun(c, run) && i <= j < |run|
    ensures NewNumbers(run[i], run[j])
  {
    forall k | 0 < k < |run| ensures NewNumbers(run[k - 1], run[k]) {
      StepNumbers(c, run[k - 1], run[k]);
    }
    NumbersAlong(run, i, j);
  }
}
