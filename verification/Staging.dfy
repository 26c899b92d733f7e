/**
 The staging lifecycle of fuseFS: tile and open references, the handle table and the stores behind
 them. Each callback is one step. This module defines the steps as functions on a value; FuseFS.dfy
 proves the class against them, StagingInvariants.dfy proves what every run keeps.
 */
module Staging {
  import opened Common

  /** A staged file. store is None once an evicted store was closed and no new one could be made. */
  datatype Entry = Entry(fileName: string, store: Option<nat>, tileRef: int, openRef: int)

  /** A backing store, known by its creation number. */
  datatype Store = Store(refCount: int, closed: bool, evicted: bool)

  datatype Handle = Handle(store: nat, stagedID: string)

  datatype FS = FS(staged: map<string, Entry>, stores: seq<Store>, handles: map<nat, Handle>, nextFH: nat)

  /** tempFiles: stores are TempFileStores, which the temp file manager may evict. */
  datatype Config = Config(tempFiles: bool, debugSkipEviction: bool)

  const Init := FS(map[], [], map[], 1)

  // ----- eviction -----

  function Closed(stores: seq<Store>, k: Option<nat>): seq<Store> {
    if k.Some? && k.value < |stores| then stores[k.value := stores[k.value].(closed := true)] else stores
  }

  function DoEvict(s: FS, id: string): FS {
    if id !in s.staged then s
    else s.(stores := Closed(s.stores, s.staged[id].store), staged := s.staged - {id})
  }

  function TryEvict(s: FS, id: string): FS {
    if id in s.staged && s.staged[id].tileRef == 0 && s.staged[id].openRef == 0 then DoEvict(s, id) else s
  }

  /** Clears the tile of one file and evicts it unless it is open. */
  function EvictStagedFile(s: FS, id: string): FS {
    if id !in s.staged then s
    else TryEvict(s.(staged := s.staged[id := s.staged[id].(tileRef := 0)]), id)
  }

  /** The files of ids that nobody has open. */
  predicate Dropped(s: FS, ids: set<string>, id: string) {
    id in s.staged && id in ids && s.staged[id].openRef == 0
  }

  /** What clearing the tiles of ids amounts to, in whatever order the map is walked. */
  function EvictAll(s: FS, ids: set<string>): FS {
    s.(staged := map id | id in s.staged && !Dropped(s, ids, id) ::
                   if id in ids then s.staged[id].(tileRef := 0) else s.staged[id],
       stores := seq(|s.stores|, (k: int) requires 0 <= k < |s.stores| =>
                   if exists id :: id in s.staged && Dropped(s, ids, id) && s.staged[id].store == Some(k)
                   then s.stores[k].(closed := true) else s.stores[k]))
  }

  /** Walking the map one file at a time gives the set form, whatever the order. */
  lemma EvictAllStep(s: FS, ids: set<string>, id: string)
    requires id !in ids
    ensures EvictAll(s, ids + {id}) == EvictStagedFile(EvictAll(s, ids), id)
  {
    var a, b := EvictAll(s, ids + {id}), EvictStagedFile(EvictAll(s, ids), id);
    assert a.staged == b.staged;
    forall k | 0 <= k < |s.stores| ensures a.stores[k] == b.stores[k] {
      assert Dropped(s, ids + {id}, id) <==> id in s.staged && s.staged[id].openRef == 0;
      forall o ensures Dropped(s, ids + {id}, o) <==> Dropped(s, ids, o) || (o == id && Dropped(s, {id}, id)) {
      }
    }
    assert a.stores == b.stores;
  }

  lemma EvictAllMore(s: FS, ids: set<string>)
    requires s.staged.Keys <= ids
    ensures EvictAll(s, ids) == EvictAll(s, s.staged.Keys)
  {
    assert forall id :: Dropped(s, ids, id) <==> Dropped(s, s.staged.Keys, id);
    assert EvictAll(s, ids).staged == EvictAll(s, s.staged.Keys).staged;
    assert EvictAll(s, ids).stores == EvictAll(s, s.staged.Keys).stores;
  }

  lemma EvictNone(s: FS)
    ensures EvictAll(s, {}) == s
  {
    assert EvictAll(s, {}).staged == s.staged;
    assert EvictAll(s, {}).stores == s.stores;
  }

  // ----- StageFile -----

  /** What the outside world does during StageFile: manager evictions and failures. */
  datatype StageEnv = StageEnv(
    evictedBefore: set<nat>,    // stores whose files the space check evicts
    spaceOk: bool,
    urlOk: bool,
    evictedDuring: set<nat>,    // stores whose files the constructor's own space check evicts
    storeOk: bool)

  /** The manager's callbacks mark the stores whose files it removes; a closed store is not tracked. */
  function Marked(c: Config, stores: seq<Store>, ks: set<nat>): (r: seq<Store>)
    ensures |r| == |stores|
  {
    if !c.tempFiles then stores
    else seq(|stores|, (k: int) requires 0 <= k < |stores| =>
               if k in ks && !stores[k].closed then stores[k].(evicted := true) else stores[k])
  }

  function Below(ks: set<nat>, n: nat): set<nat> {
    set k | k in ks && k < n
  }

  /** Calling the callbacks one store at a time. */
  lemma MarkedStep(c: Config, stores: seq<Store>, ks: set<nat>, n: nat)
    requires n < |stores| && c.tempFiles
    ensures Marked(c, stores, Below(ks, n))[n] == stores[n]
    ensures Marked(c, stores, Below(ks, n + 1)) ==
              if n in ks && !stores[n].closed
              then Marked(c, stores, Below(ks, n))[n := stores[n].(evicted := true)]
              else Marked(c, stores, Below(ks, n))
  {
  }

  lemma MarkedAll(c: Config, stores: seq<Store>, ks: set<nat>)
    ensures Marked(c, stores, Below(ks, 0)) == stores
    ensures Marked(c, stores, Below(ks, |stores|)) == Marked(c, stores, ks)
  {
  }

  predicate StoreEvicted(c: Config, stores: seq<Store>, k: nat) {
    c.tempFiles && k < |stores| && stores[k].evicted
  }

  /** A file that is still staged gets its tile back, and loses its store if the manager evicted it. */
  function Restaged(c: Config, s: FS, id: string): FS
    requires id in s.staged
  {
    var e := s.staged[id];
    if e.store.Some? && StoreEvicted(c, s.stores, e.store.value) then
      s.(stores := Closed(s.stores, e.store), staged := s.staged[id := e.(store := None, tileRef := 1)])
    else s.(staged := s.staged[id := e.(tileRef := 1)])
  }

  /** Attaches a newly created store to the entry of id, which is made if there is none. */
  function WithNewStore(s: FS, id: string, name: string): FS {
    var k := |s.stores|;
    var e := if id in s.staged then s.staged[id].(store := Some(k)) else Entry(name, Some(k), 1, 0);
    s.(stores := s.stores + [Store(0, false, false)], staged := s.staged[id := e])
  }

  /** Space check, URL, store creation: each may fail and leaves what was done before. */
  function CreateStore(c: Config, s: FS, id: string, name: string, env: StageEnv): (r: (FS, bool)) {
    var s1 := s.(stores := Marked(c, s.stores, env.evictedBefore));
    if c.tempFiles && !env.spaceOk then (s1, false)
    else if !env.urlOk then (s1, false)
    else
      var s2 := s1.(stores := Marked(c, s1.stores, env.evictedDuring));
      if !env.storeOk then (s2, false) else (WithNewStore(s2, id, name), true)
  }

  /** StageFile once the tiles of all files are cleared and the unused files are gone. */
  function StageCleared(c: Config, cleared: FS, id: string, name: string, env: StageEnv): (FS, bool) {
    if id in cleared.staged then
      var again := Restaged(c, cleared, id);
      if again.staged[id].store.Some? then (again, true) else CreateStore(c, again, id, name, env)
    else CreateStore(c, cleared, id, name, env)
  }

  function StageFile(c: Config, s: FS, id: string, name: string, env: StageEnv): (FS, bool) {
    StageCleared(c, EvictAll(s, s.staged.Keys), id, name, env)
  }

  // ----- Open and Release -----

  datatype OpenResult = NoEntry | IOError | Opened(fh: nat)

  function Open(c: Config, s: FS, id: string, name: string): (FS, OpenResult) {
    if id !in s.staged || s.staged[id].fileName != name then (s, NoEntry)
    else
      var e := s.staged[id];
      if e.store.None? || e.store.value >= |s.stores| || StoreEvicted(c, s.stores, e.store.value) then (s, IOError)
      else
        var k := e.store.value;
        (FS(s.staged[id := e.(openRef := e.openRef + 1)],
            s.stores[k := s.stores[k].(refCount := s.stores[k].refCount + 1)],
            s.handles[s.nextFH := Handle(k, id)],
            s.nextFH + 1),
         Opened(s.nextFH))
  }

  function Release(c: Config, s: FS, fh: nat): (FS, bool) {
    if fh !in s.handles || s.handles[fh].store >= |s.stores| then (s, false)
    else
      var h := s.handles[fh];
      var s1 := s.(handles := s.handles - {fh},
                   stores := s.stores[h.store := s.stores[h.store].(refCount := s.stores[h.store].refCount - 1)]);
      if h.stagedID !in s1.staged then (s1, true)
      else
        var e := s1.staged[h.stagedID];
        var s2 := s1.(staged := s1.staged[h.stagedID := e.(openRef := e.openRef - 1)]);
        if c.debugSkipEviction then (s2, true) else (TryEvict(s2, h.stagedID), true)
  }

  // ----- the same steps as sequences of single writes -----

  function WithTile(s: FS, id: string, tile: int): FS
    requires id in s.staged
  {
    s.(staged := s.staged[id := s.staged[id].(tileRef := tile)])
  }

  function WithOpenRef(s: FS, id: string, count: int): FS
    requires id in s.staged
  {
    s.(staged := s.staged[id := s.staged[id].(openRef := count)])
  }

  function WithStore(s: FS, id: string, k: Option<nat>): FS
    requires id in s.staged
  {
    s.(staged := s.staged[id := s.staged[id].(store := k)])
  }

  function WithRefs(s: FS, k: nat, delta: int): FS
    requires k < |s.stores|
  {
    s.(stores := s.stores[k := s.stores[k].(refCount := s.stores[k].refCount + delta)])
  }

  function WithHandle(s: FS, k: nat, id: string): FS {
    s.(handles := s.handles[s.nextFH := Handle(k, id)], nextFH := s.nextFH + 1)
  }

  function WithoutHandle(s: FS, fh: nat): FS {
    s.(handles := s.handles - {fh})
  }

  lemma RestagedInSteps(c: Config, s: FS, id: string)
    requires id in s.staged
    ensures var k := s.staged[id].store;
            Restaged(c, s, id) ==
              if k.Some? && StoreEvicted(c, s.stores, k.value)
              then WithTile(WithStore(s.(stores := Closed(s.stores, k)), id, None), id, 1)
              else WithTile(s, id, 1)
  {
    var e := s.staged[id];
    assert s.staged[id := e.(store := None)][id := e.(store := None, tileRef := 1)]
        == s.staged[id := e.(store := None, tileRef := 1)];
  }

  lemma OpenInSteps(c: Config, s: FS, id: string, name: string, k: nat)
    requires id in s.staged && s.staged[id].fileName == name && s.staged[id].store == Some(k)
    requires k < |s.stores| && !StoreEvicted(c, s.stores, k)
    ensures Open(c, s, id, name) ==
              (WithHandle(WithRefs(WithOpenRef(s, id, s.staged[id].openRef + 1), k, 1), k, id), Opened(s.nextFH))
  {
  }

  lemma ReleaseInSteps(c: Config, s: FS, fh: nat, s1: FS, s2: FS, s3: FS)
    requires fh in s.handles && s.handles[fh].store < |s.stores| && s.handles[fh].stagedID in s.staged
    requires var k, id := s.handles[fh].store, s.handles[fh].stagedID;
             && s1 == WithoutHandle(s, fh) && s2 == WithRefs(s1, k, -1)
             && s3 == Unreferenced(c, s2, id)
    ensures Release(c, s, fh) == (s3, true)
  {
  }

  lemma ReleaseUnstaged(c: Config, s: FS, fh: nat, s1: FS, s2: FS)
    requires fh in s.handles && s.handles[fh].store < |s.stores| && s.handles[fh].stagedID !in s.staged
    requires s1 == WithoutHandle(s, fh) && s2 == WithRefs(s1, s.handles[fh].store, -1)
    ensures Release(c, s, fh) == (s2, true)
  {
  }

  /** One open reference less; the last one evicts a file without a tile. */
  function Unreferenced(c: Config, s: FS, id: string): FS
    requires id in s.staged
  {
    var t := WithOpenRef(s, id, s.staged[id].openRef - 1);
    if c.debugSkipEviction then t else TryEvict(t, id)
  }

  // ----- runs -----

  datatype Event =
    | Stage(id: string, name: string, env: StageEnv)
    | Evict(id: string)
    | EvictEvery
    | OpenFile(id: string, name: string)
    | ReleaseHandle(fh: nat)

  function Apply(c: Config, s: FS, e: Event): FS {
    match e
    case Stage(id, name, env) => StageFile(c, s, id, name, env).0
    case Evict(id) => EvictStagedFile(s, id)
    case EvictEvery => EvictAll(s, s.staged.Keys)
    case OpenFile(id, name) => Open(c, s, id, name).0
    case ReleaseHandle(fh) => Release(c, s, fh).0
  }

  ghost predicate Step(c: Config, s: FS, t: FS) {
    exists e :: Apply(c, s, e) == t
  }

  /** Each state comes from the one before by one callback. */
  ghost predicate IsRun(c: Config, run: seq<FS>) {
    run != [] && forall i :: 0 < i < |run| ==> Step(c, run[i - 1], run[i])
  }

  /** Some sequence of callbacks leads from the empty file system to s. */
  ghost predicate Reachable(c: Config, s: FS) {
    exists run :: IsRun(c, run) && run[0] == Init && run[|run| - 1] == s
  }
}
