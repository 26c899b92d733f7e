/**
 The staging part of fuseFS with its mutable objects: staged files and backing stores are shared by
 reference between the registry and the handle table. Every callback is proved to do exactly the step
 of module Staging.
 */
module FuseFSModel {
  import opened Common
  import opened Staging

  /** The lifecycle of a backing store; number is its place among the stores ever created. */
  class BackingStore {
    const number: nat
    var refCount: int
    var closed: bool
    var evicted: bool

    constructor (number: nat)
      ensures this.number == number && refCount == 0 && !closed && !evicted
    {
      this.number := number;
      refCount, closed, evicted := 0, false, false;
    }

    ghost function Value(): Store
      reads this
    {
      Store(refCount, closed, evicted)
    }
  }

  class StagedFileFuse {
    const id: string
    const fileName: string
    var store: BackingStore?
    var tileRef: int
    var openRef: int

    constructor (id: string, fileName: string, store: BackingStore)
      ensures this.id == id && this.fileName == fileName && this.store == store && tileRef == 1 && openRef == 0
    {
      this.id, this.fileName, this.store := id, fileName, store;
      tileRef, openRef := 1, 0;
    }

    ghost function Value(): Entry
      reads this
    {
      Entry(fileName, if store == null then None else Some(store.number), tileRef, openRef)
    }
  }

  ghost function ValuesOf(stores: seq<BackingStore>): seq<Store>
    reads stores
  {
    seq(|stores|, (k: int) requires 0 <= k < |stores| reads stores => stores[k].Value())
  }

  /** The handle table, with stores replaced by their numbers. */
  ghost function Table(stores: map<nat, BackingStore>, ids: map<nat, string>): map<nat, Handle>
    requires stores.Keys == ids.Keys
  {
    map fh | fh in stores :: Handle(stores[fh].number, ids[fh])
  }

  lemma TableWith(stores: map<nat, BackingStore>, ids: map<nat, string>, fh: nat, b: BackingStore, id: string)
    requires stores.Keys == ids.Keys
    ensures stores[fh := b].Keys == ids[fh := id].Keys
    ensures Table(stores[fh := b], ids[fh := id]) == Table(stores, ids)[fh := Handle(b.number, id)]
  {
  }

  lemma TableWithout(stores: map<nat, BackingStore>, ids: map<nat, string>, fh: nat)
    requires stores.Keys == ids.Keys
    ensures (stores - {fh}).Keys == (ids - {fh}).Keys
    ensures Table(stores - {fh}, ids - {fh}) == Table(stores, ids) - {fh}
  {
  }

  class FuseFS {
    const config: Config
    var stagedFiles: map<string, StagedFileFuse>
    var fhToStore: map<nat, BackingStore>
    var fhToPath: map<nat, string>
    var fhToStagedID: map<nat, string>
    var nextFH: nat
    ghost var files: set<StagedFileFuse>    // every staged file object there has been
    var created: seq<BackingStore>          // the stores, which the temp file manager reaches through its callbacks

    ghost predicate Valid()
      reads this, files
    {
      StoresOk() && FilesOk() && TableOk()
    }

    ghost predicate StoresOk()
      reads this`created
    {
      forall k :: 0 <= k < |created| ==> created[k].number == k
    }

    ghost predicate FilesOk()
      reads this`stagedFiles, this`files, this`created, files
    {
      forall id :: id in stagedFiles ==>
        stagedFiles[id] in files && stagedFiles[id].id == id && Known(stagedFiles[id].store)
    }

    ghost predicate TableOk()
      reads this`fhToStore, this`fhToPath, this`fhToStagedID, this`created
    {
      fhToStore.Keys == fhToPath.Keys == fhToStagedID.Keys && forall fh :: fh in fhToStore ==> Known(fhToStore[fh])
    }

    ghost predicate Known(b: BackingStore?)
      reads this`created
    {
      b == null || (b.number < |created| && created[b.number] == b)
    }

    ghost function Entries(): map<string, Entry>
      requires FilesOk()
      reads this`stagedFiles, this`files, this`created, files
    {
      map id | id in stagedFiles :: stagedFiles[id].Value()
    }

    ghost function Stores(): seq<Store>
      reads this`created, created
    {
      ValuesOf(created)
    }

    ghost function Handles(): map<nat, Handle>
      requires TableOk()
      reads this`fhToStore, this`fhToPath, this`fhToStagedID, this`created
    {
      Table(fhToStore, fhToStagedID)
    }

    ghost function State(): FS
      requires Valid()
      reads this, files, created
    {
      FS(Entries(), Stores(), Handles(), nextFH)
    }

    constructor (config: Config)
      ensures Valid() && State() == Init && this.config == config
      ensures fresh(this)
    {
      this.config := config;
      stagedFiles, fhToStore, fhToPath, fhToStagedID, nextFH, created := map[], map[], map[], map[], 1, [];
      files := {};
    }

    // ----- single writes and what they do to the state -----

    method SetTile(id: string, tile: int)
      requires Valid() && id in stagedFiles
      modifies stagedFiles[id]
      ensures stagedFiles[id].store == old(stagedFiles[id].store)
      ensures Valid() && State() == WithTile(old(State()), id, tile)
    {
      var sff := stagedFiles[id];
      assert forall i :: i in stagedFiles && stagedFiles[i] == sff ==> i == id;
      sff.tileRef := tile;
      assert Entries() == old(Entries())[id := old(Entries())[id].(tileRef := tile)];
    }

    method SetOpen(id: string, count: int)
      requires Valid() && id in stagedFiles
      modifies stagedFiles[id]
      ensures stagedFiles[id].store == old(stagedFiles[id].store)
      ensures Valid() && State() == WithOpenRef(old(State()), id, count)
    {
      var sff := stagedFiles[id];
      assert forall i :: i in stagedFiles && stagedFiles[i] == sff ==> i == id;
      sff.openRef := count;
      assert Entries() == old(Entries())[id := old(Entries())[id].(openRef := count)];
    }

    method SetStore(id: string, b: BackingStore?)
      requires Valid() && id in stagedFiles && Known(b)
      modifies stagedFiles[id]
      ensures Valid() && State() == WithStore(old(State()), id, if b == null then None else Some(b.number))
    {
      var sff := stagedFiles[id];
      assert forall i :: i in stagedFiles && stagedFiles[i] == sff ==> i == id;
      sff.store := b;
      assert Entries() ==
             old(Entries())[id := old(Entries())[id].(store := if b == null then None else Some(b.number))];
    }

    method CloseStore(b: BackingStore)
      requires Valid() && Known(b)
      modifies b`closed
      ensures Valid() && State() == old(State()).(stores := Closed(old(State()).stores, Some(b.number)))
    {
      b.closed := true;
    }

    method AddRef(b: BackingStore, delta: int)
      requires Valid() && Known(b)
      modifies b`refCount
      ensures Valid() && State() == WithRefs(old(State()), b.number, delta)
    {
      b.refCount := b.refCount + delta;
    }

    // ----- eviction -----

    /** Closes the store and removes the entry. Caller holds fs.mu. */
    method DoEvictLocked(id: string)
      requires Valid()
      modifies this`stagedFiles, files, created
      ensures Valid() && State() == DoEvict(old(State()), id)
      ensures stagedFiles == old(stagedFiles) - {id}
    {
      ghost var before := State();
      if id in stagedFiles {
        var sff := stagedFiles[id];
        assert before.staged[id] == sff.Value();
        if sff.store != null {
          CloseStore(sff.store);
          SetStore(id, null);
        }
        ghost var detached := State();
        assert detached.staged - {id} == before.staged - {id};
      }
      DeleteEntry(id);
      if id !in before.staged {
        assert before.staged - {id} == before.staged;
      }
    }

    method DeleteEntry(id: string)
      requires Valid()
      modifies this`stagedFiles
      ensures Valid() && State() == old(State()).(staged := old(State()).staged - {id})
      ensures stagedFiles == old(stagedFiles) - {id}
    {
      stagedFiles := stagedFiles - {id};
    }

    method TryEvictLocked(id: string)
      requires Valid()
      modifies this`stagedFiles, files, created
      ensures Valid() && State() == TryEvict(old(State()), id)
    {
      if id in stagedFiles {
        assert State().staged[id] == stagedFiles[id].Value();
        if stagedFiles[id].tileRef == 0 && stagedFiles[id].openRef == 0 {
          DoEvictLocked(id);
        }
      }
    }

    method EvictStaged(id: string)
      requires Valid()
      modifies this`stagedFiles, files, created
      ensures Valid() && State() == EvictStagedFile(old(State()), id)
    {
      if id in stagedFiles {
        SetTile(id, 0);
        TryEvictLocked(id);
      }
    }

    /** Walks the registry in no particular order, clearing every tile. */
    method EvictAllStagedFiles()
      requires Valid()
      modifies this`stagedFiles, files, created
      ensures Valid() && State() == EvictAll(old(State()), old(State()).staged.Keys)
    {
      ghost var start, done := State(), {};
      var ids := stagedFiles.Keys;
      EvictNone(start);
      while ids != {}
        invariant Valid() && ids == start.staged.Keys - done
        invariant State() == EvictAll(start, done)
        decreases ids
      {
        var id :| id in ids;
        OneLess(start.staged.Keys, done, ids, id);
        ids := ids - {id};
        EvictAllStep(start, done, id);
        done := done + {id};
        EvictStaged(id);
      }
      EvictAllMore(start, done);
    }

    // ----- StageFile -----

    /** The manager frees space: it calls back the stores of the files it removes. */
    method EnsureSpaceAvailable(evicted: set<nat>)
      requires Valid()
      modifies created
      ensures Valid() && State() == old(State()).(stores := Marked(config, old(State()).stores, evicted))
    {
      if !config.tempFiles {
        return;
      }
      ghost var before := State();
      MarkedAll(config, before.stores, evicted);
      var k := 0;
      while k < |created|
        invariant k <= |created| == |before.stores| && Valid()
        invariant State() == before.(stores := Marked(config, before.stores, Below(evicted, k)))
      {
        MarkedStep(config, before.stores, evicted, k);
        assert State().stores[k] == created[k].Value();
        if k in evicted && !created[k].closed {
          OnEvict(k);
        }
        k := k + 1;
      }
    }

    /** The callback that NewTempFileStore registers with the manager. */
    method OnEvict(k: nat)
      requires Valid() && k < |created|
      modifies created[k]
      ensures Valid() && created[k].closed == old(created[k].closed)
      ensures State() == old(State()).(stores := old(State()).stores[k := old(State()).stores[k].(evicted := true)])
    {
      created[k].evicted := true;
    }

    method NewBackingStore() returns (b: BackingStore)
      requires Valid()
      modifies this`created
      ensures Valid() && fresh(b) && Known(b) && b.number == |old(created)|
      ensures State() == old(State()).(stores := old(State()).stores + [Store(0, false, false)])
      ensures created == old(created) + [b]
    {
      ghost var before := State();
      b := new BackingStore(|created|);
      created := created + [b];
      assert State().stores == before.stores + [Store(0, false, false)];
    }

    method AddEntry(id: string, name: string, b: BackingStore)
      requires Valid() && id !in stagedFiles && Known(b)
      modifies this`stagedFiles, this`files
      ensures Valid() && files >= old(files) && fresh(files - old(files))
      ensures State() == old(State()).(staged := old(State()).staged[id := Entry(name, Some(b.number), 1, 0)])
    {
      var sff := new StagedFileFuse(id, name, b);
      Insert(sff);
    }

    method Insert(sff: StagedFileFuse)
      requires Valid() && sff.id !in stagedFiles && Known(sff.store)
      modifies this`stagedFiles, this`files
      ensures Valid() && files == old(files) + {sff}
      ensures State() == old(State()).(staged := old(State()).staged[sff.id := sff.Value()])
    {
      ghost var before := State();
      files := files + {sff};
      stagedFiles := stagedFiles[sff.id := sff];
      assert Entries() == before.staged[sff.id := sff.Value()];
    }

    /** A file that is still staged: its store is closed and dropped if the manager evicted it. */
    method Restage(id: string) returns (storeValid: bool)
      requires Valid() && id in stagedFiles
      modifies files, created
      ensures Valid() && State() == Restaged(config, old(State()), id)
      ensures storeValid <==> State().staged[id].store.Some?
    {
      ghost var before := State();
      var existingSff := stagedFiles[id];
      assert before.staged[id] == existingSff.Value();
      var store := existingSff.store;
      storeValid := store != null;
      if store != null {
        assert before.stores[store.number] == store.Value();
        if config.tempFiles && store.evicted {
          CloseStore(store);
          SetStore(id, null);
          storeValid := false;
        }
      }
      SetTile(id, 1);
      RestagedInSteps(config, before, id);
    }

    /** From the space check to the new store in the registry; each step may fail. */
    method MakeStore(id: string, name: string, env: StageEnv) returns (ok: bool)
      requires Valid() && (id in stagedFiles ==> stagedFiles[id].store == null)
      modifies this`stagedFiles, this`created, this`files, files, created
      ensures Valid() && (State(), ok) == CreateStore(config, old(State()), id, name, env)
      ensures files >= old(files) && fresh(files - old(files))
    {
      EnsureSpaceAvailable(env.evictedBefore);
      if config.tempFiles && !env.spaceOk {
        return false;
      }
      if !env.urlOk {
        return false;
      }
      EnsureSpaceAvailable(env.evictedDuring);
      if !env.storeOk {
        return false;
      }
      var b := NewBackingStore();
      if id in stagedFiles {
        if stagedFiles[id].store != null {
          assert false;  // another caller made a store meanwhile: not within one callback
        }
        SetStore(id, b);
      } else {
        AddEntry(id, name, b);
      }
      return true;
    }

    method StageFileCallback(id: string, name: string, env: StageEnv) returns (ok: bool)
      requires Valid()
      modifies this`stagedFiles, this`created, this`files, files, created
      ensures Valid() && (State(), ok) == StageFile(config, old(State()), id, name, env)
      ensures files >= old(files) && fresh(files - old(files))
    {
      EvictAllStagedFiles();
      if id in stagedFiles {
        var storeValid := Restage(id);
        assert State().staged[id] == stagedFiles[id].Value();
        if storeValid {
          return true;
        }
      }
      ok := MakeStore(id, name, env);
    }

    // ----- Open and Release -----

    method RegisterHandle(b: BackingStore, id: string, path: string) returns (fh: nat)
      requires Valid() && Known(b)
      modifies this`nextFH, this`fhToStore, this`fhToPath, this`fhToStagedID
      ensures Valid() && fh == old(nextFH) && fhToPath == old(fhToPath)[fh := path]
      ensures State() == WithHandle(old(State()), b.number, id)
    {
      fh := nextFH;
      PutHandle(fh, b, id, path);
      nextFH := nextFH + 1;
    }

    method PutHandle(fh: nat, b: BackingStore, id: string, path: string)
      requires Valid() && Known(b)
      modifies this`fhToStore, this`fhToPath, this`fhToStagedID
      ensures Valid() && fhToPath == old(fhToPath)[fh := path]
      ensures State() == old(State()).(handles := old(State()).handles[fh := Handle(b.number, id)])
    {
      TableWith(fhToStore, fhToStagedID, fh, b, id);
      fhToStore := fhToStore[fh := b];
      fhToPath := fhToPath[fh := path];
      fhToStagedID := fhToStagedID[fh := id];
      assert fhToPath.Keys == fhToStore.Keys;
      assert Entries() == old(Entries()) && Stores() == old(Stores());
    }

    method OpenCallback(id: string, name: string) returns (r: OpenResult)
      requires Valid()
      modifies this`nextFH, this`fhToStore, this`fhToPath, this`fhToStagedID, files, created
      ensures Valid() && (State(), r) == Open(config, old(State()), id, name)
    {
      ghost var before := State();
      if id !in stagedFiles {
        return NoEntry;
      }
      var sf := stagedFiles[id];
      assert before.staged[id] == sf.Value();
      if sf.fileName != name {
        return NoEntry;
      }
      var store := sf.store;
      if store == null {
        return IOError;
      }
      assert before.stores[store.number] == store.Value();
      if config.tempFiles && store.evicted {
        return IOError;
      }
      var fh := AcquireHandle(id, name, store, sf.openRef + 1);
      OpenInSteps(config, before, id, name, store.number);
      r := Opened(fh);
    }

    /** The store is usable: both counters go up and a fresh handle is issued. */
    method AcquireHandle(id: string, name: string, store: BackingStore, newOpenRef: int) returns (fh: nat)
      requires Valid() && id in stagedFiles && Known(store)
      modifies this`nextFH, this`fhToStore, this`fhToPath, this`fhToStagedID, files, created
      ensures Valid() && fh == old(nextFH)
      ensures State() ==
                WithHandle(WithRefs(WithOpenRef(old(State()), id, newOpenRef), store.number, 1), store.number, id)
    {
      CountOpen(id, store, newOpenRef);
      fh := RegisterHandle(store, id, name);
    }

    method CountOpen(id: string, store: BackingStore, newOpenRef: int)
      requires Valid() && id in stagedFiles && Known(store)
      modifies files, created
      ensures Valid() && State() == WithRefs(WithOpenRef(old(State()), id, newOpenRef), store.number, 1)
    {
      SetOpen(id, newOpenRef);
      AddRef(store, 1);
    }

    method UnregisterHandle(fh: nat)
      requires Valid()
      modifies this`fhToStore, this`fhToPath, this`fhToStagedID
      ensures Valid() && State() == WithoutHandle(old(State()), fh)
    {
      TableWithout(fhToStore, fhToStagedID, fh);
      fhToStore := fhToStore - {fh};
      fhToPath := fhToPath - {fh};
      fhToStagedID := fhToStagedID - {fh};
      assert fhToPath.Keys == fhToStore.Keys;
      assert Entries() == old(Entries()) && Stores() == old(Stores());
    }

    method ReleaseCallback(fh: nat) returns (ok: bool)
      requires Valid()
      modifies this`stagedFiles, this`fhToStore, this`fhToPath, this`fhToStagedID, files, created
      ensures Valid() && (State(), ok) == Release(config, old(State()), fh)
    {
      ghost var before := State();
      if fh !in fhToStore {
        UnregisterHandle(fh);
        assert before.handles - {fh} == before.handles;
        return false;
      }
      var store, stagedID := fhToStore[fh], fhToStagedID[fh];
      assert before.handles[fh] == Handle(store.number, stagedID);
      UnregisterHandle(fh);
      ghost var s1 := State();
      AddRef(store, -1);
      ghost var s2 := State();
      if stagedID in stagedFiles {
        FileReleased(stagedID);
        ReleaseInSteps(config, before, fh, s1, s2, State());
      } else {
        ReleaseUnstaged(config, before, fh, s1, s2);
      }
      return true;
    }

    method FileReleased(stagedID: string)
      requires Valid() && stagedID in stagedFiles
      modifies this`stagedFiles, files, created
      ensures Valid() && State() == Unreferenced(config, old(State()), stagedID)
    {
      var sff := stagedFiles[stagedID];
      assert State().staged[stagedID] == sff.Value();
      SetOpen(stagedID, sff.openRef - 1);
      assert State().staged[stagedID] == sff.Value();
      if sff.tileRef == 0 && sff.openRef == 0 && !config.debugSkipEviction {
        TryEvictLocked(stagedID);
      }
    }
  }

  lemma OneLess(keys: set<string>, done: set<string>, ids: set<string>, id: string)
    requires ids == keys - done && id in ids
    ensures ids - {id} == keys - (done + {id}) && id !in done
  {
  }
}
