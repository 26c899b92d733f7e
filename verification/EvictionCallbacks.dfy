/**
 Between the temp file manager and the staging lifecycle: the callbacks that one EnsureSpaceAvailable runs
 mark exactly the stores of the files it evicts, which are the least recently accessed ones.
 */
module EvictionCallbacks {
  import opened Common
  import opened Staging
  import opened TempFileManagers

  /** Every tracked file belongs to an open store and has its callback, as NewTempFileStore registers it. */
  ghost predicate Tracks(files: Files, storeOf: map<Path, nat>, stores: seq<Store>) {
    forall p :: p in files ==>
      p in storeOf && storeOf[p] < |stores| && !stores[storeOf[p]].closed && files[p].hasCallback
  }

  /** The stores after the events of a log: a callback marks its store as evicted. */
  function Notified(stores: seq<Store>, log: seq<TempFileManagers.Event>, storeOf: map<Path, nat>): (r: seq<Store>)
    ensures |r| == |stores|
  {
    if log == [] then stores
    else
      var before, last := Notified(stores, log[..|log| - 1], storeOf), log[|log| - 1];
      if last.CalledBack? && last.path in storeOf && storeOf[last.path] < |stores|
      then before[storeOf[last.path] := before[storeOf[last.path]].(evicted := true)]
      else before
  }

  function StoresOf(order: seq<Path>, storeOf: map<Path, nat>): set<nat> {
    set p | p in order && p in storeOf :: storeOf[p]
  }

  lemma NotifiedSnoc(stores: seq<Store>, log: seq<TempFileManagers.Event>, e: TempFileManagers.Event,
                     storeOf: map<Path, nat>)
    ensures var before := Notified(stores, log, storeOf);
            Notified(stores, log + [e], storeOf) ==
              if e.CalledBack? && e.path in storeOf && storeOf[e.path] < |stores|
              then before[storeOf[e.path] := before[storeOf[e.path]].(evicted := true)] else before
  {
    assert (log + [e])[..|log|] == log;
  }

  /** One eviction: its callback marks its store, and its removal marks nothing. */
  lemma NotifiedEviction(stores: seq<Store>, log: seq<TempFileManagers.Event>, files: Files, p: Path, stuck: set<Path>,
                         storeOf: map<Path, nat>)
    requires Tracks(files, storeOf, stores) && p in files
    ensures var before := Notified(stores, log, storeOf);
            Notified(stores, log + EvictionOf(files, p, stuck), storeOf)
            == before[storeOf[p] := before[storeOf[p]].(evicted := true)]
  {
    NotifiedSnoc(stores, log, CalledBack(p), storeOf);
    NotifiedSnoc(stores, log + [CalledBack(p)], Removed(p, p !in stuck), storeOf);
    assert log + EvictionOf(files, p, stuck) == log + [CalledBack(p)] + [Removed(p, p !in stuck)];
  }

  lemma MarkedOneMore(c: Config, stores: seq<Store>, ks: set<nat>, k: nat)
    requires c.tempFiles && k < |stores| && !stores[k].closed
    ensures Marked(c, stores, ks + {k}) == Marked(c, stores, ks)[k := Marked(c, stores, ks)[k].(evicted := true)]
  {
  }

  lemma StoresOfSnoc(order: seq<Path>, p: Path, storeOf: map<Path, nat>)
    requires p in storeOf
    ensures StoresOf(order + [p], storeOf) == StoresOf(order, storeOf) + {storeOf[p]}
  {
    assert forall q :: q in order + [p] <==> q in order || q == p;
  }

  lemma {:induction false} CallbacksMark(c: Config, stores: seq<Store>, files: Files, order: seq<Path>,
                                         stuck: set<Path>, storeOf: map<Path, nat>)
    requires c.tempFiles && Tracks(files, storeOf, stores) && forall p :: p in order ==> p in files
    ensures Notified(stores, Evictions(files, order, stuck), storeOf) == Marked(c, stores, StoresOf(order, storeOf))
  {
    if order == [] {
      assert Marked(c, stores, {}) == stores;
    } else {
      var init, last := order[..|order| - 1], order[|order| - 1];
      CallbacksMark(c, stores, files, init, stuck, storeOf);
      NotifiedEviction(stores, Evictions(files, init, stuck), files, last, stuck, storeOf);
      assert order == init + [last];
      StoresOfSnoc(init, last, storeOf);
      MarkedOneMore(c, stores, StoresOf(init, storeOf), storeOf[last]);
    }
  }

  /**
   What a space check does to the stores: the manager's own callbacks mark exactly the stores of the
   evicted prefix of the files by last access, whether or not the removals work.
   */
  lemma SpaceCheckMarks(c: Config, stores: seq<Store>, files: Files, order: seq<Path>, fileSize: nat, disk: Disk,
                        stuck: set<Path>, storeOf: map<Path, nat>)
    requires c.tempFiles && Tracks(files, storeOf, stores) && LeastRecentFirst(files, order)
    ensures var gone := order[..Ensure(files, order, fileSize, disk).evicted];
            Notified(stores, Evictions(files, gone, stuck), storeOf) == Marked(c, stores, StoresOf(gone, storeOf))
  {
    var gone := order[..Ensure(files, order, fileSize, disk).evicted];
    assert forall p :: p in gone ==> p in order;
    CallbacksMark(c, stores, files, gone, stuck, storeOf);
  }
}
