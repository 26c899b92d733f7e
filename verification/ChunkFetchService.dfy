/**
 What the callers of getChunk get: a cached chunk is handed out, each move changes the cache as the
 sequential stores do, and an error has its reason.
 */
module ChunkFetchService {
  import opened Common
  import opened ChunkCache
  import opened ChunkRanges
  import opened ChunkRequests
  import opened ChunkFetchProtocol
  import opened ChunkFetchSafety

  // ----- a cached chunk is handed out -----

  /** The two places where a caller looks for its chunk in the cache. */
  predicate LooksInCache(k: Caller) {
    k.pc.CheckCache? || k.pc.CheckAgain?
  }

  /**
   A caller that looks for its chunk and finds it, the woken waiter of another's fetch like any other, returns
   exactly the cached chunk; it registers nothing, takes no slot, and no chunk is replaced.
   */
  lemma CachedChunkIsReturned(c: Config, s: State, id: nat)
    requires c.Valid() && id in s.callers && LooksInCache(s.callers[id])
    requires s.callers[id].off in s.shared.cache.chunks
    ensures var k := s.callers[id];
            var next := Next(c, s, Move(id, Go));
            && next.Some?
            && next.value.callers == s.callers[id := k.(pc := Returned(s.shared.cache.chunks[k.off]))]
            && next.value.shared.active == s.shared.active && next.value.shared.slots == s.shared.slots
            && next.value.shared.nextChannel == s.shared.nextChannel && next.value.shared.closed == s.shared.closed
            && next.value.shared.cache.chunks == s.shared.cache.chunks
    ensures forall choice :: choice != Go ==> Next(c, s, Move(id, choice)).None?
  {
  }

  /** The cache, if this move is a get of the sequential store that is answered with chunk. */
  function AfterGet(c: Config, cache: Cache, off: nat, chunk: Chunk): Cache {
    if c.kind.RangeKind? then RangeGet(cache, c.capacity, off, chunk) else FetcherGet(cache, c.capacity, off, chunk)
  }

  /**
   Every move treats the cache as the sequential stores do: a hit and a stored miss are exactly their get;
   a miss that another caller has stored meanwhile replaces that chunk, as the newest; the rest leaves it alone.
   */
  lemma MovesAreGets(c: Config, s: State, id: nat, choice: Choice, t: State)
    requires c.Valid() && Next(c, s, Move(id, choice)) == Some(t)
    ensures var k, cache := s.callers[id], s.shared.cache;
            if k.pc.CheckCache? && k.off in cache.chunks then
              t.callers[id].pc.Returned? && t.shared.cache == AfterGet(c, cache, k.off, t.callers[id].pc.chunk)
            else if k.pc.StoreChunk? && k.off !in cache.chunks then
              t.shared.cache == AfterGet(c, cache, k.off, k.pc.chunk)
            else if k.pc.StoreChunk? then
              t.shared.cache
              == EvictTo(Cache(cache.chunks[k.off := k.pc.chunk], Promoted(cache.order, k.off)), c.capacity)
            else t.shared.cache == cache
  {
  }

  // ----- when a caller returns an error -----

  /** The move by which a caller returns an error, told by the state before it. */
  predicate ErrorMove(c: Config, s: Shared, k: Caller, choice: Choice) {
    || (LooksInCache(k) && choice == Go && k.off in s.cache.chunks && s.cache.chunks[k.off].err.Some?)
    || (k.pc.CheckAgain? && choice == Go && k.off !in s.cache.chunks)
    || (k.pc.Waiting? && choice == TakeContext && k.cancelled && c.kind.RangeKind?)
    || (k.pc.Publish? && choice == Go && k.pc.chunk.err.Some?)
  }

  /**
   A move makes a caller return an error if and only if it found an error cached, was woken with its chunk not
   in the cache, gave up waiting with its context cancelled, or publishes a fetch of its own that failed.
   */
  lemma ErrorIff(c: Config, s: State, id: nat, choice: Choice, t: State)
    requires c.Valid() && Next(c, s, Move(id, choice)) == Some(t)
    ensures t.callers[id].pc.Returned? && t.callers[id].pc.chunk.err.Some?
            <==> ErrorMove(c, s.shared, s.callers[id], choice)
  {
  }

  /** How many requests of this caller were lost. */
  function LostRequests(run: seq<Action>, id: nat): nat {
    if run == [] then 0
    else
      var last := run[|run| - 1];
      LostRequests(run[..|run| - 1], id) + if last.Move? && last.id == id && last.choice.Lost? then 1 else 0
  }

  /** How the last lost request of this caller ended. */
  function LastLost(run: seq<Action>, id: nat): bool {
    if run == [] then false
    else
      var last := run[|run| - 1];
      if last.Move? && last.id == id && last.choice.Lost? then last.choice.wrapsEOF
      else LastLost(run[..|run| - 1], id)
  }

  /** What the attempts and the chunk of a fetching caller say about its lost requests. */
  predicate FetchHistory(k: Caller, lost: nat, wrapsEOF: bool) {
    match k.pc
    case CheckCache => lost == 0
    case CheckActive => lost == 0
    case Waiting(_) => lost == 0
    case CheckAgain => lost == 0
    case Acquire(_) => lost == 0
    case Requesting(_, attempt) => lost == attempt < 3
    case BackingOff(_, attempt) => lost == attempt < 3
    case Release(_, chunk) => ChunkHistory(k, chunk, lost, wrapsEOF)
    case StoreChunk(_, chunk) => ChunkHistory(k, chunk, lost, wrapsEOF)
    case Publish(_, chunk) => ChunkHistory(k, chunk, lost, wrapsEOF)
    case Returned(_) => true
  }

  predicate ChunkHistory(k: Caller, chunk: Chunk, lost: nat, wrapsEOF: bool) {
    if chunk.err.None? then lost < 3
    else if lost == 3 then chunk.err == Some(FetchFailed(wrapsEOF))
    else lost < 3 && chunk.err == Some(Cancelled) && k.cancelled
  }

  lemma HistoryStep(c: Config, s: Shared, k: Caller, choice: Choice, step: Step, lost: nat, wrapsEOF: bool)
    requires CallerStep(c, s, k, choice) == Some(step) && FetchHistory(k, lost, wrapsEOF)
    ensures var now := if choice.Lost? then lost + 1 else lost;
            FetchHistory(k.(pc := step.pc), now, if choice.Lost? then choice.wrapsEOF else wrapsEOF)
  {
  }

  lemma {:induction false} NotStartedNotLost(c: Config, run: seq<Action>, s: State, id: nat)
    requires c.Valid() && Run(c, Init, run) == Some(s) && id !in s.callers
    ensures LostRequests(run, id) == 0
  {
    if run != [] {
      NotStartedNotLost(c, run[..|run| - 1], Run(c, Init, run[..|run| - 1]).value, id);
    }
  }

  lemma {:induction false} RunHistory(c: Config, run: seq<Action>, s: State, id: nat)
    requires c.Valid() && Run(c, Init, run) == Some(s) && id in s.callers
    ensures FetchHistory(s.callers[id], LostRequests(run, id), LastLost(run, id))
  {
    if run != [] {
      var prefix, a := run[..|run| - 1], run[|run| - 1];
      var mid := Run(c, Init, prefix).value;
      if id in mid.callers {
        RunHistory(c, prefix, mid, id);
        if a.Move? && a.id == id {
          var step := CallerStep(c, mid.shared, mid.callers[id], a.choice).value;
          HistoryStep(c, mid.shared, mid.callers[id], a.choice, step, LostRequests(prefix, id), LastLost(prefix, id));
        }
      } else {
        NotStartedNotLost(c, prefix, mid, id);
      }
    }
  }

  /** Some move of the run made this caller return its error. */
  ghost predicate FailedAt(c: Config, run: seq<Action>, id: nat, i: nat)
    requires c.Valid() && i < |run|
  {
    var mid := Run(c, Init, run[..i]);
    && mid.Some? && run[i].Move? && run[i].id == id && id in mid.value.callers
    && ErrorMove(c, mid.value.shared, mid.value.callers[id], run[i].choice)
    && (mid.value.callers[id].pc.Publish? ==>
          (LostRequests(run[..i], id) == 3
           && mid.value.callers[id].pc.chunk.err == Some(FetchFailed(LastLost(run[..i], id))))
          || (mid.value.callers[id].cancelled && mid.value.callers[id].pc.chunk.err == Some(Cancelled)))
  }

  /**
   Why a getChunk call returned an error: at one point of the run it found an error cached, or was woken with its
   chunk not in the cache, or gave up waiting with its context cancelled; or its own fetch failed, because three
   requests of its own were lost, of which it reports the last, or because its context was cancelled.
   */
  lemma {:induction false} WhyChunkFails(c: Config, run: seq<Action>, s: State, id: nat)
    requires c.Valid() && Run(c, Init, run) == Some(s) && id in s.callers
    requires s.callers[id].pc.Returned? && s.callers[id].pc.chunk.err.Some?
    ensures exists i: nat :: i < |run| && FailedAt(c, run, id, i)
  {
    var prefix, a := run[..|run| - 1], run[|run| - 1];
    var mid := Run(c, Init, prefix).value;
    if id in mid.callers && mid.callers[id].pc.Returned? {
      WhyChunkFails(c, prefix, mid, id);
      var i: nat :| i < |prefix| && FailedAt(c, prefix, id, i);
      assert run[..i] == prefix[..i];
      assert FailedAt(c, run, id, i);
    } else {
      ErrorIff(c, mid, id, a.choice, s);
      RunHistory(c, prefix, mid, id);
      assert FailedAt(c, run, id, |prefix|);
    }
  }

  /** A fetch that is answered is never reported as failed by the caller that made it. */
  lemma AnsweredIsReturned(c: Config, s: State, id: nat, t: State)
    requires c.Valid() && Next(c, s, Move(id, Answered)) == Some(t)
    ensures var k := s.callers[id];
            && k.pc.Requesting? && k.off <= c.remote.ChunkEnd(k.off) < |c.remote.bytes|
            && t.callers[id].pc
               == Release(k.pc.ch, Chunk(k.off, c.remote.bytes[k.off..c.remote.ChunkEnd(k.off) + 1], None))
  {
  }

  /** A chunk that a caller holds goes through the release, the cache and the publication to its return unchanged. */
  lemma HeldChunkIsReturned(c: Config, s: State, id: nat, t: State)
    requires c.Valid() && Next(c, s, Move(id, Go)) == Some(t)
    requires var pc := s.callers[id].pc; pc.Release? || pc.StoreChunk? || pc.Publish?
    ensures var pc := t.callers[id].pc;
            && (s.callers[id].pc.Release? ==> pc.StoreChunk?) && (s.callers[id].pc.StoreChunk? ==> pc.Publish?)
            && (s.callers[id].pc.Publish? ==> pc.Returned?) && pc.chunk == s.callers[id].pc.chunk
    ensures s.callers[id].pc.StoreChunk? && c.capacity > 0 && WellFormed(s.shared.cache, c.capacity) ==>
              s.callers[id].off in t.shared.cache.chunks
              && t.shared.cache.chunks[s.callers[id].off] == s.callers[id].pc.chunk
  {
    var k := s.callers[id];
    if k.pc.StoreChunk? && c.capacity > 0 && WellFormed(s.shared.cache, c.capacity) {
      InsertWellFormed(s.shared.cache, c.capacity, k.off, k.pc.chunk);
    }
  }

  // ----- waiting for another caller -----

  /** A RangeLRUStore caller that waited for another's fetch never makes a request of its own. */
  lemma {:induction false} RangeWaiterDoesNotFetch(c: Config, s: State, run: seq<Action>, t: State, id: nat)
    requires c.Valid() && c.kind.RangeKind? && Run(c, s, run) == Some(t) && id in s.callers
    requires s.callers[id].pc.Waiting? || s.callers[id].pc.CheckAgain?
    ensures id in t.callers
    ensures t.callers[id].pc.Waiting? || t.callers[id].pc.CheckAgain? || t.callers[id].pc.Returned?
  {
    if run != [] {
      RangeWaiterDoesNotFetch(c, s, run[..|run| - 1], Run(c, s, run[..|run| - 1]).value, id);
    }
  }

  /** A Fetcher caller that waits ignores its context: it goes on exactly when the fetch is over, and starts again. */
  lemma FetcherWaiterStartsOver(c: Config, s: State, id: nat, choice: Choice)
    requires c.Valid() && c.kind.FetcherKind? && id in s.callers && s.callers[id].pc.Waiting?
    ensures var next := Next(c, s, Move(id, choice));
            && (next.Some? <==> choice == Go && s.callers[id].pc.ch in s.shared.closed)
            && (next.Some? ==> next.value == s.(callers := s.callers[id := s.callers[id].(pc := CheckCache)]))
  {
  }

  // ----- giving up -----

  /** A caller with a cancelled context can give up wherever it would wait: for a slot, a delay, or another's fetch. */
  lemma CancelledCanGiveUp(c: Config, s: State, id: nat)
    requires c.Valid() && id in s.callers && s.callers[id].cancelled
    ensures var k := s.callers[id];
            var gone := Chunk(k.off, [], Some(Cancelled));
            var next := Next(c, s, Move(id, TakeContext));
            && (k.pc.Acquire? ==> next.Some? && next.value.callers[id].pc == StoreChunk(k.pc.ch, gone))
            && (k.pc.BackingOff? ==> next.Some? && next.value.callers[id].pc == Release(k.pc.ch, gone))
            && (k.pc.Waiting? && c.kind.RangeKind? ==> next.Some? && next.value.callers[id].pc == Returned(gone))
            && (next.Some? ==> next.value.shared == s.shared)
  {
  }
}
