/**
 What every reachable state of the chunk fetch satisfies, for any number of callers: one fetch at a time
 for each offset, never more requests than the semaphore allows, a cache that always agrees with the
 remote file, and no deadlock.
 */
module ChunkFetchSafety {
  import opened Common
  import opened ChunkCache
  import opened ChunkRanges
  import opened ChunkRequests
  import opened ChunkReads
  import opened Reads
  import opened ChunkFetchProtocol

  /** From registering the offset to closing its channel. */
  predicate Fetching(k: Caller) {
    k.pc.Acquire? || k.pc.Requesting? || k.pc.BackingOff? || k.pc.Release? || k.pc.StoreChunk? || k.pc.Publish?
  }

  predicate HoldsSlot(k: Caller) {
    k.pc.Requesting? || k.pc.BackingOff? || k.pc.Release?
  }

  function SlotHolders(callers: map<nat, Caller>): set<nat> {
    set id | id in callers && HoldsSlot(callers[id])
  }

  // ----- the invariant -----

  ghost predicate CacheOk(c: Config, cache: Cache) {
    WellFormed(cache, c.capacity) && c.remote.Holds(cache)
  }

  /** Chunks in flight agree with the remote file, attempts stay within bounds. */
  ghost predicate DataOk(c: Config, k: Caller)
    requires c.Valid()
  {
    && c.remote.Key(k.off)
    && (k.pc.Release? || k.pc.StoreChunk? || k.pc.Publish? || k.pc.Returned? ==>
          k.pc.chunk.offset == k.off && c.remote.ChunkOk(k.pc.chunk))
    && (k.pc.Requesting? || k.pc.BackingOff? ==> k.pc.attempt < MAX_ATTEMPTS)
    && (k.pc.BackingOff? ==> k.pc.attempt > 0)
  }

  /** A fetching caller's channel is the registered one of its offset; a waiter's is registered or closed. */
  predicate ChannelOk(s: Shared, k: Caller) {
    && (Fetching(k) ==> k.off in s.active && s.active[k.off] == k.pc.ch)
    && (k.pc.Waiting? ==> k.pc.ch in s.closed || (k.off in s.active && s.active[k.off] == k.pc.ch))
  }

  /** Registered channels are open, known and distinct. */
  ghost predicate RegistryOk(s: Shared) {
    && (forall o :: o in s.active ==> s.active[o] !in s.closed && s.active[o] < s.nextChannel)
    && (forall o, p :: o in s.active && p in s.active && s.active[o] == s.active[p] ==> o == p)
    && (forall ch :: ch in s.closed ==> ch < s.nextChannel)
  }

  ghost predicate HasFetcher(callers: map<nat, Caller>, off: nat) {
    exists id :: id in callers && Fetching(callers[id]) && callers[id].off == off
  }

  ghost predicate OneFetcher(callers: map<nat, Caller>) {
    forall i, j | i in callers && j in callers && Fetching(callers[i]) && Fetching(callers[j]) ::
      callers[i].off == callers[j].off ==> i == j
  }

  /** The offsets in activeReads are exactly those being fetched, each by one caller. */
  ghost predicate FlightOk(s: Shared, callers: map<nat, Caller>) {
    && (forall o :: o in s.active ==> HasFetcher(callers, o))
    && OneFetcher(callers)
  }

  ghost predicate CallersOk(c: Config, s: Shared, callers: map<nat, Caller>)
    requires c.Valid()
  {
    forall id :: id in callers ==> DataOk(c, callers[id]) && ChannelOk(s, callers[id])
  }

  ghost predicate Inv(c: Config, s: State)
    requires c.Valid()
  {
    && CacheOk(c, s.shared.cache)
    && CallersOk(c, s.shared, s.callers)
    && RegistryOk(s.shared)
    && FlightOk(s.shared, s.callers)
    && s.shared.slots == |SlotHolders(s.callers)| <= c.limit
  }

  // ----- preservation -----

  /** What one step of a caller guarantees about itself and about the cache. */
  lemma StepData(c: Config, s: Shared, k: Caller, choice: Choice, step: Step)
    requires c.Valid() && CacheOk(c, s.cache) && DataOk(c, k) && CallerStep(c, s, k, choice) == Some(step)
    ensures CacheOk(c, step.shared.cache)
    ensures DataOk(c, k.(pc := step.pc))
  {
    match k.pc
    case CheckCache =>
      if k.off in s.cache.chunks {
        PromoteWellFormed(s.cache, c.capacity, k.off);
      }
    case Requesting(_, _) => StartIsKey(c.remote, k.off);
    case StoreChunk(_, chunk) =>
      InsertWellFormed(s.cache, c.capacity, k.off, chunk);
      InsertHolds(c.remote, s.cache, c.capacity, k.off, chunk);
    case _ =>
  }

  /** What one step does to the registry, the closed channels and the slots. */
  lemma StepShared(c: Config, s: Shared, k: Caller, choice: Choice, step: Step)
    requires CallerStep(c, s, k, choice) == Some(step)
    ensures var t := step.shared; var m := k.(pc := step.pc);
            if Fetching(m) && !Fetching(k) then
              k.off !in s.active && t.active == s.active[k.off := s.nextChannel] && m.pc.ch == s.nextChannel
              && t.nextChannel == s.nextChannel + 1 && t.closed == s.closed
            else if Fetching(k) && !Fetching(m) then
              m.pc.Returned? && t.active == s.active - {k.off} && t.closed == s.closed + {k.pc.ch}
              && t.nextChannel == s.nextChannel
            else
              t.active == s.active && t.closed == s.closed && t.nextChannel == s.nextChannel
              && (Fetching(k) ==> m.pc.ch == k.pc.ch)
              && (m.pc.Waiting? ==> k.off in s.active && m.pc.ch == s.active[k.off])
    ensures step.shared.slots - s.slots
            == (if HoldsSlot(k.(pc := step.pc)) then 1 else 0) - (if HoldsSlot(k) then 1 else 0)
    ensures step.shared.slots > s.slots ==> step.shared.slots <= c.limit
  {
  }

  lemma SlotCount(callers: map<nat, Caller>, id: nat, m: Caller)
    ensures |SlotHolders(callers[id := m])| == |SlotHolders(callers)| + (if HoldsSlot(m) then 1 else 0)
              - (if id in callers && HoldsSlot(callers[id]) then 1 else 0)
  {
    var before, after := SlotHolders(callers), SlotHolders(callers[id := m]);
    assert after == if HoldsSlot(m) then before + {id} else before - {id};
    if id in before {
      assert before + {id} == before;
    } else {
      assert before - {id} == before;
    }
  }

  /** The caller that moved, and everyone else against the new registry. */
  lemma MoveKeepsChannels(s: Shared, k: Caller, step: Step, c: Config, choice: Choice, other: Caller)
    requires CallerStep(c, s, k, choice) == Some(step)
    requires RegistryOk(s) && ChannelOk(s, k) && ChannelOk(s, other)
    requires Fetching(other) && Fetching(k) ==> other.off != k.off
    ensures ChannelOk(step.shared, other)
  {
    StepShared(c, s, k, choice, step);
  }

  lemma MoveKeepsOwnChannel(s: Shared, k: Caller, step: Step, c: Config, choice: Choice)
    requires CallerStep(c, s, k, choice) == Some(step)
    requires RegistryOk(s) && ChannelOk(s, k)
    ensures ChannelOk(step.shared, k.(pc := step.pc)) && RegistryOk(step.shared)
  {
    StepShared(c, s, k, choice, step);
  }

  lemma MoveKeepsFlight(s: Shared, callers: map<nat, Caller>, id: nat, step: Step, c: Config, choice: Choice)
    requires id in callers && CallerStep(c, s, callers[id], choice) == Some(step)
    requires FlightOk(s, callers) && ChannelOk(s, callers[id])
    requires forall i :: i in callers && Fetching(callers[i]) ==> callers[i].off in s.active
    ensures FlightOk(step.shared, callers[id := callers[id].(pc := step.pc)])
  {
    var k := callers[id];
    var m := k.(pc := step.pc);
    var moved := callers[id := m];
    StepShared(c, s, k, choice, step);
    forall o | o in step.shared.active ensures HasFetcher(moved, o) {
      if o == k.off && Fetching(m) {
        assert Fetching(moved[id]);
      } else {
        var f :| f in callers && Fetching(callers[f]) && callers[f].off == o;
        assert f != id;
        assert Fetching(moved[f]) && moved[f].off == o;
      }
    }
  }

  lemma MoveKeeps(c: Config, s: State, id: nat, choice: Choice, t: State)
    requires c.Valid() && Inv(c, s) && Next(c, s, Move(id, choice)) == Some(t)
    ensures Inv(c, t)
  {
    var k := s.callers[id];
    var step := CallerStep(c, s.shared, k, choice).value;
    StepData(c, s.shared, k, choice, step);
    StepShared(c, s.shared, k, choice, step);
    MoveKeepsCallers(c, s.shared, s.callers, id, choice, step);
    MoveKeepsFlight(s.shared, s.callers, id, step, c, choice);
    SlotCount(s.callers, id, t.callers[id]);
  }

  lemma MoveKeepsCallers(c: Config, s: Shared, callers: map<nat, Caller>, id: nat, choice: Choice, step: Step)
    requires c.Valid() && CallersOk(c, s, callers) && RegistryOk(s) && OneFetcher(callers) && CacheOk(c, s.cache)
    requires id in callers && CallerStep(c, s, callers[id], choice) == Some(step)
    ensures CallersOk(c, step.shared, callers[id := callers[id].(pc := step.pc)]) && RegistryOk(step.shared)
  {
    StepData(c, s, callers[id], choice, step);
    MoveKeepsOwnChannel(s, callers[id], step, c, choice);
    forall i | i in callers && i != id ensures DataOk(c, callers[i]) && ChannelOk(step.shared, callers[i]) {
      MoveKeepsChannels(s, callers[id], step, c, choice, callers[i]);
    }
  }

  lemma TouchKeeps(c: Config, s: State, id: nat, m: Caller)
    requires c.Valid() && Inv(c, s)
    requires if id in s.callers then m == s.callers[id].(cancelled := true)
             else m == Caller(m.off, false, CheckCache) && c.remote.Key(m.off)
    ensures Inv(c, s.(callers := s.callers[id := m]))
  {
    SlotCount(s.callers, id, m);
    TouchKeepsFlight(s.shared, s.callers, id, m);
    TouchKeepsCallers(c, s.shared, s.callers, id, m);
  }

  lemma TouchKeepsCallers(c: Config, s: Shared, callers: map<nat, Caller>, id: nat, m: Caller)
    requires c.Valid() && CallersOk(c, s, callers)
    requires if id in callers then m == callers[id].(cancelled := true)
             else m == Caller(m.off, false, CheckCache) && c.remote.Key(m.off)
    ensures CallersOk(c, s, callers[id := m])
  {
    if id in callers {
      assert DataOk(c, callers[id]) && ChannelOk(s, callers[id]);
    }
    assert DataOk(c, m) && ChannelOk(s, m);
  }

  lemma TouchKeepsFlight(s: Shared, callers: map<nat, Caller>, id: nat, m: Caller)
    requires FlightOk(s, callers)
    requires if id in callers then m == callers[id].(cancelled := true) else !Fetching(m)
    ensures FlightOk(s, callers[id := m])
  {
    var moved := callers[id := m];
    forall o | o in s.active ensures HasFetcher(moved, o) {
      var f :| f in callers && Fetching(callers[f]) && callers[f].off == o;
      assert Fetching(moved[f]) && moved[f].off == o;
    }
  }

  lemma StepKeeps(c: Config, s: State, a: Action, t: State)
    requires c.Valid() && Inv(c, s) && Next(c, s, a) == Some(t)
    ensures Inv(c, t)
  {
    match a
    case Start(id, off) => TouchKeeps(c, s, id, t.callers[id]);
    case Cancel(id) => TouchKeeps(c, s, id, t.callers[id]);
    case ClearCache => ClearKeeps(c, s);
    case Move(id, choice) => MoveKeeps(c, s, id, choice, t);
  }

  lemma ClearKeeps(c: Config, s: State)
    requires c.Valid() && Inv(c, s)
    ensures Inv(c, s.(shared := s.shared.(cache := EmptyCache)))
  {
    var t := s.shared.(cache := EmptyCache);
    assert forall id :: id in s.callers && ChannelOk(s.shared, s.callers[id]) ==> ChannelOk(t, s.callers[id]);
  }

  lemma {:induction false} RunKeeps(c: Config, s: State, run: seq<Action>, t: State)
    requires c.Valid() && Inv(c, s) && Run(c, s, run) == Some(t)
    ensures Inv(c, t)
  {
    if run != [] {
      var mid := Run(c, s, run[..|run| - 1]).value;
      RunKeeps(c, s, run[..|run| - 1], mid);
      StepKeeps(c, mid, run[|run| - 1], t);
    }
  }

  lemma ReachableKeeps(c: Config, s: State)
    requires c.Valid() && Reachable(c, s)
    ensures Inv(c, s)
  {
    var run :| Run(c, Init, run) == Some(s);
    assert SlotHolders(Init.callers) == {};
    RunKeeps(c, Init, run, s);
  }

  // ----- main results -----

  /** An offset is in activeReads exactly when one caller is in its fetch section, and only one. */
  lemma SingleFlight(c: Config, s: State, off: nat)
    requires c.Valid() && Reachable(c, s)
    ensures off in s.shared.active <==> HasFetcher(s.callers, off)
    ensures OneFetcher(s.callers)
  {
    ReachableKeeps(c, s);
    if HasFetcher(s.callers, off) {
      var id :| id in s.callers && Fetching(s.callers[id]) && s.callers[id].off == off;
      assert ChannelOk(s.shared, s.callers[id]);
    }
  }

  /** The channel about to be closed is open: no channel is ever closed twice. */
  lemma ClosedOnce(c: Config, s: State, id: nat)
    requires c.Valid() && Reachable(c, s) && id in s.callers && s.callers[id].pc.Publish?
    ensures s.callers[id].pc.ch !in s.shared.closed
  {
    ReachableKeeps(c, s);
    assert ChannelOk(s.shared, s.callers[id]);
  }

  /** No waiter is forgotten: the channel it waits for is closed, or its offset's fetcher will close it. */
  lemma WaitersRemembered(c: Config, s: State, id: nat)
    requires c.Valid() && Reachable(c, s) && id in s.callers && s.callers[id].pc.Waiting?
    ensures var k := s.callers[id];
            k.pc.ch in s.shared.closed
            || (k.off in s.shared.active && s.shared.active[k.off] == k.pc.ch
                && exists f :: f in s.callers && Fetching(s.callers[f]) && s.callers[f].off == k.off
                               && s.callers[f].pc.ch == k.pc.ch)
  {
    ReachableKeeps(c, s);
    var k := s.callers[id];
    assert ChannelOk(s.shared, k);
    if k.pc.ch !in s.shared.closed {
      var f :| f in s.callers && Fetching(s.callers[f]) && s.callers[f].off == k.off;
      assert ChannelOk(s.shared, s.callers[f]);
    }
  }

  /** The callers that issue requests hold one slot each, and never more than the limit. */
  lemma BoundedConcurrency(c: Config, s: State)
    requires c.Valid() && Reachable(c, s)
    ensures s.shared.slots == |SlotHolders(s.callers)| <= c.limit
  {
    ReachableKeeps(c, s);
  }

  /**
   Transparency under concurrency: a chunk returned without an error is exactly its range of the
   remote file, whatever was evicted, cleared, retried or fetched twice meanwhile; and the cache
   keeps one entry for each key, chunk-aligned and inside the file, within its capacity.
   */
  lemma TransparentChunks(c: Config, s: State, id: nat)
    requires c.Valid() && Reachable(c, s) && id in s.callers && s.callers[id].pc.Returned?
    ensures var k := s.callers[id];
            && k.pc.chunk.offset == k.off
            && k.off <= c.remote.ChunkEnd(k.off) < |c.remote.bytes|
            && (k.pc.chunk.err.None? ==> k.pc.chunk.data == c.remote.Answer(k.off, c.remote.ChunkEnd(k.off)))
    ensures WellFormed(s.shared.cache, c.capacity) && c.remote.Holds(s.shared.cache)
  {
    ReachableKeeps(c, s);
    StartIsKey(c.remote, s.callers[id].off);
  }

  /** The answers that the getChunk calls with these ids have returned. */
  function AnswersOf(callers: map<nat, Caller>, ids: seq<nat>): (gets: seq<Access>)
    requires forall i :: 0 <= i < |ids| ==> ids[i] in callers && callers[ids[i]].pc.Returned?
    ensures |gets| == |ids|
  {
    seq(|ids|, (i: int) requires 0 <= i < |ids| && ids[i] in callers && callers[ids[i]].pc.Returned? =>
      Access(callers[ids[i]].off, callers[ids[i]].pc.chunk))
  }

  /**
   Transparency of ReadAt under concurrency: the loop of ReadAt, fed by getChunk calls that competed with
   any other callers, evictions, clears and cancellations, returns what the contract of BackingStore
   allows, and everything it can exactly when none of its calls returned an error.
   */
  lemma TransparentReads(c: Config, s: State, ids: seq<nat>, off: nat, len: nat, result: ReadResult)
    requires c.Valid() && Reachable(c, s) && off < |c.remote.bytes|
    requires forall i :: 0 <= i < |ids| ==> ids[i] in s.callers && s.callers[ids[i]].pc.Returned?
    requires var gets := AnswersOf(s.callers, ids);
             && InOrder(c.remote, gets, off, len) && Over(c.remote, gets, off, len)
             && result == Outcome(gets, off, len)
    ensures ReadOk(c.remote.bytes, |c.remote.bytes|, off, len, result)
    ensures |result.data| == Min(len, |c.remote.bytes| - off) <==> !EndsInError(AnswersOf(s.callers, ids))
    ensures result.err.None? && |result.data| < Min(len, |c.remote.bytes| - off)
            <==> EndsInError(AnswersOf(s.callers, ids)) && result.data != []
  {
    var gets := AnswersOf(s.callers, ids);
    ReachableKeeps(c, s);
    forall i | 0 <= i < |gets| ensures gets[i].fetched.offset == gets[i].off && c.remote.ChunkOk(gets[i].fetched) {
      assert DataOk(c, s.callers[ids[i]]);
    }
    ResultOk(c.remote, gets, off, len, result);
  }

  /** A step of this caller that needs no cancelled context. */
  ghost predicate CanMove(c: Config, s: State, id: nat) {
    id in s.callers && exists choice :: choice != TakeContext && CallerStep(c, s.shared, s.callers[id], choice).Some?
  }

  /** Whom a blocked caller waits for: the fetcher of its offset, or any slot holder. */
  ghost predicate WaitsFor(c: Config, s: State, i: nat, j: nat) {
    && i in s.callers && j in s.callers
    && ((s.callers[i].pc.Waiting? && s.callers[i].pc.ch !in s.shared.closed
           && Fetching(s.callers[j]) && s.callers[j].pc.ch == s.callers[i].pc.ch)
        || (s.callers[i].pc.Acquire? && s.shared.slots == c.limit && HoldsSlot(s.callers[j])))
  }

  lemma CanMoveUnlessBlocked(c: Config, s: State, id: nat)
    requires c.Valid() && Inv(c, s) && id in s.callers && !s.callers[id].pc.Returned?
    requires s.callers[id].pc.Waiting? ==> s.callers[id].pc.ch in s.shared.closed
    requires s.callers[id].pc.Acquire? ==> s.shared.slots < c.limit
    ensures CanMove(c, s, id)
  {
    var k := s.callers[id];
    StartIsKey(c.remote, k.off);
    var choice := if k.pc.Requesting? then Answered else Go;
    if HoldsSlot(k) {
      assert id in SlotHolders(s.callers);
    }
    assert CallerStep(c, s.shared, k, choice).Some?;
  }

  /**
   Wait-for chains have length at most two: an unfinished caller can move, or waits for one that can
   move, or waits for the fetcher of its chunk, which waits for a slot holder that can move.
   */
  lemma ShortWaitChains(c: Config, s: State, id: nat)
    requires c.Valid() && Reachable(c, s) && id in s.callers && !s.callers[id].pc.Returned?
    ensures CanMove(c, s, id)
            || (exists j :: WaitsFor(c, s, id, j) && CanMove(c, s, j))
            || (exists j, k :: WaitsFor(c, s, id, j) && WaitsFor(c, s, j, k) && CanMove(c, s, k))
  {
    ReachableKeeps(c, s);
    var k := s.callers[id];
    assert ChannelOk(s.shared, k);
    if k.pc.Waiting? && k.pc.ch !in s.shared.closed {
      var j :| j in s.callers && Fetching(s.callers[j]) && s.callers[j].off == k.off;
      assert ChannelOk(s.shared, s.callers[j]);
      assert WaitsFor(c, s, id, j);
      if s.callers[j].pc.Acquire? && s.shared.slots == c.limit {
        var h := SomeSlotHolder(c, s);
        assert WaitsFor(c, s, j, h);
      } else {
        CanMoveUnlessBlocked(c, s, j);
      }
    } else if k.pc.Acquire? && s.shared.slots == c.limit {
      var h := SomeSlotHolder(c, s);
      assert WaitsFor(c, s, id, h);
    } else {
      CanMoveUnlessBlocked(c, s, id);
    }
  }

  lemma SomeSlotHolder(c: Config, s: State) returns (h: nat)
    requires c.Valid() && Inv(c, s) && s.shared.slots == c.limit
    ensures h in s.callers && HoldsSlot(s.callers[h]) && CanMove(c, s, h)
  {
    h :| h in SlotHolders(s.callers);
    CanMoveUnlessBlocked(c, s, h);
  }

  /** Deadlock freedom: while some caller has not returned, some caller can move. */
  lemma DeadlockFree(c: Config, s: State, id: nat)
    requires c.Valid() && Reachable(c, s) && id in s.callers && !s.callers[id].pc.Returned?
    ensures exists j :: CanMove(c, s, j)
  {
    ShortWaitChains(c, s, id);
  }
}
