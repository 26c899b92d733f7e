/** Runs of the chunk fetch in which one caller is alone: they show that what the results allow does happen. */
module ChunkFetchRuns {
  import opened Common
  import opened ChunkCache
  import opened ChunkRanges
  import opened ChunkFetchProtocol

  lemma RunSnoc(c: Config, s: State, run: seq<Action>, t: State, a: Action, u: State)
    requires c.Valid() && Run(c, s, run) == Some(t) && Next(c, t, a) == Some(u)
    ensures Run(c, s, run + [a]) == Some(u)
  {
    assert (run + [a])[..|run|] == run;
  }

  lemma ReachableNext(c: Config, s: State, a: Action, t: State)
    requires c.Valid() && Reachable(c, s) && Next(c, s, a) == Some(t)
    ensures Reachable(c, t)
  {
    var run :| Run(c, Init, run) == Some(s);
    RunSnoc(c, Init, run, s, a, t);
  }

  lemma InitReachable(c: Config)
    requires c.Valid()
    ensures Reachable(c, Init)
  {
    assert Run(c, Init, []) == Some(Init);
  }

  lemma Begun(c: Config, s: State, id: nat, off: nat)
    requires c.Valid() && Reachable(c, s) && id !in s.callers && c.remote.Key(off)
    ensures Reachable(c, s.(callers := s.callers[id := Caller(off, false, CheckCache)]))
  {
    ReachableNext(c, s, Start(id, off), s.(callers := s.callers[id := Caller(off, false, CheckCache)]));
  }

  lemma Moved(c: Config, callers: map<nat, Caller>, id: nat, s: Shared, k: Caller, choice: Choice, t: Shared, pc: PC)
    requires c.Valid() && Reachable(c, State(s, callers[id := k]))
    requires CallerStep(c, s, k, choice) == Some(Step(t, pc))
    ensures Reachable(c, State(t, callers[id := k.(pc := pc)]))
  {
    assert callers[id := k][id := k.(pc := pc)] == callers[id := k.(pc := pc)];
    ReachableNext(c, State(s, callers[id := k]), Move(id, choice), State(t, callers[id := k.(pc := pc)]));
  }

  /** Nobody else is fetching, and the chunk is not cached. */
  predicate Quiet(s: Shared, off: nat) {
    off !in s.cache.chunks && s.active == map[] && s.slots == 0
  }

  /** The shared state while the only caller is fetching, with so many slots taken. */
  function Busy(s: Shared, off: nat, slots: nat): Shared {
    s.(active := map[off := s.nextChannel], nextChannel := s.nextChannel + 1, slots := slots)
  }

  function AfterFetch(c: Config, s: Shared, off: nat, chunk: Chunk): Shared {
    s.(cache := Insert(s.cache, c.capacity, off, chunk),
       closed := s.closed + {s.nextChannel},
       nextChannel := s.nextChannel + 1)
  }

  /** The state when the caller has returned with its chunk, which is cached now. */
  function Alone(c: Config, s: State, id: nat, off: nat, chunk: Chunk): State {
    State(AfterFetch(c, s.shared, off, chunk), s.callers[id := Caller(off, false, Returned(chunk))])
  }

  /** Up to the first request. */
  lemma GetsSlot(c: Config, s: State, id: nat, off: nat)
    requires c.Valid() && Reachable(c, s) && id !in s.callers && c.remote.Key(off) && Quiet(s.shared, off)
    ensures Reachable(c, State(Busy(s.shared, off, 1),
                               s.callers[id := Caller(off, false, Requesting(s.shared.nextChannel, 0))]))
  {
    var k, ch := Caller(off, false, CheckCache), s.shared.nextChannel;
    Begun(c, s, id, off);
    Moved(c, s.callers, id, s.shared, k, Go, s.shared, CheckActive);
    assert map[][off := ch] == map[off := ch];
    Moved(c, s.callers, id, s.shared, k.(pc := CheckActive), Go, Busy(s.shared, off, 0), Acquire(ch));
    Moved(c, s.callers, id, Busy(s.shared, off, 0), k.(pc := Acquire(ch)), Go,
          Busy(s.shared, off, 1), Requesting(ch, 0));
  }

  /** From the end of the requests to the return. */
  lemma Returns(c: Config, s: State, id: nat, off: nat, chunk: Chunk)
    requires c.Valid() && Quiet(s.shared, off)
    requires Reachable(c, State(Busy(s.shared, off, 1),
                                s.callers[id := Caller(off, false, Release(s.shared.nextChannel, chunk))]))
    ensures Reachable(c, Alone(c, s, id, off, chunk))
  {
    var k, ch := Caller(off, false, Release(s.shared.nextChannel, chunk)), s.shared.nextChannel;
    var stored := Busy(s.shared, off, 0).(cache := Insert(s.shared.cache, c.capacity, off, chunk));
    Moved(c, s.callers, id, Busy(s.shared, off, 1), k, Go, Busy(s.shared, off, 0), StoreChunk(ch, chunk));
    Moved(c, s.callers, id, Busy(s.shared, off, 0), k.(pc := StoreChunk(ch, chunk)), Go, stored, Publish(ch, chunk));
    assert map[off := ch] - {off} == map[];
    Moved(c, s.callers, id, stored, k.(pc := Publish(ch, chunk)), Go,
          AfterFetch(c, s.shared, off, chunk), Returned(chunk));
  }

  /** All three requests fail, the last one with io.EOF or not: the error is returned and cached. */
  lemma FailsAlone(c: Config, s: State, id: nat, off: nat, eof: bool)
    requires c.Valid() && Reachable(c, s) && id !in s.callers && c.remote.Key(off) && Quiet(s.shared, off)
    ensures var chunk := Failed(off, FetchFailed(eof));
            Reachable(c, Alone(c, s, id, off, chunk))
  {
    var k, ch, busy := Caller(off, false, CheckCache), s.shared.nextChannel, Busy(s.shared, off, 1);
    GetsSlot(c, s, id, off);
    Moved(c, s.callers, id, busy, k.(pc := Requesting(ch, 0)), Lost(eof), busy, BackingOff(ch, 1));
    Moved(c, s.callers, id, busy, k.(pc := BackingOff(ch, 1)), Go, busy, Requesting(ch, 1));
    Moved(c, s.callers, id, busy, k.(pc := Requesting(ch, 1)), Lost(eof), busy, BackingOff(ch, 2));
    Moved(c, s.callers, id, busy, k.(pc := BackingOff(ch, 2)), Go, busy, Requesting(ch, 2));
    Moved(c, s.callers, id, busy, k.(pc := Requesting(ch, 2)), Lost(eof), busy,
          Release(ch, Failed(off, FetchFailed(eof))));
    Returns(c, s, id, off, Failed(off, FetchFailed(eof)));
  }

  /** The first request is answered. */
  lemma SucceedsAlone(c: Config, s: State, id: nat, off: nat)
    requires c.Valid() && Reachable(c, s) && id !in s.callers && c.remote.Key(off) && Quiet(s.shared, off)
    ensures off <= c.remote.ChunkEnd(off) < |c.remote.bytes|
    ensures var chunk := Chunk(off, c.remote.Answer(off, c.remote.ChunkEnd(off)), None);
            Reachable(c, Alone(c, s, id, off, chunk))
  {
    StartIsKey(c.remote, off);
    var chunk := Chunk(off, c.remote.Answer(off, c.remote.ChunkEnd(off)), None);
    GetsSlot(c, s, id, off);
    Moved(c, s.callers, id, Busy(s.shared, off, 1), Caller(off, false, Requesting(s.shared.nextChannel, 0)), Answered,
          Busy(s.shared, off, 1), Release(s.shared.nextChannel, chunk));
    Returns(c, s, id, off, chunk);
  }
}
