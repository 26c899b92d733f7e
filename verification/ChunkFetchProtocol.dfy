/**
 getChunk and fetchChunk with any number of concurrent callers, as a step relation over the cache, the
 map of active reads, their done channels and the request semaphore. One critical section, channel
 operation or network answer is one step. The same relation covers RangeLRUStore and Fetcher, which
 differ in what a hit and a woken waiter do.
 */
module ChunkFetchProtocol {
  import opened Common
  import opened ChunkCache
  import opened ChunkRanges
  import opened ChunkRequests

  datatype Kind = RangeKind | FetcherKind

  datatype Config = Config(kind: Kind, remote: Remote, capacity: nat, limit: nat) {
    predicate Valid() {
      remote.Valid() && capacity > 0 && limit > 0
    }
  }

  /** Where a caller is; ch is the done channel it registered or waits for. */
  datatype PC =
    | CheckCache
    | CheckActive
    | Waiting(ch: nat)
    | CheckAgain                            // the second cache lookup of a RangeLRUStore waiter
    | Acquire(ch: nat)                      // the select on the semaphore
    | Requesting(ch: nat, attempt: nat)
    | BackingOff(ch: nat, attempt: nat)     // the retry delay before this attempt
    | Release(ch: nat, chunk: Chunk)        // the deferred semaphore receive
    | StoreChunk(ch: nat, chunk: Chunk)
    | Publish(ch: nat, chunk: Chunk)        // delete from activeReads, close the channel
    | Returned(chunk: Chunk)

  datatype Caller = Caller(off: nat, cancelled: bool, pc: PC)

  datatype Shared = Shared(
    cache: Cache,
    active: map<nat, nat>,    // offset -> done channel
    closed: set<nat>,         // the channels that have been closed
    nextChannel: nat,
    slots: nat)               // semaphore slots taken

  datatype State = State(shared: Shared, callers: map<nat, Caller>)

  const Init := State(Shared(EmptyCache, map[], {}, 0, 0), map[])

  /** Which arm of a select is taken, or how a request ends. */
  datatype Choice = Go | TakeContext | Answered | Lost(wrapsEOF: bool)

  datatype Step = Step(shared: Shared, pc: PC)

  function Failed(off: nat, e: Error): Chunk {
    Chunk(off, [], Some(e))
  }

  /** The steps that need neither the semaphore nor the network. */
  function LocalStep(c: Config, s: Shared, k: Caller): Option<Step> {
    match k.pc
    case CheckCache =>
      if k.off !in s.cache.chunks then Some(Step(s, CheckActive))
      else if c.kind.RangeKind? then Some(Step(s, Returned(s.cache.chunks[k.off])))
      else Some(Step(s.(cache := s.cache.(order := Promoted(s.cache.order, k.off))), Returned(s.cache.chunks[k.off])))
    case CheckActive =>
      if k.off in s.active then Some(Step(s, Waiting(s.active[k.off])))
      else Some(Step(s.(active := s.active[k.off := s.nextChannel], nextChannel := s.nextChannel + 1),
                     Acquire(s.nextChannel)))
    case CheckAgain =>
      if k.off in s.cache.chunks then Some(Step(s, Returned(s.cache.chunks[k.off])))
      else Some(Step(s, Returned(Failed(k.off, FetchFailed(false)))))
    case StoreChunk(ch, chunk) =>
      Some(Step(s.(cache := Insert(s.cache, c.capacity, k.off, chunk)), Publish(ch, chunk)))
    case Publish(ch, chunk) =>
      Some(Step(s.(active := s.active - {k.off}, closed := s.closed + {ch}), Returned(chunk)))
    case _ => None
  }

  /** The select on the semaphore, the requests and their retries, and the release of the slot. */
  function SlotStep(c: Config, s: Shared, k: Caller, choice: Choice): Option<Step> {
    match k.pc
    case Acquire(ch) =>
      if choice == Go && s.slots < c.limit then Some(Step(s.(slots := s.slots + 1), Requesting(ch, 0)))
      else if choice == TakeContext && k.cancelled then Some(Step(s, StoreChunk(ch, Failed(k.off, Cancelled))))
      else None
    case Requesting(ch, attempt) =>
      if choice == Answered && k.off <= c.remote.ChunkEnd(k.off) < |c.remote.bytes| then
        Some(Step(s, Release(ch, Chunk(k.off, c.remote.Answer(k.off, c.remote.ChunkEnd(k.off)), None))))
      else if choice.Lost? && attempt + 1 < MAX_ATTEMPTS then Some(Step(s, BackingOff(ch, attempt + 1)))
      else if choice.Lost? then Some(Step(s, Release(ch, Failed(k.off, FetchFailed(choice.wrapsEOF)))))
      else None
    case BackingOff(ch, attempt) =>
      if choice == Go then Some(Step(s, Requesting(ch, attempt)))
      else if choice == TakeContext && k.cancelled then Some(Step(s, Release(ch, Failed(k.off, Cancelled))))
      else None
    case Release(ch, chunk) =>
      if choice == Go && s.slots > 0 then Some(Step(s.(slots := s.slots - 1), StoreChunk(ch, chunk))) else None
    case _ => None
  }

  /** Waiting for another caller: a Fetcher waits without its context and starts over. */
  function WaitStep(c: Config, s: Shared, k: Caller, choice: Choice): Option<Step>
    requires k.pc.Waiting?
  {
    if choice == Go && k.pc.ch in s.closed then
      Some(Step(s, if c.kind.RangeKind? then CheckAgain else CheckCache))
    else if choice == TakeContext && k.cancelled && c.kind.RangeKind? then
      Some(Step(s, Returned(Failed(k.off, Cancelled))))
    else None
  }

  function CallerStep(c: Config, s: Shared, k: Caller, choice: Choice): Option<Step> {
    if k.pc.Waiting? then WaitStep(c, s, k, choice)
    else if k.pc.Acquire? || k.pc.Requesting? || k.pc.BackingOff? || k.pc.Release? then SlotStep(c, s, k, choice)
    else if choice == Go then LocalStep(c, s, k)
    else None
  }

  datatype Action =
    | Start(id: nat, off: nat)           // a ReadAt round or a prefetch goroutine asks for a chunk
    | Cancel(id: nat)
    | ClearCache                         // the last DecRef, or Fetcher.Close
    | Move(id: nat, choice: Choice)

  function Next(c: Config, s: State, a: Action): Option<State>
    requires c.Valid()
  {
    match a
    case Start(id, off) =>
      if id in s.callers || !c.remote.Key(off) then None
      else Some(s.(callers := s.callers[id := Caller(off, false, CheckCache)]))
    case Cancel(id) =>
      if id in s.callers then Some(s.(callers := s.callers[id := s.callers[id].(cancelled := true)])) else None
    case ClearCache => Some(s.(shared := s.shared.(cache := EmptyCache)))
    case Move(id, choice) =>
      if id !in s.callers then None
      else
        match CallerStep(c, s.shared, s.callers[id], choice)
        case None => None
        case Some(step) =>
          Some(State(step.shared, s.callers[id := s.callers[id].(pc := step.pc)]))
  }

  function Run(c: Config, s: State, run: seq<Action>): Option<State>
    requires c.Valid()
  {
    if run == [] then Some(s)
    else
      var rest := Run(c, s, run[..|run| - 1]);
      if rest.None? then None else Next(c, rest.value, run[|run| - 1])
  }

  ghost predicate Reachable(c: Config, s: State)
    requires c.Valid()
  {
    exists run :: Run(c, Init, run) == Some(s)
  }
}
