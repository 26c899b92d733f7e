/**
 RangeLRUStore without competing callers: ReadAt over a bounded chunk cache. Single flight and the
 request semaphore only matter between callers; they are the subject of ChunkFetchProtocol.
 */
module RangeLRUStores {
  import opened Common
  import opened ChunkCache
  import opened ChunkRanges
  import opened ChunkReads
  import opened ChunkRequests
  import opened Reads

  class RangeLRUStore {
    const remote: Remote
    const cacheCapacity: nat
    var cache: map<nat, Chunk>
    var lruOrder: seq<nat>
    var refCount: int
    var closed: bool           // cache is nil, since CloseWithContext

    ghost predicate Valid()
      reads this
    {
      && remote.Valid() && cacheCapacity > 0
      && remote.Holds(Contents())
      && WellFormed(Contents(), cacheCapacity)
    }

    ghost function Contents(): Cache
      reads this
    {
      Cache(cache, lruOrder)
    }

    constructor (bytes: seq<byte>, chunkSize: int, cacheSize: int)
      requires |bytes| > 0
      ensures Valid() && Contents() == EmptyCache && refCount == 0 && !closed
      ensures remote.bytes == bytes
      ensures remote.chunkSize == if chunkSize <= 0 then 4 * 1024 * 1024 else chunkSize
      ensures cacheCapacity == if cacheSize <= 0 then 8 else cacheSize
    {
      remote := Remote(bytes, if chunkSize <= 0 then 4 * 1024 * 1024 else chunkSize);
      cacheCapacity := if cacheSize <= 0 then 8 else cacheSize;
      cache, lruOrder, refCount, closed := map[], [], 0, false;
    }

    method IncRef()
      modifies this`refCount
      ensures refCount == old(refCount) + 1
    {
      refCount := refCount + 1;
    }

    /** The last release makes a new, empty cache, also after Close. */
    method DecRef() returns (count: int)
      requires Valid()
      modifies this`refCount, this`cache, this`lruOrder, this`closed
      ensures Valid() && count == refCount == old(refCount) - 1
      ensures Contents() == if count == 0 then EmptyCache else old(Contents())
      ensures closed <==> old(closed) && count != 0
    {
      refCount := refCount - 1;
      count := refCount;
      if count == 0 {
        closed, cache, lruOrder := false, map[], [];
      }
    }

    method CloseWithContext()
      requires Valid()
      modifies this`closed, this`cache, this`lruOrder
      ensures Valid() && closed && Contents() == EmptyCache
    {
      closed, cache, lruOrder := true, map[], [];
    }

    method UpdateLRU(offset: nat)
      requires cache.Keys == Elements(lruOrder) + {offset} && NoDuplicates(lruOrder) && cacheCapacity > 0
      modifies this`cache, this`lruOrder
      ensures Contents() == EvictTo(Cache(old(cache), Promoted(old(lruOrder), offset)), cacheCapacity)
    {
      lruOrder := MoveToEnd(lruOrder, offset);
      PromotedElements(old(lruOrder), offset);
      ghost var full, dropped := Contents(), 0;
      while |lruOrder| > cacheCapacity
        invariant dropped <= |full.order| && (dropped > 0 ==> |lruOrder| >= cacheCapacity)
        invariant Contents() == Dropped(full, dropped)
      {
        var evictOffset := lruOrder[0];
        lruOrder := lruOrder[1..];
        cache := cache - {evictOffset};
        dropped := dropped + 1;
      }
      EvictedEnough(full, dropped, cacheCapacity);
    }

    method GetChunk(offset: nat, net: Network) returns (chunk: Chunk, ghost access: Access)
      requires Valid() && !closed && remote.Key(offset)
      modifies this`cache, this`lruOrder
      ensures Valid() && access == Access(offset, chunk)
      ensures Contents() == RangeGet(old(Contents()), cacheCapacity, offset, access.fetched)
      ensures offset <= remote.ChunkEnd(offset) < |remote.bytes|
      ensures if offset in old(cache) then chunk == old(cache)[offset] else FetchedAs(remote, net, offset, chunk)
      ensures chunk.offset == offset && remote.ChunkOk(chunk)
    {
      StartIsKey(remote, offset);
      if offset in cache {
        chunk := cache[offset];
        access := Access(offset, chunk);
      } else {
        chunk := FetchChunk(remote, offset, net);
        access := Access(offset, chunk);
        InsertWellFormed(Contents(), cacheCapacity, offset, chunk);
        InsertHolds(remote, Contents(), cacheCapacity, offset, chunk);
        cache := cache[offset := chunk];
        UpdateLRU(offset);
      }
    }

    /** GetChunk, whatever the network does. */
    method GetSomehow(offset: nat) returns (chunk: Chunk, ghost access: Access)
      requires Valid() && !closed && remote.Key(offset)
      modifies this`cache, this`lruOrder
      ensures Valid() && access == Access(offset, chunk)
      ensures Contents() == RangeGet(old(Contents()), cacheCapacity, offset, access.fetched)
      ensures chunk.offset == offset && remote.ChunkOk(chunk)
    {
      var net: Network := *;
      chunk, access := GetChunk(offset, net);
    }

    /** The chunk that holds the position reached, and as much of it as fits. */
    method ReadPiece(p: array<byte>, at: nat, off: nat) returns (n: nat, err: Option<Error>, ghost access: Access)
      requires Valid() && !closed && off + at < |remote.bytes| && at < p.Length
      modifies this`cache, this`lruOrder, p
      ensures Valid() && Contents() == RangeGet(old(Contents()), cacheCapacity, access.off, access.fetched)
      ensures access.off == access.fetched.offset == remote.ChunkStart(off + at)
      ensures remote.ChunkOk(access.fetched) && err == access.fetched.err
      ensures at + n <= p.Length && (err.None? <==> n > 0)
      ensures p[..at + n] == Extended(old(p[..at]), access.fetched, off, p.Length)
      ensures forall i :: at + n <= i < p.Length ==> p[i] == old(p[i])
    {
      var chunkOffset := remote.ChunkStart(off + at);
      StartIsKey(remote, off + at);
      var chunk;
      chunk, access := GetSomehow(chunkOffset);
      n, err := 0, chunk.err;
      if err.None? {
        n := CopyFromChunk(remote, chunk, off + at, p, at);
        assert p[..at + n] == p[..at] + p[at..at + n];
      }
    }

    /**
     One round of ReadAt: start is the cache before the first round, gets are the gets of the rounds so far,
     more are those with this round's.
     */
    method ReadRound(p: array<byte>, at: nat, off: nat, ghost start: Cache, ghost gets: seq<Access>)
      returns (n: nat, err: Option<Error>, ghost more: seq<Access>)
      requires Valid() && !closed && off + at < |remote.bytes| && at < p.Length
      requires Going(remote, gets, off, p.Length, p[..at]) && Contents() == RangeRun(start, cacheCapacity, gets)
      modifies this`cache, this`lruOrder, p
      ensures Valid() && Contents() == RangeRun(start, cacheCapacity, more)
      ensures at + n <= p.Length
      ensures forall i :: at + n <= i < p.Length ==> p[i] == old(p[i])
      ensures err.None? ==> n > 0 && Going(remote, more, off, p.Length, p[..at + n])
      ensures err.Some? ==>
                n == 0 && Ended(remote, more, off, p.Length, ReadResult(p[..at], if at == 0 then err else None))
    {
      ghost var data, access := p[..at], Access(0, Chunk(0, [], None));
      n, err, access := ReadPiece(p, at, off);
      more := gets + [access];
      RunSnoc(start, cacheCapacity, gets, access);
      GoingOn(remote, gets, off, p.Length, data, access);
    }

    method ReadAt(p: array<byte>, off: nat) returns (n: nat, err: Option<Error>, ghost gets: seq<Access>)
      requires Valid() && (closed ==> off >= |remote.bytes| || p.Length == 0)
      modifies this`cache, this`lruOrder, p
      ensures Valid() && n <= p.Length
      ensures forall i :: n <= i < p.Length ==> p[i] == old(p[i])
      ensures Contents() == RangeRun(old(Contents()), cacheCapacity, gets)
      ensures if off >= |remote.bytes| then n == 0 && err == Some(EOF) && gets == []
              else Ended(remote, gets, off, p.Length, ReadResult(p[..n], err))
      ensures ReadOk(remote.bytes, |remote.bytes|, off, p.Length, ReadResult(p[..n], err))
      ensures off < |remote.bytes| ==> (n == Min(p.Length, |remote.bytes| - off) <==> !EndsInError(gets))
    {
      if off >= |remote.bytes| {
        return 0, Some(EOF), [];
      }
      n, err, gets := ReadRounds(p, off);
      ResultOk(remote, gets, off, p.Length, ReadResult(p[..n], err));
    }

    /** The loop of ReadAt. */
    method ReadRounds(p: array<byte>, off: nat) returns (n: nat, err: Option<Error>, ghost gets: seq<Access>)
      requires Valid() && (closed ==> p.Length == 0) && off < |remote.bytes|
      modifies this`cache, this`lruOrder, p
      ensures Valid() && n <= p.Length
      ensures forall i :: n <= i < p.Length ==> p[i] == old(p[i])
      ensures Contents() == RangeRun(old(Contents()), cacheCapacity, gets)
      ensures Ended(remote, gets, off, p.Length, ReadResult(p[..n], err))
    {
      ghost var start := Contents();
      gets := [];
      n, err := 0, None;
      var remaining := p.Length;
      var currentOffset := off;
      while remaining > 0
        invariant n <= p.Length && remaining == p.Length - n && currentOffset == off + n && err.None?
        invariant Going(remote, gets, off, p.Length, p[..n])
        invariant forall i :: n <= i < p.Length ==> p[i] == old(p[i])
        invariant Valid() && Contents() == RangeRun(start, cacheCapacity, gets)
      {
        if currentOffset >= |remote.bytes| {
          if n == 0 {
            assert false;  // io.EOF: the first chunk is never beyond the end
          }
          GoingEnds(remote, gets, off, p.Length, p[..n]);
          return;
        }
        var toCopy, trouble;
        toCopy, trouble, gets := ReadRound(p, n, off, start, gets);
        if trouble.Some? {
          if n == 0 {
            err := trouble;
          }
          return;
        }
        n := n + toCopy;
        remaining := remaining - toCopy;
        currentOffset := currentOffset + toCopy;
      }
      GoingEnds(remote, gets, off, p.Length, p[..n]);
    }
  }

  /** Checks the size, asks the server with a HEAD request, and only then makes the store. */
  method NewRangeLRUStore(bytes: seq<byte>, size: int, chunkSize: int, cacheSize: int, head: Option<Head>)
    returns (store: RangeLRUStore?, error: Option<OpenError>)
    requires size > 0 ==> |bytes| == size
    ensures error == Refusal(size, head) && (store == null <==> error.Some?)
    ensures store != null ==> fresh(store) && store.Valid() && store.Contents() == EmptyCache && !store.closed
    ensures store != null ==> store.refCount == 0 && store.remote.bytes == bytes
    ensures store != null ==> store.remote.chunkSize == if chunkSize <= 0 then 4 * 1024 * 1024 else chunkSize
    ensures store != null ==> store.cacheCapacity == if cacheSize <= 0 then 8 else cacheSize
  {
    store := null;
    if size <= 0 {
      return store, Some(InvalidSize);
    }
    if head.None? {
      return store, Some(HeadFailed);
    }
    if head.value.status != STATUS_OK {
      return store, Some(BadStatus);
    }
    if head.value.acceptRanges != "bytes" {
      return store, Some(NoRanges);
    }
    store := new RangeLRUStore(bytes, chunkSize, cacheSize);
    error := None;
  }
}
