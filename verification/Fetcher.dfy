/**
 Fetcher without competing callers: the chunk cache that promotes on a hit and reads ahead. Single
 flight and the request semaphore are the subject of ChunkFetchProtocol.
 */
module Fetchers {
  import opened Common
  import opened ChunkCache
  import opened ChunkRanges
  import opened ChunkReads
  import opened ChunkRequests
  import opened Reads

  const CHUNK_SIZE: nat := 4 * 1024 * 1024
  const MAX_READAHEAD: nat := 64 * 1024 * 1024
  const CACHE_SIZE: nat := 8

  class Fetcher {
    const remote: Remote
    var cache: map<nat, Chunk>
    var lruOrder: seq<nat>

    ghost predicate Valid()
      reads this
    {
      && remote.Valid() && remote.chunkSize == CHUNK_SIZE
      && remote.Holds(Contents())
      && WellFormed(Contents(), CACHE_SIZE)
    }

    ghost function Contents(): Cache
      reads this
    {
      Cache(cache, lruOrder)
    }

    constructor (bytes: seq<byte>)
      requires |bytes| > 0
      ensures Valid() && remote.bytes == bytes && Contents() == EmptyCache
    {
      remote := Remote(bytes, CHUNK_SIZE);
      cache, lruOrder := map[], [];
    }

    method Close()
      requires Valid()
      modifies this`cache, this`lruOrder
      ensures Valid() && Contents() == EmptyCache
    {
      cache, lruOrder := map[], [];
    }

    method UpdateLRU(offset: nat)
      modifies this`lruOrder
      ensures lruOrder == Promoted(old(lruOrder), offset)
    {
      lruOrder := MoveToEnd(lruOrder, offset);
    }

    method EvictOldChunks()
      requires NoDuplicates(lruOrder) && cache.Keys == Elements(lruOrder)
      modifies this`cache, this`lruOrder
      ensures Contents() == EvictTo(old(Contents()), 8)
    {
      ghost var full, dropped := Contents(), 0;
      DroppedCount(full, 0);
      while |cache| > CACHE_SIZE
        invariant dropped <= |full.order| && (dropped > 0 ==> |lruOrder| >= CACHE_SIZE)
        invariant Contents() == Dropped(full, dropped)
        invariant |cache| == |lruOrder|
      {
        if |lruOrder| == 0 {
          break;
        }
        var oldest := lruOrder[0];
        lruOrder := lruOrder[1..];
        cache := cache - {oldest};
        dropped := dropped + 1;
        DroppedCount(full, dropped);
      }
      EvictedEnough(full, dropped, CACHE_SIZE);
    }

    method GetChunk(offset: nat, net: Network) returns (chunk: Chunk, ghost access: Access)
      requires Valid() && remote.Key(offset)
      modifies this`cache, this`lruOrder
      ensures Valid() && access == Access(offset, chunk)
      ensures Contents() == FetcherGet(old(Contents()), 8, offset, access.fetched)
      ensures offset <= remote.ChunkEnd(offset) < |remote.bytes|
      ensures if offset in old(cache) then chunk == old(cache)[offset] else FetchedAs(remote, net, offset, chunk)
      ensures chunk.offset == offset && remote.ChunkOk(chunk)
    {
      StartIsKey(remote, offset);
      if offset in cache {
        PromoteWellFormed(Contents(), CACHE_SIZE, offset);
        UpdateLRU(offset);
        chunk := cache[offset];
        access := Access(offset, chunk);
      } else {
        chunk := FetchChunk(remote, offset, net);
        access := Access(offset, chunk);
        InsertWellFormed(Contents(), CACHE_SIZE, offset, chunk);
        InsertHolds(remote, Contents(), CACHE_SIZE, offset, chunk);
        PromotedElements(lruOrder, offset);
        cache := cache[offset := chunk];
        UpdateLRU(offset);
        EvictOldChunks();
      }
    }

    /** GetChunk, whatever the network does. */
    method GetSomehow(offset: nat) returns (chunk: Chunk, ghost access: Access)
      requires Valid() && remote.Key(offset)
      modifies this`cache, this`lruOrder
      ensures Valid() && access == Access(offset, chunk)
      ensures Contents() == FetcherGet(old(Contents()), 8, offset, access.fetched)
      ensures chunk.offset == offset && remote.ChunkOk(chunk)
    {
      var net: Network := *;
      chunk, access := GetChunk(offset, net);
    }

    /** The chunk that holds the position reached, and as much of it as fits. */
    method ReadPiece(buf: array<byte>, at: nat, off: nat) returns (n: nat, err: Option<Error>, ghost access: Access)
      requires Valid() && off + at < |remote.bytes| && at < buf.Length
      modifies this`cache, this`lruOrder, buf
      ensures Valid() && Contents() == FetcherGet(old(Contents()), CACHE_SIZE, access.off, access.fetched)
      ensures access.off == access.fetched.offset == remote.ChunkStart(off + at)
      ensures remote.ChunkOk(access.fetched) && err == access.fetched.err
      ensures at + n <= buf.Length && (err.None? <==> n > 0)
      ensures buf[..at + n] == Extended(old(buf[..at]), access.fetched, off, buf.Length)
      ensures forall i :: at + n <= i < buf.Length ==> buf[i] == old(buf[i])
    {
      var chunkOffset := remote.ChunkStart(off + at);
      StartIsKey(remote, off + at);
      var chunk;
      chunk, access := GetSomehow(chunkOffset);
      n, err := 0, chunk.err;
      if err.None? {
        n := CopyFromChunk(remote, chunk, off + at, buf, at);
        assert buf[..at + n] == buf[..at] + buf[at..at + n];
      }
    }

    /**
     One round of ReadAt: start is the cache before the first round, gets are the gets of the rounds so far,
     more are those with this round's.
     */
    method ReadRound(buf: array<byte>, at: nat, off: nat, ghost start: Cache, ghost gets: seq<Access>)
      returns (n: nat, err: Option<Error>, ghost more: seq<Access>)
      requires Valid() && off + at < |remote.bytes| && at < buf.Length
      requires Going(remote, gets, off, buf.Length, buf[..at]) && Contents() == FetcherRun(start, CACHE_SIZE, gets)
      modifies this`cache, this`lruOrder, buf
      ensures Valid() && Contents() == FetcherRun(start, CACHE_SIZE, more)
      ensures at + n <= buf.Length
      ensures forall i :: at + n <= i < buf.Length ==> buf[i] == old(buf[i])
      ensures err.None? ==> n > 0 && Going(remote, more, off, buf.Length, buf[..at + n])
      ensures err.Some? ==>
                n == 0 && Ended(remote, more, off, buf.Length, ReadResult(buf[..at], if at == 0 then err else None))
    {
      ghost var data, access := buf[..at], Access(0, Chunk(0, [], None));
      n, err, access := ReadPiece(buf, at, off);
      more := gets + [access];
      FetcherRunSnoc(start, CACHE_SIZE, gets, access);
      GoingOn(remote, gets, off, buf.Length, data, access);
    }

    /** readAhead is the offset handed to the prefetch goroutine, which is started when the buffer was filled. */
    method ReadAt(buf: array<byte>, off: nat)
      returns (bytesRead: nat, err: Option<Error>, readAhead: Option<nat>, ghost gets: seq<Access>)
      requires Valid()
      modifies this`cache, this`lruOrder, buf
      ensures Valid() && bytesRead <= buf.Length
      ensures forall i :: bytesRead <= i < buf.Length ==> buf[i] == old(buf[i])
      ensures Contents() == FetcherRun(old(Contents()), CACHE_SIZE, gets)
      ensures if off >= |remote.bytes| then bytesRead == 0 && err == Some(EOF) && gets == []
              else Ended(remote, gets, off, buf.Length, ReadResult(buf[..bytesRead], err))
      ensures ReadOk(remote.bytes, |remote.bytes|, off, buf.Length, ReadResult(buf[..bytesRead], err))
      ensures off < |remote.bytes| ==> (bytesRead == Min(buf.Length, |remote.bytes| - off) <==> !EndsInError(gets))
      ensures readAhead.Some? <==> bytesRead == buf.Length && off + bytesRead < |remote.bytes|
      ensures readAhead.Some? ==> readAhead.value == off + bytesRead
    {
      if off >= |remote.bytes| {
        return 0, Some(EOF), None, [];
      }
      bytesRead, err, readAhead, gets := ReadRounds(buf, off);
      ResultOk(remote, gets, off, buf.Length, ReadResult(buf[..bytesRead], err));
    }

    /** The loop of ReadAt. */
    method ReadRounds(buf: array<byte>, off: nat)
      returns (bytesRead: nat, err: Option<Error>, readAhead: Option<nat>, ghost gets: seq<Access>)
      requires Valid() && off < |remote.bytes|
      modifies this`cache, this`lruOrder, buf
      ensures Valid() && bytesRead <= buf.Length
      ensures forall i :: bytesRead <= i < buf.Length ==> buf[i] == old(buf[i])
      ensures Contents() == FetcherRun(old(Contents()), CACHE_SIZE, gets)
      ensures Ended(remote, gets, off, buf.Length, ReadResult(buf[..bytesRead], err))
      ensures readAhead.Some? <==> bytesRead == buf.Length && off + bytesRead < |remote.bytes|
      ensures readAhead.Some? ==> readAhead.value == off + bytesRead
    {
      ghost var start := Contents();
      gets, readAhead, bytesRead, err := [], None, 0, None;
      var offset := off;
      while bytesRead < buf.Length
        invariant bytesRead <= buf.Length && offset == off + bytesRead < |remote.bytes| && err.None? && readAhead.None?
        invariant Going(remote, gets, off, buf.Length, buf[..bytesRead])
        invariant forall i :: bytesRead <= i < buf.Length ==> buf[i] == old(buf[i])
        invariant Valid() && Contents() == FetcherRun(start, CACHE_SIZE, gets)
      {
        var n, trouble;
        n, trouble, gets := ReadRound(buf, bytesRead, off, start, gets);
        if trouble.Some? {
          if bytesRead == 0 {
            err := trouble;
          }
          return;
        }
        bytesRead := bytesRead + n;
        offset := offset + n;
        if offset >= |remote.bytes| {
          if bytesRead == 0 {
            assert false;  // io.EOF: no chunk is copied without a byte
          }
          GoingEnds(remote, gets, off, buf.Length, buf[..bytesRead]);
          return;
        }
      }
      GoingEnds(remote, gets, off, buf.Length, buf[..bytesRead]);
      readAhead := Some(offset);
    }

    /**
     The offsets for which prefetch starts a background getChunk. The cache is looked at anew in each round,
     while other callers change it: cachedAt(i) are the keys that round i finds.
     */
    method Prefetch(offset: nat, cachedAt: nat -> set<nat>) returns (started: seq<nat>)
      requires Valid()
      ensures started == ReadAhead(cachedAt, |remote.bytes|, offset, 16)
    {
      started := [];
      var i := 1;
      while i <= MAX_READAHEAD / CHUNK_SIZE
        invariant 1 <= i <= MAX_READAHEAD / CHUNK_SIZE + 1
        invariant started == ReadAhead(cachedAt, |remote.bytes|, offset, i - 1)
      {
        var nextOffset := (offset / CHUNK_SIZE + i) * CHUNK_SIZE;
        if nextOffset >= |remote.bytes| {
          ReadAheadEnds(cachedAt, |remote.bytes|, offset, i - 1, MAX_READAHEAD / CHUNK_SIZE);
          break;
        }
        if nextOffset !in cachedAt(i) {
          started := started + [nextOffset];
        }
        i := i + 1;
      }
    }
  }

  /** Checks the size, asks the server with a HEAD request, and only then makes the fetcher. */
  method NewFetcher(bytes: seq<byte>, size: int, head: Option<Head>) returns (f: Fetcher?, error: Option<OpenError>)
    requires size > 0 ==> |bytes| == size
    ensures error == Refusal(size, head) && (f == null <==> error.Some?)
    ensures f != null ==> fresh(f) && f.Valid() && f.remote.bytes == bytes && f.Contents() == EmptyCache
  {
    f := null;
    if size <= 0 {
      return f, Some(InvalidSize);
    }
    if head.None? {
      return f, Some(HeadFailed);
    }
    if head.value.status != STATUS_OK {
      return f, Some(BadStatus);
    }
    if head.value.acceptRanges != "bytes" {
      return f, Some(NoRanges);
    }
    f := new Fetcher(bytes);
    error := None;
  }

  /** The k-th chunk after the one that holds offset. */
  function ReadAheadKey(offset: nat, k: nat): nat {
    (offset / CHUNK_SIZE + k) * CHUNK_SIZE
  }

  /** Those of the next n chunks that are inside the file and not cached when their turn comes. */
  function ReadAhead(cachedAt: nat -> set<nat>, size: nat, offset: nat, n: nat): seq<nat> {
    if n == 0 then []
    else
      var before, key := ReadAhead(cachedAt, size, offset, n - 1), ReadAheadKey(offset, n);
      if key < size && key !in cachedAt(n) then before + [key] else before
  }

  lemma {:induction false} ReadAheadEnds(cachedAt: nat -> set<nat>, size: nat, offset: nat, n: nat, m: nat)
    requires n <= m && ReadAheadKey(offset, n + 1) >= size
    ensures ReadAhead(cachedAt, size, offset, m) == ReadAhead(cachedAt, size, offset, n)
  {
    if n < m {
      ReadAheadEnds(cachedAt, size, offset, n, m - 1);
    }
  }

  /**
   What is read ahead: the k-th chunk of 4 MiB after the one that holds offset, exactly if it is inside the file
   and round k did not find it cached.
   */
  lemma {:induction false} ReadAheadIs(cachedAt: nat -> set<nat>, size: nat, offset: nat, n: nat, k: nat)
    requires k > 0
    ensures var o := offset / 4194304 * 4194304 + k * 4194304;
            o in ReadAhead(cachedAt, size, offset, n) <==> k <= n && o < size && o !in cachedAt(k)
  {
    if n > 0 {
      ReadAheadIs(cachedAt, size, offset, n - 1, k);
    }
  }

  /** Nothing but next chunks is read ahead. */
  lemma {:induction false} ReadAheadOnly(cachedAt: nat -> set<nat>, size: nat, offset: nat, n: nat, o: nat)
    requires o in ReadAhead(cachedAt, size, offset, n)
    ensures offset < o <= ReadAheadKey(offset, n) && o % 4194304 == 0 && o < size
  {
    var before := ReadAhead(cachedAt, size, offset, n - 1);
    if o in before {
      ReadAheadOnly(cachedAt, size, offset, n - 1, o);
    }
  }

  predicate Ascending(s: seq<nat>) {
    forall i, j :: 0 <= i < j < |s| ==> s[i] < s[j]
  }

  lemma AscendingAppend(s: seq<nat>, x: nat)
    requires Ascending(s) && forall i :: 0 <= i < |s| ==> s[i] < x
    ensures Ascending(s + [x])
  {
  }

  /** No chunk is handed out twice, and nearer chunks come first. */
  lemma {:induction false} ReadAheadAscends(cachedAt: nat -> set<nat>, size: nat, offset: nat, n: nat)
    ensures Ascending(ReadAhead(cachedAt, size, offset, n))
  {
    if n > 0 {
      var before := ReadAhead(cachedAt, size, offset, n - 1);
      ReadAheadAscends(cachedAt, size, offset, n - 1);
      forall i | 0 <= i < |before| ensures before[i] < ReadAheadKey(offset, n) {
        ReadAheadOnly(cachedAt, size, offset, n - 1, before[i]);
      }
      AscendingAppend(before, ReadAheadKey(offset, n));
    }
  }
}
