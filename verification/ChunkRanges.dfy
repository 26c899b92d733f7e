/** The byte ranges that the chunk caches request from the server. */
module ChunkRanges {
  import opened Common
  import opened ChunkCache

  /** The remote file and the chunk size a store works with. */
  datatype Remote = Remote(bytes: seq<byte>, chunkSize: nat) {
    predicate Valid() {
      |bytes| > 0 && chunkSize > 0
    }

    /** The key of the chunk that holds position pos. */
    function ChunkStart(pos: nat): nat
      requires chunkSize > 0
    {
      (pos / chunkSize) * chunkSize
    }

    /** The last position of the chunk at off: the inclusive end of its range request. */
    function ChunkEnd(off: nat): int {
      if off + chunkSize - 1 >= |bytes| then |bytes| - 1 else off + chunkSize - 1
    }

    predicate Aligned(off: nat)
      requires chunkSize > 0
    {
      ChunkStart(off) == off
    }

    /** A key of the cache: chunk-aligned and inside the file. */
    predicate Key(off: nat)
      requires chunkSize > 0
    {
      Aligned(off) && off < |bytes|
    }

    /** The answer to a range request (sections 14.1.2 and 15.3.7 of RFC 9110): exactly the inclusive range. */
    function Answer(first: nat, last: int): seq<byte>
      requires first <= last < |bytes|
    {
      bytes[first..last + 1]
    }

    /** A chunk agrees with the remote file, or holds an error and no data. */
    predicate ChunkOk(chunk: Chunk) {
      if chunk.err.None? then
        chunk.offset < |bytes| && chunkSize > 0 && chunk.data == Answer(chunk.offset, ChunkEnd(chunk.offset))
      else chunk.data == [] && (chunk.err.value.Cancelled? || chunk.err.value.FetchFailed?)
    }

    /** What ties a cache to the remote file: keys are chunk starts and every chunk agrees with the file. */
    ghost predicate Holds(c: Cache) {
      && chunkSize > 0
      && (forall o :: o in c.chunks ==> Key(o) && c.chunks[o].offset == o && ChunkOk(c.chunks[o]))
    }
  }

  lemma {:induction false} MultipleMonotonic(a: nat, b: nat, n: nat)
    requires a < b
    ensures a * n + n <= b * n
    decreases b
  {
    if a + 1 < b {
      MultipleMonotonic(a, b - 1, n);
    }
    assert b * n == (b - 1) * n + n;
  }

  /** The quotient is the only multiple whose slot holds pos. */
  lemma QuotientUnique(pos: nat, q: nat, n: nat)
    requires n > 0
    ensures pos / n * n <= pos < pos / n * n + n
    ensures q * n <= pos < q * n + n ==> q == pos / n
  {
    var d := pos / n;
    assert pos == d * n + pos % n;
    if q < d {
      MultipleMonotonic(q, d, n);
    } else if d < q {
      MultipleMonotonic(d, q, n);
    }
  }

  lemma StartIsKey(r: Remote, pos: nat)
    requires r.Valid() && pos < |r.bytes|
    ensures r.Key(r.ChunkStart(pos))
    ensures r.ChunkStart(pos) <= pos <= r.ChunkEnd(r.ChunkStart(pos))
  {
    QuotientUnique(pos, 0, r.chunkSize);
    QuotientUnique(r.ChunkStart(pos), pos / r.chunkSize, r.chunkSize);
  }

  /**
   The requested ranges tile the file: every position lies in the range of exactly one key, its own
   chunk start, so ranges are non-empty, disjoint and cover everything.
   */
  lemma RangesTile(r: Remote, pos: nat, off: nat)
    requires r.Valid() && pos < |r.bytes| && r.Key(off)
    ensures off <= pos <= r.ChunkEnd(off) <==> off == r.ChunkStart(pos)
  {
    StartIsKey(r, pos);
    QuotientUnique(pos, off / r.chunkSize, r.chunkSize);
  }

  lemma InsertHolds(r: Remote, c: Cache, capacity: nat, off: nat, chunk: Chunk)
    requires r.Holds(c) && r.Key(off) && chunk.offset == off && r.ChunkOk(chunk)
    ensures r.Holds(Insert(c, capacity, off, chunk))
  {
  }
}
