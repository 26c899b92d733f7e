/**
 ReadAt over chunks, as a function of what its getChunk calls returned. The classes are proved against
 this module; its results need only that each chunk agrees with the remote file, so they also hold when
 the chunks come from competing callers.
 */
module ChunkReads {
  import opened Common
  import opened ChunkCache
  import opened ChunkRanges
  import opened Reads

  /** What a chunk contributes to a read at pos with room bytes left in the buffer. */
  function Piece(chunk: Chunk, pos: nat, room: nat): seq<byte> {
    if chunk.offset <= pos then Slice(chunk.data, pos - chunk.offset, pos - chunk.offset + room) else []
  }

  /** The bytes in the buffer after one more get. */
  function Extended(before: seq<byte>, chunk: Chunk, off: nat, len: nat): (s: seq<byte>)
    requires |before| <= len
    ensures |s| <= len
  {
    if chunk.err.Some? then before else before + Piece(chunk, off + |before|, len - |before|)
  }

  /** The bytes in the buffer after these gets of a read of len bytes at off. */
  function Copied(gets: seq<Access>, off: nat, len: nat): (s: seq<byte>)
    ensures |s| <= len
  {
    if gets == [] then []
    else Extended(Copied(gets[..|gets| - 1], off, len), gets[|gets| - 1].fetched, off, len)
  }

  predicate EndsInError(gets: seq<Access>) {
    gets != [] && gets[|gets| - 1].fetched.err.Some?
  }

  /** What ReadAt returns after these gets: an error is reported only if it came before the first byte. */
  function Outcome(gets: seq<Access>, off: nat, len: nat): ReadResult {
    var data := Copied(gets, off, len);
    ReadResult(data, if EndsInError(gets) && data == [] then gets[|gets| - 1].fetched.err else None)
  }

  /** After these gets the loop is over: an error, a full buffer, or the end of the file. */
  predicate Over(r: Remote, gets: seq<Access>, off: nat, len: nat) {
    EndsInError(gets) || |Copied(gets, off, len)| == len || off + |Copied(gets, off, len)| >= |r.bytes|
  }

  /** Each get was made while the loop was not over, for the chunk that holds the position reached. */
  ghost predicate InOrder(r: Remote, gets: seq<Access>, off: nat, len: nat)
    requires r.chunkSize > 0
  {
    gets != [] ==>
      var init, last := gets[..|gets| - 1], gets[|gets| - 1];
      && InOrder(r, init, off, len) && !Over(r, init, off, len)
      && last.off == r.ChunkStart(off + |Copied(init, off, len)|)
  }

  /** Every chunk handed out is the one asked for and agrees with the remote file, or holds an error. */
  ghost predicate Answered(r: Remote, gets: seq<Access>) {
    forall i :: 0 <= i < |gets| ==> gets[i].fetched.offset == gets[i].off && r.ChunkOk(gets[i].fetched)
  }

  /** data is what the file holds from off on. */
  ghost predicate FromFile(r: Remote, off: nat, data: seq<byte>) {
    off + |data| <= |r.bytes| && data == r.bytes[off..off + |data|]
  }

  /** after holds the file's bytes from off up to end, and more than before. */
  ghost predicate Further(r: Remote, off: nat, before: seq<byte>, after: seq<byte>, end: int) {
    FromFile(r, off, after) && |after| > |before| && off + |after| == end
  }

  lemma FromFileAppend(r: Remote, off: nat, a: seq<byte>, b: seq<byte>, end: int)
    requires FromFile(r, off, a) && FromFile(r, off + |a|, b) && b != [] && off + |a| + |b| == end
    ensures Further(r, off, a, a + b, end)
  {
  }

  /** The chunk is good and holds position pos. */
  predicate Serves(r: Remote, chunk: Chunk, pos: nat) {
    r.ChunkOk(chunk) && chunk.err.None? && chunk.offset <= pos <= r.ChunkEnd(chunk.offset)
  }

  lemma SliceOfSlice(s: seq<byte>, a: nat, b: nat, i: nat, j: nat)
    requires a <= b <= |s| && i <= j <= b - a
    ensures s[a..b][i..j] == s[a + i..a + j]
  {
    assert forall k :: 0 <= k < j - i ==> s[a..b][i..j][k] == s[a + i + k];
  }

  /** The part of a chunk that starts at pos is the part of the file that starts there; it is not empty. */
  lemma PieceFromFile(r: Remote, chunk: Chunk, pos: nat, room: nat)
    requires Serves(r, chunk, pos) && room > 0
    ensures FromFile(r, pos, Piece(chunk, pos, room)) && Piece(chunk, pos, room) != []
    ensures pos + |Piece(chunk, pos, room)| == Min(pos + room, r.ChunkEnd(chunk.offset) + 1)
  {
    var n, skip := Min(room, r.ChunkEnd(chunk.offset) + 1 - pos), pos - chunk.offset;
    SliceOfSlice(r.bytes, chunk.offset, r.ChunkEnd(chunk.offset) + 1, skip, skip + n);
  }

  lemma ExtendedByPiece(r: Remote, before: seq<byte>, chunk: Chunk, off: nat, len: nat, piece: seq<byte>, end: int)
    requires |before| < len && FromFile(r, off, before) && chunk.err.None?
    requires piece == Piece(chunk, off + |before|, len - |before|) && piece != []
    requires FromFile(r, off + |before|, piece) && off + |before| + |piece| == end
    ensures Further(r, off, before, Extended(before, chunk, off, len), end)
  {
    FromFileAppend(r, off, before, piece, end);
  }

  /** One more good chunk takes the read to the end of the chunk or of the buffer. */
  lemma ExtendedFromFile(r: Remote, before: seq<byte>, chunk: Chunk, off: nat, len: nat)
    requires |before| < len && FromFile(r, off, before) && Serves(r, chunk, off + |before|)
    ensures Further(r, off, before, Extended(before, chunk, off, len), Min(off + len, r.ChunkEnd(chunk.offset) + 1))
  {
    var pos, room := off + |before|, len - |before|;
    var piece := Piece(chunk, pos, room);
    PieceFromFile(r, chunk, pos, room);
    ExtendedByPiece(r, before, chunk, off, len, piece, pos + |piece|);
  }

  lemma StartServes(r: Remote, chunk: Chunk, pos: nat)
    requires r.Valid() && pos < |r.bytes| && r.ChunkOk(chunk) && chunk.err.None? && chunk.offset == r.ChunkStart(pos)
    ensures Serves(r, chunk, pos)
  {
    StartIsKey(r, pos);
  }

  /** What the last get was made for, and what it gave. */
  lemma LastGet(r: Remote, gets: seq<Access>, off: nat, len: nat)
    requires r.Valid() && gets != [] && InOrder(r, gets, off, len) && Answered(r, gets)
    ensures var init, last := gets[..|gets| - 1], gets[|gets| - 1];
            && InOrder(r, init, off, len) && Answered(r, init)
            && off + |Copied(init, off, len)| < |r.bytes| && |Copied(init, off, len)| < len
            && (last.fetched.err.None? ==> Serves(r, last.fetched, off + |Copied(init, off, len)|))
            && last.off == last.fetched.offset
            && Copied(gets, off, len) == Extended(Copied(init, off, len), last.fetched, off, len)
  {
    if gets[|gets| - 1].fetched.err.None? {
      StartServes(r, gets[|gets| - 1].fetched, off + |Copied(gets[..|gets| - 1], off, len)|);
    }
  }

  /** However far the loop got, the buffer holds the file's bytes from off on. */
  lemma {:induction false} CopiedFromFile(r: Remote, gets: seq<Access>, off: nat, len: nat)
    requires r.Valid() && off < |r.bytes| && InOrder(r, gets, off, len) && Answered(r, gets)
    ensures FromFile(r, off, Copied(gets, off, len))
  {
    if gets != [] {
      var init, last := gets[..|gets| - 1], gets[|gets| - 1];
      LastGet(r, gets, off, len);
      CopiedFromFile(r, init, off, len);
      if last.fetched.err.None? {
        ExtendedFromFile(r, Copied(init, off, len), last.fetched, off, len);
      }
    }
  }

  // ----- one round of the loop -----

  /** The loop goes on: data is in the buffer and no get has failed. */
  ghost predicate Going(r: Remote, gets: seq<Access>, off: nat, len: nat, data: seq<byte>)
    requires r.chunkSize > 0
  {
    InOrder(r, gets, off, len) && Answered(r, gets) && !EndsInError(gets) && data == Copied(gets, off, len)
  }

  /** The loop has ended with this result. */
  ghost predicate Ended(r: Remote, gets: seq<Access>, off: nat, len: nat, result: ReadResult)
    requires r.chunkSize > 0
  {
    InOrder(r, gets, off, len) && Answered(r, gets) && Over(r, gets, off, len) && result == Outcome(gets, off, len)
  }

  lemma CopiedSnoc(gets: seq<Access>, a: Access, off: nat, len: nat)
    ensures Copied(gets + [a], off, len) == Extended(Copied(gets, off, len), a.fetched, off, len)
    ensures EndsInError(gets + [a]) <==> a.fetched.err.Some?
  {
    assert (gets + [a])[..|gets|] == gets;
  }

  lemma InOrderSnoc(r: Remote, gets: seq<Access>, a: Access, off: nat, len: nat)
    requires r.Valid() && InOrder(r, gets, off, len) && !Over(r, gets, off, len)
    requires a.off == r.ChunkStart(off + |Copied(gets, off, len)|)
    ensures InOrder(r, gets + [a], off, len)
  {
    assert (gets + [a])[..|gets|] == gets;
  }

  lemma AnsweredSnoc(r: Remote, gets: seq<Access>, a: Access)
    requires Answered(r, gets) && a.fetched.offset == a.off && r.ChunkOk(a.fetched)
    ensures Answered(r, gets + [a])
  {
  }

  lemma GoingOn(r: Remote, gets: seq<Access>, off: nat, len: nat, data: seq<byte>, a: Access)
    requires r.Valid() && Going(r, gets, off, len, data) && |data| < len && off + |data| < |r.bytes|
    requires a.off == a.fetched.offset == r.ChunkStart(off + |data|) && r.ChunkOk(a.fetched)
    ensures a.fetched.err.None? ==> Going(r, gets + [a], off, len, Extended(data, a.fetched, off, len))
    ensures a.fetched.err.Some? ==>
              Ended(r, gets + [a], off, len, ReadResult(data, if data == [] then a.fetched.err else None))
  {
    InOrderSnoc(r, gets, a, off, len);
    CopiedSnoc(gets, a, off, len);
    AnsweredSnoc(r, gets, a);
    assert (gets + [a])[|gets|] == a;
  }

  lemma GoingEnds(r: Remote, gets: seq<Access>, off: nat, len: nat, data: seq<byte>)
    requires r.Valid() && Going(r, gets, off, len, data) && (|data| == len || off + |data| >= |r.bytes|)
    ensures Ended(r, gets, off, len, ReadResult(data, None))
  {
  }

  // ----- results -----

  /**
   Transparency of ReadAt: whatever its gets returned, the result keeps ReadOk, and it is as long as the
   buffer and the file allow exactly when no get returned an error. It is short without an error, which the
   words of BackingStore do not allow, exactly when a get after the first byte returned one.
   */
  lemma ResultOk(r: Remote, gets: seq<Access>, off: nat, len: nat, result: ReadResult)
    requires r.Valid() && off < |r.bytes| && Ended(r, gets, off, len, result)
    ensures ReadOk(r.bytes, |r.bytes|, off, len, result)
    ensures |result.data| == Min(len, |r.bytes| - off) <==> !EndsInError(gets)
    ensures result.err.None? && |result.data| < Min(len, |r.bytes| - off) <==> EndsInError(gets) && result.data != []
  {
    CopiedFromFile(r, gets, off, len);
    if EndsInError(gets) {
      assert Copied(gets, off, len) == Copied(gets[..|gets| - 1], off, len);
      assert r.ChunkOk(gets[|gets| - 1].fetched);
    }
  }

  /** The position reached after error-free gets: the end of the last chunk or of the buffer. */
  lemma PositionReached(r: Remote, gets: seq<Access>, off: nat, len: nat)
    requires r.Valid() && off < |r.bytes| && gets != [] && !EndsInError(gets)
    requires InOrder(r, gets, off, len) && Answered(r, gets)
    ensures off + |Copied(gets, off, len)| == Min(off + len, r.ChunkEnd(gets[|gets| - 1].off) + 1)
  {
    var init, last := gets[..|gets| - 1], gets[|gets| - 1];
    LastGet(r, gets, off, len);
    CopiedFromFile(r, init, off, len);
    ExtendedFromFile(r, Copied(init, off, len), last.fetched, off, len);
  }

  /** After an error-free get that did not end the read, the next one asks for the next chunk. */
  lemma NextAsked(r: Remote, gets: seq<Access>, off: nat, len: nat)
    requires r.Valid() && off < |r.bytes| && gets != [] && !Over(r, gets, off, len)
    requires InOrder(r, gets, off, len) && Answered(r, gets)
    ensures off + |Copied(gets, off, len)| == gets[|gets| - 1].off + r.chunkSize
  {
    PositionReached(r, gets, off, len);
  }

  /** Right after the end of a chunk comes the start of the next one. */
  lemma NextStart(r: Remote, start: nat)
    requires r.Valid() && r.Aligned(start)
    ensures r.ChunkStart(start + r.chunkSize) == start + r.chunkSize
  {
    var q := start / r.chunkSize;
    assert start + r.chunkSize == (q + 1) * r.chunkSize;
    QuotientUnique(start + r.chunkSize, q + 1, r.chunkSize);
  }

  lemma StartAligned(r: Remote, pos: nat)
    requires r.Valid()
    ensures r.Aligned(r.ChunkStart(pos))
  {
    QuotientUnique(r.ChunkStart(pos), pos / r.chunkSize, r.chunkSize);
  }

  /** Get i asks for the chunk that holds off, or for the one right after the chunk of the get before. */
  predicate NextInFile(r: Remote, gets: seq<Access>, off: nat, i: nat)
    requires r.chunkSize > 0 && i < |gets|
  {
    r.Aligned(gets[i].off) && gets[i].off == if i == 0 then r.ChunkStart(off) else gets[i - 1].off + r.chunkSize
  }

  lemma LastInFile(r: Remote, gets: seq<Access>, off: nat, len: nat)
    requires r.Valid() && off < |r.bytes| && gets != [] && InOrder(r, gets, off, len) && Answered(r, gets)
    requires |gets| > 1 ==> r.Aligned(gets[|gets| - 2].off)
    ensures NextInFile(r, gets, off, |gets| - 1)
  {
    var init := gets[..|gets| - 1];
    StartAligned(r, off + |Copied(init, off, len)|);
    if init != [] {
      NextAsked(r, init, off, len);
      NextStart(r, init[|init| - 1].off);
    }
  }

  lemma StillInFile(r: Remote, gets: seq<Access>, off: nat, i: nat)
    requires r.Valid() && i + 1 < |gets| && NextInFile(r, gets[..|gets| - 1], off, i)
    ensures NextInFile(r, gets, off, i) && r.Aligned(gets[i].off)
  {
  }

  /** The chunks are asked for once each, in file order and without a gap. */
  lemma {:induction false} EachChunkOnce(r: Remote, gets: seq<Access>, off: nat, len: nat, i: nat)
    requires r.Valid() && off < |r.bytes| && i < |gets|
    requires InOrder(r, gets, off, len) && Answered(r, gets)
    ensures NextInFile(r, gets, off, i)
  {
    if i + 1 < |gets| {
      EachChunkOnce(r, gets[..|gets| - 1], off, len, i);
      StillInFile(r, gets, off, i);
    } else {
      if i > 0 {
        EachChunkOnce(r, gets[..|gets| - 1], off, len, i - 1);
        StillInFile(r, gets, off, i - 1);
      }
      LastInFile(r, gets, off, len);
    }
  }

  /** Copies what the chunk holds from pos on, up to the room left in p; at least one byte. */
  method CopyFromChunk(r: Remote, chunk: Chunk, pos: nat, p: array<byte>, at: nat) returns (toCopy: nat)
    requires r.Valid() && pos < |r.bytes| && r.ChunkOk(chunk) && chunk.err.None?
    requires chunk.offset == r.ChunkStart(pos) && at < p.Length
    modifies p
    ensures toCopy == |Piece(chunk, pos, p.Length - at)| && 0 < toCopy <= p.Length - at
    ensures p[..at] == old(p[..at]) && p[at..at + toCopy] == Piece(chunk, pos, p.Length - at)
    ensures forall i :: at + toCopy <= i < p.Length ==> p[i] == old(p[i])
  {
    StartIsKey(r, pos);
    var offsetInChunk := pos - chunk.offset;
    var available := |chunk.data| - offsetInChunk;
    toCopy := p.Length - at;
    if toCopy > available {
      toCopy := available;
    }
    Copy(p, at, chunk.data[offsetInChunk..offsetInChunk + toCopy]);
  }
}
