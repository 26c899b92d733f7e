/** What reads may return, and the copying of bytes into a caller's buffer. */
module Reads {
  import opened Common

  /**
   What a ReadAt of len bytes at off may return when the store declares size bytes and serves
   content: bytes of content from off on, no more than asked for; a clean EOF only at its end; never
   an empty success for a non-empty buffer; and a failed transfer only inside the declared size. The words
   of BackingStore ask for more: all len bytes, or fewer at the end only.
   */
  ghost predicate ReadOk(content: seq<byte>, size: nat, off: nat, len: nat, r: ReadResult) {
    && |r.data| <= len
    && (r.data != [] ==> off + |r.data| <= |content| && r.data == content[off..off + |r.data|])
    && (r.err == Some(EOF) ==> r.data == [] && off >= |content|)
    && (r.err.None? && len > 0 ==> r.data != [])
    && (r.err.Some? && WrapsEOF(r.err.value) ==> r.data == [] && off < size)
  }

  const EIO: int := 5
  const EBADF: int := 9

  /** fuseFS.Read: the byte count, or a negative error number; found says whether the handle is known. */
  function FuseRead(found: bool, r: ReadResult): int {
    if !found then -EBADF
    else if r.err.None? then |r.data|
    else if r.err.value == EOF || WrapsEOF(r.err.value) then |r.data|
    else if |r.data| == 0 then -EIO
    else |r.data|
  }

  /**
   What Read reports: bytes that were read are never lost, whatever error is beside them; it is negative only for
   an unknown handle or a failure without a byte; and zero only without a byte, at the end or what passes for it.
   */
  lemma ReadReports(r: ReadResult)
    ensures FuseRead(false, r) == -9
    ensures r.data != [] ==> FuseRead(true, r) == |r.data|
    ensures FuseRead(true, r) == -5 <==> r.data == [] && r.err.Some? && r.err.value != EOF && !WrapsEOF(r.err.value)
    ensures FuseRead(true, r) == 0 <==> r.data == [] && (r.err.None? || r.err.value == EOF || WrapsEOF(r.err.value))
  {
  }

  /** Go's copy into p[at..], for a source that fits. */
  method Copy(p: array<byte>, at: nat, data: seq<byte>)
    requires at + |data| <= p.Length
    modifies p
    ensures p[..at] == old(p[..at]) && p[at..at + |data|] == data
    ensures forall i :: at + |data| <= i < p.Length ==> p[i] == old(p[i])
  {
    forall i | 0 <= i < |data| {
      p[at + i] := data[i];
    }
  }
}
