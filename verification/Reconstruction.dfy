/**
 End to end: reading a file through fuseFS.Read from the start, advancing by each result until it is
 zero, over either store.
 */
module Reconstruction {
  import opened Common
  import opened Reads
  import TempFileProtocol
  import TempFileSafety

  /** One call of Read on an open handle: the buffer's length and what the store's ReadAt returned. */
  datatype Call = Call(len: nat, result: ReadResult)

  function Bytes(calls: seq<Call>): seq<byte> {
    if calls == [] then [] else Bytes(calls[..|calls| - 1]) + calls[|calls| - 1].result.data
  }

  /** The offset a client keeps: it adds up what Read returned; a negative result does not move it. */
  function Offset(calls: seq<Call>): nat {
    if calls == [] then 0
    else
      var n := FuseRead(true, calls[|calls| - 1].result);
      Offset(calls[..|calls| - 1]) + if n > 0 then n else 0
  }

  /** Each call is made at the offset reached, has a non-empty buffer and does not fail. */
  ghost predicate Sequential(content: seq<byte>, size: nat, calls: seq<Call>) {
    calls != [] ==>
      var init, last := calls[..|calls| - 1], calls[|calls| - 1];
      && Sequential(content, size, init)
      && last.len > 0
      && ReadOk(content, size, Offset(init), last.len, last.result)
      && FuseRead(true, last.result) >= 0
  }

  /** The offset of the client is the number of bytes it has got. */
  lemma {:induction false} OffsetCountsBytes(content: seq<byte>, size: nat, calls: seq<Call>)
    requires Sequential(content, size, calls)
    ensures Offset(calls) == |Bytes(calls)|
  {
    if calls != [] {
      OffsetCountsBytes(content, size, calls[..|calls| - 1]);
    }
  }

  /** At every moment the client holds a prefix of the content. */
  lemma {:induction false} PrefixSoFar(content: seq<byte>, size: nat, calls: seq<Call>)
    requires Sequential(content, size, calls)
    ensures |Bytes(calls)| <= |content| && Bytes(calls) == content[..|Bytes(calls)|]
  {
    if calls != [] {
      var init, last := calls[..|calls| - 1], calls[|calls| - 1];
      PrefixSoFar(content, size, init);
      OffsetCountsBytes(content, size, init);
      PrefixGrows(content, Bytes(init), last.result.data);
    }
  }

  lemma PrefixGrows(content: seq<byte>, got: seq<byte>, more: seq<byte>)
    requires |got| <= |content| && got == content[..|got|]
    requires more != [] ==> |got| + |more| <= |content| && more == content[|got|..|got| + |more|]
    ensures |got + more| <= |content| && got + more == content[..|got + more|]
  {
    if more == [] {
      assert got + more == got;
    }
  }

  /** A read that returned zero is either the clean end of the content or a failure taken for it. */
  lemma ZeroIsTheEnd(content: seq<byte>, size: nat, off: nat, c: Call)
    requires c.len > 0 && ReadOk(content, size, off, c.len, c.result) && FuseRead(true, c.result) == 0
    ensures c.result.err.Some?
    ensures if WrapsEOF(c.result.err.value) then off < size else off >= |content|
  {
  }

  /**
   Reconstruction. When the last call returned zero and none was negative, the client holds exactly the
   content, unless that zero came from a transport failure wrapping io.EOF; and when the store serves
   as many bytes as it declares, such a failure always leaves the client with less. Short reads after
   chunk errors, and any choice of buffer sizes, do not matter.
   */
  lemma Reconstructs(content: seq<byte>, size: nat, calls: seq<Call>)
    requires Sequential(content, size, calls) && calls != [] && |content| <= size
    requires FuseRead(true, calls[|calls| - 1].result) == 0
    ensures var e := calls[|calls| - 1].result.err;
            && e.Some?
            && (!WrapsEOF(e.value) ==> Bytes(calls) == content)
            && (|content| == size ==> (Bytes(calls) == content <==> !WrapsEOF(e.value)))
  {
    var init, last := calls[..|calls| - 1], calls[|calls| - 1];
    PrefixSoFar(content, size, init);
    OffsetCountsBytes(content, size, init);
    ZeroIsTheEnd(content, size, Offset(init), last);
    assert content[..|content|] == content;
  }

  /** A client gets to a zero or a failure after at most one call for each byte. */
  lemma {:induction false} ProgressOfReads(content: seq<byte>, size: nat, calls: seq<Call>)
    requires Sequential(content, size, calls)
    requires forall i :: 0 <= i < |calls| ==> FuseRead(true, calls[i].result) > 0
    ensures |calls| <= |Bytes(calls)| <= |content|
  {
    PrefixSoFar(content, size, calls);
    if calls != [] {
      ProgressOfReads(content, size, calls[..|calls| - 1]);
      assert FuseRead(true, calls[|calls| - 1].result) > 0;
    }
  }

  /** What a TempFileStore serves: the delivered body, cut at the declared size. */
  function TempFileContent(c: TempFileProtocol.Config): seq<byte> {
    Slice(c.body, 0, c.size)
  }

  /**
   TempFileStore meets the contract in every interleaving with the download and with closers, for a content
   that is the whole file exactly if the body is long enough.
   */
  lemma TempFileReadOk(c: TempFileProtocol.Config, s: TempFileProtocol.State, id: nat)
    requires TempFileProtocol.Reachable(c, s) && id in s.readers && s.readers[id].pc.Returned?
    ensures var r := s.readers[id]; ReadOk(TempFileContent(c), c.size, r.off, r.len, r.pc.result)
    ensures |TempFileContent(c)| <= c.size
    ensures |TempFileContent(c)| == c.size <==> |c.body| >= c.size
  {
    var r := s.readers[id];
    TempFileSafety.StreamingRead(c, s, id);
    var res := r.pc.result;
    if res.data != [] {
      DataFromContent(c.body, c.size, r.off, TempFileProtocol.WantEnd(c, r), res.data);
    }
  }

  lemma DataFromContent(body: seq<byte>, size: nat, off: nat, end: nat, data: seq<byte>)
    requires end <= size && data <= Slice(body, off, end) && data != []
    ensures var content := Slice(body, 0, size);
            off + |data| <= |content| && data == content[off..off + |data|] && |data| <= end - off
  {
    assert Slice(body, off, end) == body[off..Min(end, |body|)];
    assert Slice(body, 0, size) == body[..Min(size, |body|)];
  }
}
