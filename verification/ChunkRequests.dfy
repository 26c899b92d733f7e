/** fetchChunk: the semaphore, up to three range requests, and what becomes of their answers. */
module ChunkRequests {
  import opened Common
  import opened ChunkCache
  import opened ChunkRanges

  const MAX_ATTEMPTS: nat := 3

  /** One attempt: whether the delay before it was cut short, whether it is answered, and if not, by io.EOF. */
  datatype Attempt = Attempt(cancelled: bool, answered: bool, eof: bool)

  /** What the surroundings do to one fetch: slot tells whether it gets a semaphore slot. */
  datatype Network = Network(slot: bool, attempts: nat -> Attempt)

  /** Attempt k is made: no earlier one was answered, and no delay up to it was cut short. */
  ghost predicate Made(net: Network, k: nat) {
    && net.slot && k < MAX_ATTEMPTS
    && (forall i: nat :: i < k ==> !net.attempts(i).answered)
    && (forall i: nat :: 0 < i <= k ==> !net.attempts(i).cancelled)
  }

  ghost predicate SomeAnswer(net: Network) {
    exists k: nat :: Made(net, k) && net.attempts(k).answered
  }

  /** All attempts are made and none is answered. */
  ghost predicate AllFail(net: Network) {
    Made(net, MAX_ATTEMPTS - 1) && !net.attempts(MAX_ATTEMPTS - 1).answered
  }

  /**
   The chunk of a fetch: the exact range if an attempt that is made is answered, the last transport error if
   all fail, and otherwise the error of the context.
   */
  ghost predicate FetchedAs(r: Remote, net: Network, off: nat, chunk: Chunk)
    requires off <= r.ChunkEnd(off) < |r.bytes|
  {
    && chunk.offset == off
    && (SomeAnswer(net) ==> chunk.err.None? && chunk.data == r.Answer(off, r.ChunkEnd(off)))
    && (AllFail(net) ==> chunk.err == Some(FetchFailed(net.attempts(MAX_ATTEMPTS - 1).eof)))
    && (!SomeAnswer(net) && !AllFail(net) ==> chunk.err == Some(Cancelled))
    && (chunk.err.Some? ==> chunk.data == [])
  }

  lemma AnsweredAt(net: Network, k: nat)
    requires Made(net, k) && net.attempts(k).answered
    ensures SomeAnswer(net) && !AllFail(net)
  {
  }

  lemma CutShort(net: Network, k: nat)
    requires 0 < k < MAX_ATTEMPTS && net.attempts(k).cancelled
    requires forall i: nat :: i < k ==> !net.attempts(i).answered
    ensures !SomeAnswer(net) && !AllFail(net)
  {
  }

  /** One request: the exact inclusive range, or an error of the transport, perhaps io.EOF. */
  method Request(r: Remote, first: nat, last: int, attempt: Attempt) returns (data: Option<seq<byte>>, eof: bool)
    requires first <= last < |r.bytes|
    ensures data == if attempt.answered then Some(r.Answer(first, last)) else None
    ensures eof == attempt.eof
  {
    data, eof := if attempt.answered then Some(r.Answer(first, last)) else None, attempt.eof;
  }

  /** fetchChunk of both stores. */
  method FetchChunk(r: Remote, offset: nat, net: Network) returns (chunk: Chunk)
    requires r.Valid() && r.Key(offset)
    ensures offset <= r.ChunkEnd(offset) < |r.bytes| && FetchedAs(r, net, offset, chunk)
  {
    StartIsKey(r, offset);
    if !net.slot {
      return Chunk(offset, [], Some(Cancelled));
    }
    var endOffset := offset + r.chunkSize - 1;
    if endOffset >= |r.bytes| {
      endOffset := |r.bytes| - 1;
    }
    var attempt, lastErr := 0, false;
    while attempt < MAX_ATTEMPTS
      invariant attempt <= MAX_ATTEMPTS
      invariant attempt > 0 ==> Made(net, attempt - 1) && lastErr == net.attempts(attempt - 1).eof
      invariant forall k: nat :: k < attempt ==> !net.attempts(k).answered
    {
      if attempt > 0 {
        if net.attempts(attempt).cancelled {
          CutShort(net, attempt);
          return Chunk(offset, [], Some(Cancelled));
        }
      }
      var data, eof := Request(r, offset, endOffset, net.attempts(attempt));
      assert Made(net, attempt);
      if data.Some? {
        AnsweredAt(net, attempt);
        return Chunk(offset, data.value, None);
      }
      attempt, lastErr := attempt + 1, eof;
    }
    return Chunk(offset, [], Some(FetchFailed(lastErr)));
  }

  // ----- opening a store -----

  /** The answer to the HEAD request that a constructor sends: None if it could not be made or sent. */
  datatype Head = Head(status: int, acceptRanges: string)

  datatype OpenError = InvalidSize | HeadFailed | BadStatus | NoRanges

  const STATUS_OK := 200

  /** Why a constructor fails, if it does; the checks are made in this order. */
  function Refusal(size: int, head: Option<Head>): Option<OpenError> {
    if size <= 0 then Some(InvalidSize)
    else if head.None? then Some(HeadFailed)
    else if head.value.status != STATUS_OK then Some(BadStatus)
    else if head.value.acceptRanges != "bytes" then Some(NoRanges)
    else None
  }

  /** A store opens if and only if the size is positive and the server answers 200 and accepts byte ranges. */
  lemma OpensIff(size: int, head: Option<Head>)
    ensures Refusal(size, head).None?
            <==> size > 0 && head.Some? && head.value.status == 200 && head.value.acceptRanges == "bytes"
    ensures size <= 0 <==> Refusal(size, head) == Some(InvalidSize)
    ensures size > 0 && head.None? <==> Refusal(size, head) == Some(HeadFailed)
    ensures size > 0 && head.Some? && head.value.status != 200 <==> Refusal(size, head) == Some(BadStatus)
  {
  }

  /** A fetch gets its data if and only if it gets a slot and one of its three attempts is answered in time. */
  lemma AnsweredIff(net: Network)
    ensures SomeAnswer(net)
            <==> net.slot && (net.attempts(0).answered
                              || (!net.attempts(1).cancelled
                                  && (net.attempts(1).answered
                                      || (!net.attempts(2).cancelled && net.attempts(2).answered))))
    ensures AllFail(net)
            <==> net.slot && !net.attempts(0).answered && !net.attempts(1).cancelled && !net.attempts(1).answered
                 && !net.attempts(2).cancelled && !net.attempts(2).answered
  {
    if net.slot {
      if net.attempts(0).answered {
        assert Made(net, 0);
      } else if !net.attempts(1).cancelled && net.attempts(1).answered {
        assert Made(net, 1);
      } else if !net.attempts(1).cancelled && !net.attempts(2).cancelled && net.attempts(2).answered {
        assert Made(net, 2);
      }
    }
  }
}
