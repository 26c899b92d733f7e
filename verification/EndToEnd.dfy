/**
 Reconstruction over the two stores: a client of fuseFS.Read whose calls are answered by ReadAt calls of a
 reachable state, and runs of both stores in which a failed transfer passes for the end of the file.
 */
module EndToEnd {
  import opened Common
  import opened Reads
  import opened Reconstruction
  import opened ChunkCache
  import opened ChunkRanges
  import opened ChunkReads
  import TF = TempFileProtocol
  import TempFileSafety
  import CF = ChunkFetchProtocol
  import ChunkFetchSafety
  import ChunkFetchRuns

  // ----- over a TempFileStore -----

  /** The ReadAt callers with these ids have answered a client, one call after the other. */
  ghost predicate TempFileClient(s: TF.State, ids: seq<nat>) {
    ids != [] ==>
      var init, last := ids[..|ids| - 1], ids[|ids| - 1];
      && TempFileClient(s, init)
      && last in s.readers && s.readers[last].pc.Returned?
      && s.readers[last].len > 0 && s.readers[last].off == Offset(TempFileCalls(s, init))
      && FuseRead(true, s.readers[last].pc.result) >= 0
  }

  function TempFileCalls(s: TF.State, ids: seq<nat>): seq<Call> {
    if ids == [] then [] else TempFileCalls(s, ids[..|ids| - 1]) + [TempFileCall(s, ids[|ids| - 1])]
  }

  function TempFileCall(s: TF.State, id: nat): Call {
    if id in s.readers && s.readers[id].pc.Returned? then Call(s.readers[id].len, s.readers[id].pc.result)
    else Call(0, Fail(EOF))
  }

  lemma {:induction false} TempFileSequential(c: TF.Config, s: TF.State, ids: seq<nat>)
    requires TF.Reachable(c, s) && TempFileClient(s, ids)
    ensures Sequential(TempFileContent(c), c.size, TempFileCalls(s, ids))
  {
    if ids != [] {
      var init, last := ids[..|ids| - 1], ids[|ids| - 1];
      TempFileSequential(c, s, init);
      TempFileReadOk(c, s, last);
      SequentialSnoc(TempFileContent(c), c.size, TempFileCalls(s, init), TempFileCall(s, last));
    }
  }

  lemma SequentialSnoc(content: seq<byte>, size: nat, calls: seq<Call>, last: Call)
    requires Sequential(content, size, calls) && last.len > 0 && FuseRead(true, last.result) >= 0
    requires ReadOk(content, size, Offset(calls), last.len, last.result)
    ensures Sequential(content, size, calls + [last])
  {
    assert (calls + [last])[..|calls|] == calls;
  }

  /** The error beside the last answer. */
  function LastError(calls: seq<Call>): Option<Error> {
    if calls == [] then None else calls[|calls| - 1].result.err
  }

  predicate EndsInZero(calls: seq<Call>) {
    calls != [] && FuseRead(true, calls[|calls| - 1].result) == 0
  }

  /**
   Reading through a TempFileStore until a zero, with no negative result, in any interleaving with the
   download, other readers and closers: the client holds all that was delivered, cut at the declared size,
   unless the zero was a failure that wraps io.EOF. It holds the declared number of bytes, which are then the
   first ones of the body, if and only if it was not and the body is long enough.
   */
  lemma TempFileReconstructs(c: TF.Config, s: TF.State, ids: seq<nat>)
    requires TF.Reachable(c, s) && TempFileClient(s, ids) && EndsInZero(TempFileCalls(s, ids))
    ensures var calls := TempFileCalls(s, ids);
            && LastError(calls).Some?
            && (!WrapsEOF(LastError(calls).value) ==> Bytes(calls) == TempFileContent(c))
            && (|Bytes(calls)| == c.size <==> |c.body| >= c.size && !WrapsEOF(LastError(calls).value))
            && (|c.body| >= c.size ==> (Bytes(calls) == c.body[..c.size] <==> !WrapsEOF(LastError(calls).value)))
  {
    TempFileSequential(c, s, ids);
    PrefixSoFar(TempFileContent(c), c.size, TempFileCalls(s, ids));
    TempFileReadOk(c, s, ids[|ids| - 1]);
    Reconstructs(TempFileContent(c), c.size, TempFileCalls(s, ids));
    if |c.body| >= c.size {
      assert TempFileContent(c) == c.body[..c.size];
      assert TempFileContent(c)[..c.size] == TempFileContent(c);
    }
  }

  // ----- over a RangeLRUStore -----

  /** One ReadAt: the getChunk calls it made, its buffer's length, and what it returned. */
  datatype ChunkedRead = ChunkedRead(ids: seq<nat>, len: nat, result: ReadResult)

  /** The result is what the loop of ReadAt makes of getChunk calls that have returned. */
  ghost predicate ReadBy(c: CF.Config, s: CF.State, off: nat, r: ChunkedRead)
    requires c.Valid()
  {
    if off >= |c.remote.bytes| then r.result == Fail(EOF)
    else
      && (forall i :: 0 <= i < |r.ids| ==> r.ids[i] in s.callers && s.callers[r.ids[i]].pc.Returned?)
      && var gets := ChunkFetchSafety.AnswersOf(s.callers, r.ids);
         && InOrder(c.remote, gets, off, r.len) && Over(c.remote, gets, off, r.len)
         && r.result == Outcome(gets, off, r.len)
  }

  ghost predicate ChunkedClient(c: CF.Config, s: CF.State, answers: seq<ChunkedRead>)
    requires c.Valid()
  {
    answers != [] ==>
      var init, last := answers[..|answers| - 1], answers[|answers| - 1];
      && ChunkedClient(c, s, init)
      && last.len > 0 && ReadBy(c, s, Offset(ChunkedCalls(init)), last)
      && FuseRead(true, last.result) >= 0
  }

  function ChunkedCalls(answers: seq<ChunkedRead>): seq<Call> {
    if answers == [] then []
    else
      var last := answers[|answers| - 1];
      ChunkedCalls(answers[..|answers| - 1]) + [Call(last.len, last.result)]
  }

  lemma ReadByOk(c: CF.Config, s: CF.State, off: nat, r: ChunkedRead)
    requires c.Valid() && CF.Reachable(c, s) && ReadBy(c, s, off, r)
    ensures ReadOk(c.remote.bytes, |c.remote.bytes|, off, r.len, r.result)
  {
    if off < |c.remote.bytes| {
      ChunkFetchSafety.TransparentReads(c, s, r.ids, off, r.len, r.result);
    }
  }

  lemma {:induction false} ChunkedSequential(c: CF.Config, s: CF.State, answers: seq<ChunkedRead>)
    requires c.Valid() && CF.Reachable(c, s) && ChunkedClient(c, s, answers)
    ensures Sequential(c.remote.bytes, |c.remote.bytes|, ChunkedCalls(answers))
  {
    if answers != [] {
      var init, last := answers[..|answers| - 1], answers[|answers| - 1];
      ChunkedSequential(c, s, init);
      ReadByOk(c, s, Offset(ChunkedCalls(init)), last);
      SequentialSnoc(c.remote.bytes, |c.remote.bytes|, ChunkedCalls(init), Call(last.len, last.result));
    }
  }

  /**
   Reading through a chunked store until a zero, with no negative result, against any competing callers,
   evictions, clears and cancellations, and despite short reads after chunk errors: the client holds exactly
   the remote file if and only if the zero was not a failure that wraps io.EOF.
   */
  lemma ChunkedReconstructs(c: CF.Config, s: CF.State, answers: seq<ChunkedRead>)
    requires c.Valid() && CF.Reachable(c, s) && ChunkedClient(c, s, answers) && EndsInZero(ChunkedCalls(answers))
    ensures var calls := ChunkedCalls(answers);
            && LastError(calls).Some?
            && (Bytes(calls) == c.remote.bytes <==> !WrapsEOF(LastError(calls).value))
  {
    ChunkedSequential(c, s, answers);
    Reconstructs(c.remote.bytes, |c.remote.bytes|, ChunkedCalls(answers));
  }

  // ----- a failed transfer that passes for the end of the file -----

  /**
   Of every file, through every chunked store: when the server closes the connection three times without an
   answer, the first Read returns zero and the client has nothing.
   */
  lemma ChunkedEarlyEnd(c: CF.Config)
    requires c.Valid()
    ensures exists s, answers :: CF.Reachable(c, s) && ChunkedClient(c, s, answers)
                               && EndsInZero(ChunkedCalls(answers)) && Bytes(ChunkedCalls(answers)) == []
  {
    var chunk := CF.Failed(0, FetchFailed(true));
    StartIsKey(c.remote, 0);
    QuotientUnique(0, 0, c.remote.chunkSize);
    ChunkFetchRuns.InitReachable(c);
    ChunkFetchRuns.FailsAlone(c, CF.Init, 0, 0, true);
    var s := ChunkFetchRuns.Alone(c, CF.Init, 0, 0, chunk);
    var read := ChunkedRead([0], 1, Fail(FetchFailed(true)));
    assert ChunkFetchSafety.AnswersOf(s.callers, [0]) == [Access(0, chunk)];
    FirstGetFails(c.remote, chunk, 1);
    assert ReadBy(c, s, 0, read);
    assert [read][..0] == [];
    assert ChunkedClient(c, s, []);
    assert ChunkedCalls([read]) == [Call(1, read.result)];
    assert [Call(1, read.result)][..0] == [];
    assert ChunkedClient(c, s, [read]) && EndsInZero(ChunkedCalls([read])) && Bytes(ChunkedCalls([read])) == [];
  }

  lemma FirstGetFails(r: Remote, chunk: Chunk, len: nat)
    requires r.Valid() && len > 0 && r.ChunkStart(0) == 0 && chunk.err.Some?
    ensures var gets := [Access(0, chunk)];
            InOrder(r, gets, 0, len) && Over(r, gets, 0, len) && Outcome(gets, 0, len) == ReadResult([], chunk.err)
  {
    assert [Access(0, chunk)][..0] == [];
    assert Copied([], 0, len) == [];
  }

  /** The stations of the download and of a read, when the connection is closed before the response. */
  function LostDownload(i: nat): TF.Download {
    var d := TF.Init.download;
    if i == 0 then d
    else if i == 1 then d.(pc := TF.Requesting)
    else if i == 2 then d.(pc := TF.Failing(DownloadFailed(true)))
    else d.(error := Some(DownloadFailed(true)), pc := TF.ClosingNotify)
  }

  function LostReader(i: nat): TF.ReaderPC {
    if i <= 4 then TF.CheckClosing else if i == 5 then TF.Register else if i == 6 then TF.RecheckClosing
    else if i == 7 then TF.Bounds else if i == 8 then TF.LoopTop else if i == 9 then TF.LoadProgress
    else if i == 10 then TF.LoadError else if i == 11 then TF.Deregister(Fail(DownloadFailed(true)))
    else TF.Returned(Fail(DownloadFailed(true)))
  }

  function LostState(i: nat): TF.State {
    TF.Init.(download := LostDownload(i),
             inFlight := if 6 <= i <= 11 then 1 else 0,
             readers := if i <= 3 then map[] else map[0 := TF.Reader(0, 1, false, LostReader(i))])
  }

  function LostAction(i: nat): TF.Action {
    if i == 1 then TF.StepDownloader(TF.Refuse(true))
    else if i <= 2 then TF.StepDownloader(TF.Proceed)
    else if i == 3 then TF.StartRead(0, 0, 1)
    else TF.StepReader(0, TF.Plain)
  }

  lemma LostStep(c: TF.Config, i: nat)
    requires c.size > 0 && i < 12
    ensures TF.Next(c, LostState(i), LostAction(i)) == Some(LostState(i + 1))
  {
    var s, t := LostState(i), LostState(i + 1);
    if i >= 4 {
      assert s.readers[0 := t.readers[0]] == t.readers;
    }
  }

  /** The same through a TempFileStore, of every file: the connection is closed before the response. */
  lemma TempFileEarlyEnd(c: TF.Config)
    requires c.size > 0
    ensures exists s, ids :: TF.Reachable(c, s) && TempFileClient(s, ids)
                             && EndsInZero(TempFileCalls(s, ids)) && Bytes(TempFileCalls(s, ids)) == []
  {
    var run, i := [], 0;
    while i < 12
      invariant 0 <= i <= 12 && TF.Run(c, TF.Init, run) == Some(LostState(i))
    {
      LostStep(c, i);
      TempFileSafety.RunSnoc(c, TF.Init, run, LostState(i), LostAction(i), LostState(i + 1));
      run, i := run + [LostAction(i)], i + 1;
    }
    var s := LostState(12);
    assert TF.Reachable(c, s);
    assert [0][..0] == [] && TempFileClient(s, []);
    var call := Call(1, Fail(DownloadFailed(true)));
    assert TempFileCalls(s, [0]) == [call];
    assert [call][..0] == [];
    assert TempFileClient(s, [0]) && EndsInZero(TempFileCalls(s, [0])) && Bytes(TempFileCalls(s, [0])) == [];
  }

  // ----- a short read -----

  /**
   Of every file of more than one chunk: a ReadAt whose second chunk fails returns the first chunk's bytes,
   without an error, although the buffer and the file have room for more.
   */
  lemma ShortReadWitness(c: CF.Config)
    requires c.Valid() && c.remote.chunkSize < |c.remote.bytes|
    ensures exists s, r :: CF.Reachable(c, s) && ReadBy(c, s, 0, r)
                           && r.result.err.None? && |r.result.data| < Min(r.len, |c.remote.bytes|)
  {
    var size, first := c.remote.chunkSize, c.remote.bytes[..c.remote.chunkSize];
    QuotientUnique(0, 0, size);
    QuotientUnique(size, 1, size);
    var good, bad := Chunk(0, first, None), CF.Failed(size, FetchFailed(false));
    ChunkFetchRuns.InitReachable(c);
    ChunkFetchRuns.SucceedsAlone(c, CF.Init, 0, 0);
    assert c.remote.Answer(0, c.remote.ChunkEnd(0)) == first;
    var mid := ChunkFetchRuns.Alone(c, CF.Init, 0, 0, good);
    ChunkFetchRuns.FailsAlone(c, mid, 1, size, false);
    var s := ChunkFetchRuns.Alone(c, mid, 1, size, bad);
    var len := |c.remote.bytes|;
    assert ChunkFetchSafety.AnswersOf(s.callers, [0, 1]) == [Access(0, good)] + [Access(size, bad)];
    SecondGetFails(c.remote, good, bad, len);
    assert ReadBy(c, s, 0, ChunkedRead([0, 1], len, ReadResult(first, None)));
  }

  lemma SecondGetFails(r: Remote, good: Chunk, bad: Chunk, len: nat)
    requires r.Valid() && r.chunkSize < len <= |r.bytes|
    requires r.ChunkStart(0) == 0 && r.ChunkStart(r.chunkSize) == r.chunkSize
    requires good == Chunk(0, r.bytes[..r.chunkSize], None) && bad.err.Some?
    ensures var gets := [Access(0, good)] + [Access(r.chunkSize, bad)];
            && InOrder(r, gets, 0, len) && Over(r, gets, 0, len)
            && Outcome(gets, 0, len) == ReadResult(r.bytes[..r.chunkSize], None)
  {
    var one := [Access(0, good)];
    assert [] + [Access(0, good)] == one;
    CopiedSnoc([], Access(0, good), 0, len);
    assert Extended([], good, 0, len) == r.bytes[..r.chunkSize];
    InOrderSnoc(r, [], Access(0, good), 0, len);
    CopiedSnoc(one, Access(r.chunkSize, bad), 0, len);
    InOrderSnoc(r, one, Access(r.chunkSize, bad), 0, len);
  }
}
