/**
 What every reachable state of TempFileStore satisfies, for any number of readers and closers:
 the gate keeps the shared handle open while it is used, one closer at most tears the store down,
 and reads served while the download is running return exactly the delivered bytes.
 */
module TempFileSafety {
  import opened Common
  import opened TempFileProtocol

  // ----- the download -----

  predicate Over(d: DownloaderPC) {
    d.ClosingNotify? || d.ClosingDone? || d.Signalling? || d.Exited?
  }

  predicate FromDownloader(e: Error) {
    e.DownloadFailed? || e.Cancelled?
  }

  /** The bytes on disk and the progress counter agree with the body at every point of the downloader. */
  ghost predicate DownloadOk(c: Config, d: Download) {
    && d.file <= c.body
    && (d.downloaded <= |d.file| || (d.downloaded == c.size && d.file == c.body))
    && (d.pc.Opening? ==> d.file == [] && d.downloaded == 0 && d.written == 0)
    && (!d.pc.Failing? && !Over(d.pc) ==> d.written == |d.file| && d.downloaded <= d.written)
    && (!d.pc.Failing? && !Over(d.pc) && !d.pc.Publishing? ==> d.downloaded == d.written)
    && (d.pc.Writing? ==>
          && |d.file + d.pc.chunk| <= |c.body|
          && d.pc.chunk == c.body[|d.file|..|d.file| + |d.pc.chunk|]
          && (d.pc.end == BodyEnd ==> |d.file + d.pc.chunk| == |c.body|))
    && (d.pc == Publishing(BodyEnd) || d.pc == Notifying(BodyEnd) || d.pc == Judging(BodyEnd) ==> d.file == c.body)
    && (d.error.Some? ==> Over(d.pc) && FromDownloader(d.error.value))
    && (d.pc.Failing? ==> FromDownloader(d.pc.error))
    && (Over(d.pc) ==> d.error.Some? || (d.downloaded == c.size && d.file == c.body))
    && (d.notifyClosed <==> d.pc.ClosingDone? || d.pc.Signalling? || d.pc.Exited?)
    && (d.doneClosed <==> d.pc.Signalling? || d.pc.Exited?)
  }

  // ----- readers -----

  /** Between readers.Add(1) and readers.Done. */
  predicate InGate(r: Reader) {
    !r.pc.CheckClosing? && !r.pc.Register? && !r.pc.Returned?
  }

  /** Between the second closing check and readers.Done: the readers that may touch the handle. */
  predicate Inside(r: Reader) {
    InGate(r) && !r.pc.RecheckClosing? && !r.pc.Deregister?
  }

  function GateSet(readers: map<nat, Reader>): set<nat> {
    set id | id in readers && InGate(readers[id])
  }

  lemma GateSetUpdate(readers: map<nat, Reader>, id: nat, r: Reader)
    ensures GateSet(readers[id := r]) == if InGate(r) then GateSet(readers) + {id} else GateSet(readers) - {id}
  {
  }

  lemma GateSetSame(readers: map<nat, Reader>, id: nat, r: Reader)
    requires InGate(r) <==> id in readers && InGate(readers[id])
    ensures GateSet(readers[id := r]) == GateSet(readers)
  {
  }

  lemma GateCount(readers: map<nat, Reader>, id: nat, r: Reader)
    requires id in readers
    ensures |GateSet(readers[id := r])| == |GateSet(readers)| + (if InGate(r) then 1 else 0)
                                           - (if InGate(readers[id]) then 1 else 0)
  {
    GateSetUpdate(readers, id, r);
    var gate := GateSet(readers);
    if InGate(readers[id]) {
      assert id in gate;
      assert gate + {id} == gate;
    } else {
      assert id !in gate;
      assert gate - {id} == gate;
    }
  }

  /**
   A result is right when it is what the file of the delivered bytes, cut at the declared size, would
   have returned: the whole region, a prefix of it beside a hard error, or nothing beside any other error.
   */
  ghost predicate ResultOk(c: Config, r: Reader, res: ReadResult) {
    match res.err
    case None =>
      r.off < c.size && res.data == Slice(c.body, r.off, WantEnd(c, r)) && (r.len > 0 ==> res.data != [])
    case Some(EOF) => res.data == [] && (r.off >= c.size || (r.off >= |c.body| && r.len > 0))
    case Some(IoFailed) => r.off < c.size && res.data <= Slice(c.body, r.off, WantEnd(c, r))
    case Some(DownloadFailed(_)) => res.data == [] && r.off < c.size
    case Some(e) => res.data == [] && (e.ErrClosed? || e.Cancelled?)
  }

  ghost predicate ReaderOk(c: Config, downloaded: nat, r: Reader) {
    && (Inside(r) && !r.pc.Bounds? ==> r.off < c.size)
    && (r.pc.LoadHandle? || r.pc.ReadFile? ==> downloaded >= WantEnd(c, r))
    && (r.pc.Deregister? || r.pc.Returned? ==> ResultOk(c, r, r.pc.result))
  }

  ghost predicate ReadersOk(c: Config, downloaded: nat, readers: map<nat, Reader>) {
    forall id :: id in readers ==> ReaderOk(c, downloaded, readers[id])
  }

  // ----- closers -----

  /** The caller that won both compare-and-swaps, or is between them. */
  predicate Winner(k: Closer) {
    !k.pc.SwapClosed? && !k.pc.Lost?
  }

  /** The winner has seen the reader count at zero. */
  predicate Drained(k: Closer) {
    k.pc == AwaitReaders(true) || k.pc.CheckHandle? || k.pc.ShutHandle? || k.pc.ClearHandle?
    || k.pc.UnregisterFile? || k.pc.RemoveFile? || k.pc.Finished?
  }

  ghost predicate CloserOk(l: Life, k: Closer) {
    Winner(k) ==>
      && l.closed
      && (l.closing <==> !k.pc.SwapClosing?)
      && (!k.pc.SwapClosing? && !k.pc.CancelDownload? ==> l.cancelled)
      && HandleFollows(l.handle, k.pc)
      && (l.tracked <==> !k.pc.RemoveFile? && !k.pc.Finished?)
      && (l.onDisk <==> !k.pc.Finished?)
  }

  ghost predicate HasWinner(closers: map<nat, Closer>) {
    exists i :: i in closers && Winner(closers[i])
  }

  ghost predicate ClosersOk(l: Life, closers: map<nat, Closer>) {
    && (forall i, j :: i in closers && j in closers && Winner(closers[i]) && Winner(closers[j]) ==> i == j)
    && (forall i :: i in closers ==> CloserOk(l, closers[i]))
    && (l.closed ==> HasWinner(closers))
    && (!l.closed ==> !l.closing && Untouched(l))
  }

  /** The handle is open, and the file is registered and on disk. */
  predicate Untouched(l: Life) {
    l.handle == Open && l.tracked && l.onDisk
  }

  /** The state of the handle is determined by how far the winner has come. */
  predicate HandleFollows(h: Handle, pc: CloserPC) {
    match pc
    case ClearHandle => h == Shut
    case UnregisterFile => h == Cleared
    case RemoveFile => h == Cleared
    case Finished => h == Cleared
    case _ => h == Open
  }

  // ----- the gate -----

  ghost predicate NoneInside(readers: map<nat, Reader>) {
    forall id :: id in readers ==> !Inside(readers[id])
  }

  ghost predicate GateOk(inFlight: int, readers: map<nat, Reader>, closers: map<nat, Closer>) {
    && inFlight == |GateSet(readers)|
    && (forall i :: i in closers && Drained(closers[i]) ==> NoneInside(readers))
  }

  ghost predicate Inv(c: Config, s: State) {
    && DownloadOk(c, s.download)
    && ReadersOk(c, s.download.downloaded, s.readers)
    && ClosersOk(s.life, s.closers)
    && GateOk(s.inFlight, s.readers, s.closers)
  }

  // ----- preservation, one kind of goroutine at a time -----

  lemma DownloadKeeps(c: Config, d: Download, cancelled: bool, ch: NetChoice, e: Download)
    requires DownloadOk(c, d) && DownloadStep(c, d, cancelled, ch) == Some(e)
    ensures DownloadOk(c, e)
    ensures e.downloaded >= Min(d.downloaded, c.size)
  {
    if d.pc.Writing? {
      WriteKeeps(c, d, cancelled, ch, e);
    } else if d.pc.Opening? || d.pc.Requesting? || d.pc.Fetching? {
      assert e.file == d.file;
    } else {
      PlainKeeps(c, d, cancelled, e);
    }
  }

  lemma WriteKeeps(c: Config, d: Download, cancelled: bool, ch: NetChoice, e: Download)
    requires DownloadOk(c, d) && d.pc.Writing? && DownloadStep(c, d, cancelled, ch) == Some(e)
    ensures DownloadOk(c, e) && e.downloaded == d.downloaded
  {
    ChunkExtends(c, d, if ch.Tear? then ch.n else |d.pc.chunk|);
    assert d.pc.chunk[..|d.pc.chunk|] == d.pc.chunk;
  }

  lemma PlainKeeps(c: Config, d: Download, cancelled: bool, e: Download)
    requires DownloadOk(c, d) && PlainDownloadStep(c, d, cancelled) == Some(e)
    ensures DownloadOk(c, e)
    ensures e.downloaded >= Min(d.downloaded, c.size)
  {
  }

  lemma ChunkExtends(c: Config, d: Download, n: nat)
    requires DownloadOk(c, d) && d.pc.Writing? && n <= |d.pc.chunk|
    ensures d.file + d.pc.chunk[..n] == c.body[..|d.file| + n]
  {
    assert d.file == c.body[..|d.file|];
  }

  lemma DownloaderKeeps(c: Config, s: State, ch: NetChoice, t: State)
    requires Inv(c, s) && DownloaderNext(c, s, ch) == Some(t)
    ensures Inv(c, t)
  {
    DownloadKeeps(c, s.download, s.life.cancelled, ch, t.download);
  }

  lemma ParentCancelled(c: Config, s: State)
    requires Inv(c, s)
    ensures Inv(c, s.(life := s.life.(cancelled := true)))
  {
    forall i | i in s.closers ensures CloserOk(s.life.(cancelled := true), s.closers[i]) {
      assert CloserOk(s.life, s.closers[i]);
    }
  }

  /** The read itself: enough bytes were published, or the body has ended. */
  lemma FileReadOk(c: Config, d: Download, r: Reader)
    requires DownloadOk(c, d) && r.off < c.size && d.downloaded >= WantEnd(c, r)
    ensures Slice(d.file, r.off, WantEnd(c, r)) == Slice(c.body, r.off, WantEnd(c, r))
    ensures ResultOk(c, r, FileRead(c, d.file, r))
  {
    assert d.file == c.body[..|d.file|];
    SliceOfPrefix(c.body, |d.file|, r.off, WantEnd(c, r));
  }

  /** What a reader keeps when it goes on to pc. */
  ghost predicate ReaderGoesOn(c: Config, d: Download, l: Life, r: Reader, pc: ReaderPC) {
    && ReaderOk(c, d.downloaded, r.(pc := pc))
    && (InGate(r.(pc := pc)) <==> r.pc.Register? || (InGate(r) && !r.pc.Deregister?))
    && (Inside(r.(pc := pc)) ==> Inside(r) || !l.closing)
  }

  /** The errors that a reader may leave with. */
  lemma LeavesOk(c: Config, r: Reader, e: Error)
    requires e.ErrClosed? || e.Cancelled? || (e.EOF? && r.off >= c.size) || (e.DownloadFailed? && r.off < c.size)
    ensures ResultOk(c, r, Fail(e))
  {
  }

  lemma PlainReaderKeeps(c: Config, d: Download, l: Life, r: Reader, pc: ReaderPC)
    requires DownloadOk(c, d) && ReaderOk(c, d.downloaded, r) && (Inside(r) ==> l.handle == Open)
    requires PlainStep(c, d, l, r) == Some(pc)
    ensures ReaderGoesOn(c, d, l, r, pc)
  {
    match pc
    case Returned(res) => {
      if r.pc.CheckClosing? {
        LeavesOk(c, r, ErrClosed);
      }
    }
    case Deregister(res) => {
      LeavesOk(c, r, res.err.value);
      assert res == Fail(res.err.value);
    }
    case _ =>
  }

  lemma ReaderStepKeeps(c: Config, d: Download, l: Life, tokens: nat, r: Reader, ch: ReadChoice, pc: ReaderPC)
    requires DownloadOk(c, d) && ReaderOk(c, d.downloaded, r) && (Inside(r) ==> l.handle == Open)
    requires ReaderStep(c, d, l, tokens, r, ch) == Some(pc)
    ensures ReaderGoesOn(c, d, l, r, pc)
  {
    if r.pc.ReadFile? {
      FileReadOk(c, d, r);
    } else if !r.pc.Waiting? {
      PlainReaderKeeps(c, d, l, r, pc);
    }
  }

  /** While some reader is inside, no closer has drained, so the handle is open. */
  lemma InsideIsOpen(c: Config, s: State, id: nat)
    requires Inv(c, s) && id in s.readers && Inside(s.readers[id])
    ensures s.life.handle == Open
  {
    if s.life.closed {
      var w :| w in s.closers && Winner(s.closers[w]);
      assert CloserOk(s.life, s.closers[w]);
      assert Drained(s.closers[w]) ==> NoneInside(s.readers);
    }
  }

  lemma ReaderKeeps(c: Config, s: State, id: nat, ch: ReadChoice, t: State)
    requires Inv(c, s) && id in s.readers && ReaderNext(c, s, id, ch) == Some(t)
    ensures Inv(c, t)
  {
    var r, u := s.readers[id], t.readers[id];
    if Inside(r) {
      InsideIsOpen(c, s, id);
    }
    ReaderStepKeeps(c, s.download, s.life, s.tokens, r, ch, u.pc);
    GateSetUpdate(s.readers, id, u);
    assert t.readers == s.readers[id := u];
    assert id in GateSet(s.readers) <==> InGate(r);
    GateCount(s.readers, id, u);
    DrainedNotInside(s.life, s.closers, s.readers, id, u);
  }

  /** A reader appears before the gate, or has its context cancelled where it stands. */
  lemma ReaderTouched(c: Config, s: State, id: nat, u: Reader)
    requires Inv(c, s)
    requires if id in s.readers then u == s.readers[id].(cancelled := true) else u.pc.CheckClosing?
    ensures Inv(c, s.(readers := s.readers[id := u]))
  {
    GateSetSame(s.readers, id, u);
    DrainedNotInside(s.life, s.closers, s.readers, id, u);
  }

  /** A closer appears, or has its context cancelled where it stands. */
  lemma CloserTouched(c: Config, s: State, id: nat, m: Closer)
    requires Inv(c, s)
    requires if id in s.closers then m == s.closers[id].(cancelled := true) else m.pc.SwapClosed?
    ensures Inv(c, s.(closers := s.closers[id := m]))
  {
    ClosersUpdate(s.life, s.closers, id, m, s.life);
  }

  lemma DrainedNotInside(l: Life, closers: map<nat, Closer>, readers: map<nat, Reader>, id: nat, u: Reader)
    requires ClosersOk(l, closers)
    requires forall i :: i in closers && Drained(closers[i]) ==> NoneInside(readers)
    requires Inside(u) ==> !l.closing || (id in readers && Inside(readers[id]))
    ensures forall i :: i in closers && Drained(closers[i]) ==> NoneInside(readers[id := u])
  {
    forall i | i in closers && Drained(closers[i]) ensures NoneInside(readers[id := u]) {
      assert CloserOk(l, closers[i]);
    }
  }

  lemma CloserStepKeeps(l: Life, exited: bool, inFlight: int, k: Closer, expire: bool, pc: CloserPC)
    requires CloserOk(l, k) && (!l.closed ==> !l.closing && Untouched(l))
    requires CloserStep(l, exited, inFlight, k, expire) == Some(pc)
    ensures CloserOk(LifeAfter(l, k.pc), k.(pc := pc)) || (l.closed && !Winner(k))
    ensures Winner(k.(pc := pc)) <==> Winner(k) || !l.closed
    ensures !Winner(k) && l.closed ==> LifeAfter(l, k.pc) == l
    ensures Drained(k.(pc := pc)) ==> Drained(k) || inFlight == 0
  {
  }

  lemma CloserKeeps(c: Config, s: State, id: nat, expire: bool, t: State)
    requires Inv(c, s) && id in s.closers && CloserNext(s, id, expire) == Some(t)
    ensures Inv(c, t)
  {
    var k, m := s.closers[id], t.closers[id];
    CloserStepKeeps(s.life, s.download.pc.Exited?, s.inFlight, k, expire, m.pc);
    ClosersUpdate(s.life, s.closers, id, m, t.life);
    if s.inFlight == 0 {
      assert forall r :: r in s.readers && InGate(s.readers[r]) ==> r in GateSet(s.readers);
      assert NoneInside(s.readers);
    }
  }

  lemma ClosersUpdate(l: Life, closers: map<nat, Closer>, id: nat, m: Closer, after: Life)
    requires ClosersOk(l, closers)
    requires after == l || (id in closers && (Winner(closers[id]) || !l.closed))
    requires CloserOk(after, m)
    requires Winner(m) <==> (id in closers && (Winner(closers[id]) || (!l.closed && after != l)))
    requires after.closed == (l.closed || after != l)
    requires !after.closed ==> !after.closing && Untouched(after)
    ensures ClosersOk(after, closers[id := m])
  {
    var updated := closers[id := m];
    if after.closed && !Winner(m) {
      var w :| w in closers && Winner(closers[w]);
      assert Winner(updated[w]);
    } else if after.closed {
      assert Winner(updated[id]);
    }
  }

  lemma StepKeeps(c: Config, s: State, a: Action, t: State)
    requires Inv(c, s) && Next(c, s, a) == Some(t)
    ensures Inv(c, t)
  {
    match a
    case StartRead(id, off, len) => ReaderTouched(c, s, id, t.readers[id]);
    case CancelRead(id) => ReaderTouched(c, s, id, t.readers[id]);
    case StartClose(id) => CloserTouched(c, s, id, t.closers[id]);
    case CancelClose(id) => CloserTouched(c, s, id, t.closers[id]);
    case CancelParent => ParentCancelled(c, s);
    case StepDownloader(net) => DownloaderKeeps(c, s, net, t);
    case StepReader(id, ch) => ReaderKeeps(c, s, id, ch, t);
    case StepCloser(id, expire) => CloserKeeps(c, s, id, expire, t);
  }

  lemma {:induction false} RunKeeps(c: Config, s: State, run: seq<Action>, t: State)
    requires Inv(c, s) && Run(c, s, run) == Some(t)
    ensures Inv(c, t)
  {
    if run != [] {
      var prefix := run[..|run| - 1];
      var mid := Run(c, s, prefix).value;
      RunKeeps(c, s, prefix, mid);
      StepKeeps(c, mid, run[|run| - 1], t);
    }
  }

  lemma ReachableKeeps(c: Config, s: State)
    requires Reachable(c, s)
    ensures Inv(c, s)
  {
    var run :| Run(c, Init, run) == Some(s);
    assert GateSet(Init.readers) == {};
    RunKeeps(c, Init, run, s);
  }

  // ----- main results -----

  /**
   Readers gate. In every interleaving the shared handle is open from a reader's second closing check
   until its Done, so neither the nil branch of ReadAt nor a read from a closed handle can happen.
   */
  lemma GateSafety(c: Config, s: State, id: nat)
    requires Reachable(c, s) && id in s.readers && Inside(s.readers[id])
    ensures s.life.handle == Open
  {
    ReachableKeeps(c, s);
    InsideIsOpen(c, s, id);
  }

  /** At most one closer gets past the swap of closed, hence at most one ever touches the handle. */
  lemma OneTeardown(c: Config, s: State, i: nat, j: nat)
    requires Reachable(c, s) && i in s.closers && j in s.closers
    requires Winner(s.closers[i]) && Winner(s.closers[j])
    ensures i == j
  {
    ReachableKeeps(c, s);
  }

  /**
   The write precedes the counter store, so the published prefix is always on disk and equal to the
   body's; the counter runs ahead of the file only when the body has ended, short or not.
   */
  lemma PublishedIsDelivered(c: Config, s: State)
    requires Reachable(c, s)
    ensures var d := s.download;
            && d.file <= c.body
            && (d.downloaded > |d.file| ==> d.file == c.body && d.downloaded == c.size)
  {
    ReachableKeeps(c, s);
  }

  /**
   Streaming. A ReadAt that returns without error returned exactly the delivered bytes of its region,
   however it raced with the download, the other readers and the closers; a clean EOF is reported only
   at or beyond the end of the file or of the delivered body.
   */
  lemma StreamingRead(c: Config, s: State, id: nat)
    requires Reachable(c, s) && id in s.readers && s.readers[id].pc.Returned?
    ensures var r := s.readers[id]; ResultOk(c, r, r.pc.result)
  {
    ReachableKeeps(c, s);
  }

  /**
   When is an error-free read as long as the contract of BackingStore asks? Exactly when the server
   delivered the region: a body shorter than the declared size is cut short silently.
   */
  lemma FullLengthIff(c: Config, s: State, id: nat)
    requires Reachable(c, s) && id in s.readers && s.readers[id].pc.Returned?
    requires s.readers[id].pc.result.err.None?
    ensures var r := s.readers[id];
            |r.pc.result.data| == Min(r.len, c.size - r.off) <==> r.len == 0 || WantEnd(c, r) <= |c.body|
  {
    ReachableKeeps(c, s);
  }

  /** With a body of at least the declared size, an error-free read is exactly the region asked for. */
  lemma ExactRead(c: Config, s: State, id: nat)
    requires Reachable(c, s) && id in s.readers && s.readers[id].pc.Returned?
    requires s.readers[id].pc.result.err.None? && c.size <= |c.body|
    ensures var r := s.readers[id];
            var n := Min(r.len, c.size - r.off);
            n >= 0 && r.pc.result.data == c.body[r.off..r.off + n]
  {
    ReachableKeeps(c, s);
  }

  /** A short body: the server ends after no bytes, and a read of a non-empty file reports a clean EOF. */
  lemma ShortBodyWitness()
    ensures var c := Config(1, []);
            exists s :: Reachable(c, s) && 0 in s.readers && s.readers[0].off < c.size
                        && s.readers[0].pc == Returned(Fail(EOF))
  {
    var c := Config(1, []);
    var d := Init.download;
    var downloads := [d.(pc := Requesting), d.(pc := Polling), d.(pc := Fetching), d.(pc := Judging(BodyEnd)),
                      d.(downloaded := 1, pc := ClosingNotify)];
    var s, run, i := Init, [], 0;
    while i < |downloads|
      invariant 0 <= i <= |downloads|
      invariant Run(c, Init, run) == Some(s)
      invariant s == Init.(download := if i == 0 then d else downloads[i - 1])
    {
      var a := StepDownloader(if i == 3 then Deliver(0, BodyEnd) else Proceed);
      var t := Init.(download := downloads[i]);
      assert Next(c, s, a) == Some(t);
      RunSnoc(c, Init, run, s, a, t);
      s, run, i := t, run + [a], i + 1;
    }
    var t := s.(readers := map[0 := Reader(0, 1, false, CheckClosing)]);
    RunSnoc(c, Init, run, s, StartRead(0, 0, 1), t);
    ReadAlone(run + [StartRead(0, 0, 1)]);
  }

  lemma RunSnoc(c: Config, s: State, run: seq<Action>, t: State, a: Action, u: State)
    requires Run(c, s, run) == Some(t) && Next(c, t, a) == Some(u)
    ensures Run(c, s, run + [a]) == Some(u)
  {
    assert (run + [a])[..|run|] == run;
  }

  /** The stations of a read of an empty file whose counter says one. */
  function AlonePC(i: nat): ReaderPC {
    match i
    case 0 => CheckClosing
    case 1 => Register
    case 2 => RecheckClosing
    case 3 => Bounds
    case 4 => LoopTop
    case 5 => LoadProgress
    case 6 => LoadHandle
    case 7 => ReadFile
    case 8 => Deregister(Fail(EOF))
    case _ => Returned(Fail(EOF))
  }

  function AloneState(i: nat): State {
    Init.(download := Init.download.(downloaded := 1, pc := ClosingNotify),
          inFlight := if 2 <= i <= 8 then 1 else 0,
          readers := map[0 := Reader(0, 1, false, AlonePC(i))])
  }

  lemma AloneStep(i: nat)
    requires i < 9
    ensures Next(Config(1, []), AloneState(i), StepReader(0, Plain)) == Some(AloneState(i + 1))
  {
    var s, r := AloneState(i), Reader(0, 1, false, AlonePC(i));
    assert ReaderStep(Config(1, []), s.download, s.life, s.tokens, r, Plain) == Some(AlonePC(i + 1));
    assert s.readers[0 := r.(pc := AlonePC(i + 1))] == AloneState(i + 1).readers;
  }

  lemma ReadAlone(start: seq<Action>)
    requires Run(Config(1, []), Init, start) == Some(AloneState(0))
    ensures exists t :: Reachable(Config(1, []), t) && 0 in t.readers && t.readers[0].off < 1
                        && t.readers[0].pc == Returned(Fail(EOF))
  {
    var run, i := start, 0;
    while i < 9
      invariant 0 <= i <= 9 && Run(Config(1, []), Init, run) == Some(AloneState(i))
    {
      AloneStep(i);
      RunSnoc(Config(1, []), Init, run, AloneState(i), StepReader(0, Plain), AloneState(i + 1));
      run, i := run + [StepReader(0, Plain)], i + 1;
    }
    var t := AloneState(9);
    assert Reachable(Config(1, []), t) && t.readers[0].pc == Returned(Fail(EOF));
  }

  /**
   A Close that timed out while readers were active leaves the handle open for good: whatever runs
   afterwards, it stays timed out, and every other Close has lost or will lose the swap of closed.
   */
  lemma {:induction false} TimedOutCloseLeaksHandle(c: Config, s: State, k: nat, run: seq<Action>, t: State)
    requires Reachable(c, s) && k in s.closers && s.closers[k].pc.TimedOut? && Run(c, s, run) == Some(t)
    ensures k in t.closers && t.closers[k].pc.TimedOut? && t.life.handle == Open
    ensures forall j :: j in t.closers && j != k ==> t.closers[j].pc.SwapClosed? || t.closers[j].pc.Lost?
  {
    ReachableKeeps(c, s);
    RunKeeps(c, s, run, t);
    StaysTimedOut(c, s, k, run, t);
    assert CloserOk(t.life, t.closers[k]);
  }

  lemma {:induction false} StaysTimedOut(c: Config, s: State, k: nat, run: seq<Action>, t: State)
    requires k in s.closers && s.closers[k].pc.TimedOut? && Run(c, s, run) == Some(t)
    ensures k in t.closers && t.closers[k].pc.TimedOut?
  {
    if run != [] {
      StaysTimedOut(c, s, k, run[..|run| - 1], Run(c, s, run[..|run| - 1]).value);
    }
  }

  /** A Close times out only if its context has been cancelled. */
  lemma {:induction false} TimeoutNeedsCancel(c: Config, run: seq<Action>, s: State, k: nat)
    requires Run(c, Init, run) == Some(s) && k in s.closers && s.closers[k].pc.TimedOut?
    ensures s.closers[k].cancelled
  {
    if run != [] {
      var prefix := run[..|run| - 1];
      var mid := Run(c, Init, prefix).value;
      if k in mid.closers && mid.closers[k].pc.TimedOut? {
        TimeoutNeedsCancel(c, prefix, mid, k);
      }
    }
  }

  // ----- a Close that times out with a reader inside -----

  function LeakReader(i: nat): ReaderPC {
    if i <= 1 then CheckClosing else if i == 2 then Register else if i == 3 then RecheckClosing else Bounds
  }

  function LeakCloser(i: nat): CloserPC {
    if i <= 6 then SwapClosed else if i == 7 then SwapClosing else if i == 8 then CancelDownload
    else if i == 9 then AwaitDownloader else if i == 10 then AwaitReaders(false) else TimedOut
  }

  function LeakAction(i: nat): Action {
    if i == 0 then StartRead(0, 0, 1) else if i <= 3 then StepReader(0, Plain)
    else if i == 4 then StartClose(0) else if i == 5 then CancelClose(0) else StepCloser(0, i >= 9)
  }

  function LeakState(i: nat): State {
    Init.(life := Life(i >= 7, i >= 8, i >= 9, Open, true, true),
          inFlight := if i >= 3 then 1 else 0,
          readers := if i == 0 then map[] else map[0 := Reader(0, 1, false, LeakReader(i))],
          closers := if i <= 4 then map[] else map[0 := Closer(i >= 6, LeakCloser(i))])
  }

  lemma LeakStep(c: Config, i: nat)
    requires i < 11
    ensures Next(c, LeakState(i), LeakAction(i)) == Some(LeakState(i + 1))
  {
    var s, t := LeakState(i), LeakState(i + 1);
    if 1 <= i <= 3 {
      assert s.readers[0 := t.readers[0]] == t.readers;
    } else if i >= 5 {
      assert s.closers[0 := t.closers[0]] == t.closers;
    }
  }

  /** Whatever the file is, a Close can time out while a reader is between its second check and its Done. */
  lemma TimedOutWitness(c: Config)
    ensures exists s :: Reachable(c, s) && 0 in s.closers && s.closers[0].pc.TimedOut?
                        && 0 in s.readers && Inside(s.readers[0])
  {
    var run, i := [], 0;
    while i < 11
      invariant 0 <= i <= 11 && Run(c, Init, run) == Some(LeakState(i))
    {
      LeakStep(c, i);
      RunSnoc(c, Init, run, LeakState(i), LeakAction(i), LeakState(i + 1));
      run, i := run + [LeakAction(i)], i + 1;
    }
    assert Reachable(c, LeakState(11));
  }
}
