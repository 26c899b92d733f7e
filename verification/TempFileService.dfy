/**
 What the goroutines of TempFileStore do for each other, not only what they avoid: a published region is
 served, a failing read has its reason, a cancelled reader leaves, the downloader publishes what it wrote
 and fails only for a reason, and a Close tears down in the right order.
 */
module TempFileService {
  import opened Common
  import opened TempFileProtocol
  import opened TempFileSafety
  import opened TempFileProgress

  /** A step that is not the reader's own leaves it where it is; at most its context is cancelled. */
  lemma OthersLeave(c: Config, s: State, a: Action, t: State, id: nat)
    requires Next(c, s, a) == Some(t) && id in s.readers && !(a.StepReader? && a.id == id)
    ensures id in t.readers && t.readers[id].pc == s.readers[id].pc
    ensures t.readers[id].off == s.readers[id].off && t.readers[id].len == s.readers[id].len
    ensures s.readers[id].cancelled ==> t.readers[id].cancelled
  {
  }

  /** The counter never falls below the size or its old value, and a recorded error stays. */
  lemma DownloadLasts(c: Config, s: State, a: Action, t: State)
    requires Inv(c, s) && Next(c, s, a) == Some(t)
    ensures t.download.downloaded >= Min(s.download.downloaded, c.size)
    ensures s.download.error.Some? ==> t.download.error == s.download.error
    ensures !a.StepDownloader? ==> t.download == s.download
  {
    if a.StepDownloader? {
      DownloadKeeps(c, s.download, s.life.cancelled, a.net, t.download);
      ErrorLasts(c, s.download, s.life.cancelled, a.net, t.download);
    }
  }

  lemma ErrorLasts(c: Config, d: Download, cancelled: bool, net: NetChoice, e: Download)
    requires DownloadOk(c, d) && DownloadStep(c, d, cancelled, net) == Some(e)
    ensures d.error.Some? ==> e.error == d.error
  {
  }

  // ----- a published region is served -----

  /** The bytes from off to off + len, as far as the file reaches, have been announced. */
  predicate Published(c: Config, d: Download, r: Reader) {
    d.downloaded >= Min(r.off + r.len, c.size)
  }

  predicate HardFailure(res: ReadResult) {
    res.err.Some? && (res.err.value.DownloadFailed? || res.err.value.Cancelled? || res.err.value.ErrClosed?)
  }

  /** On its way to the file, past it, or back with no failure of the download, the context or a Close. */
  predicate OnTheWay(pc: ReaderPC) {
    match pc
    case LoadError => false
    case CheckContext => false
    case Waiting => false
    case Deregister(res) => !HardFailure(res)
    case Returned(res) => !HardFailure(res)
    case _ => true
  }

  /** The steps that a reader on its way still takes. */
  function StepsToServe(pc: ReaderPC): nat {
    match pc
    case CheckClosing => 9
    case Register => 8
    case RecheckClosing => 7
    case Bounds => 6
    case LoopTop => 5
    case LoadProgress => 4
    case LoadHandle => 3
    case ReadFile => 2
    case Deregister(_) => 1
    case _ => 0
  }

  lemma ServingStep(c: Config, d: Download, l: Life, tokens: nat, r: Reader, ch: ReadChoice, pc: ReaderPC)
    requires DownloadOk(c, d) && ReaderOk(c, d.downloaded, r) && (Inside(r) ==> l.handle == Open) && !l.closing
    requires r.off < c.size && Published(c, d, r) && OnTheWay(r.pc)
    requires ReaderStep(c, d, l, tokens, r, ch) == Some(pc)
    ensures OnTheWay(pc) && StepsToServe(pc) < StepsToServe(r.pc)
  {
  }

  lemma OwnServingStep(c: Config, s: State, ch: ReadChoice, t: State, id: nat)
    requires Inv(c, s) && Next(c, s, StepReader(id, ch)) == Some(t) && !t.life.closing && id in s.readers
    requires s.readers[id].off < c.size && Published(c, s.download, s.readers[id]) && OnTheWay(s.readers[id].pc)
    ensures id in t.readers && t.readers[id] == s.readers[id].(pc := t.readers[id].pc)
    ensures OnTheWay(t.readers[id].pc) && StepsToServe(t.readers[id].pc) < StepsToServe(s.readers[id].pc)
  {
    if Inside(s.readers[id]) {
      InsideIsOpen(c, s, id);
    }
    ServingStep(c, s.download, s.life, s.tokens, s.readers[id], ch, t.readers[id].pc);
  }

  /** A step of anyone leaves a reader on its way, and lowers the count if it is the reader's own. */
  lemma ServingKept(c: Config, s: State, a: Action, t: State, id: nat)
    requires Inv(c, s) && Next(c, s, a) == Some(t) && !t.life.closing && id in s.readers
    requires s.readers[id].off < c.size && Published(c, s.download, s.readers[id]) && OnTheWay(s.readers[id].pc)
    ensures id in t.readers && t.readers[id].off == s.readers[id].off && t.readers[id].len == s.readers[id].len
    ensures Published(c, t.download, t.readers[id]) && OnTheWay(t.readers[id].pc)
    ensures StepsToServe(t.readers[id].pc) + (if a.StepReader? && a.id == id then 1 else 0)
            <= StepsToServe(s.readers[id].pc)
  {
    DownloadLasts(c, s, a, t);
    if a.StepReader? && a.id == id {
      OwnServingStep(c, s, a.choice, t, id);
    } else {
      OthersLeave(c, s, a, t, id);
    }
  }

  lemma {:induction false} ServedAlong(c: Config, s: State, run: seq<Action>, t: State, id: nat)
    requires Inv(c, s) && Run(c, s, run) == Some(t) && !t.life.closing && id in s.readers
    requires s.readers[id].off < c.size && Published(c, s.download, s.readers[id]) && OnTheWay(s.readers[id].pc)
    ensures id in t.readers && t.readers[id].off == s.readers[id].off && t.readers[id].len == s.readers[id].len
    ensures Published(c, t.download, t.readers[id]) && OnTheWay(t.readers[id].pc)
    ensures StepsOf(run, id) + StepsToServe(t.readers[id].pc) <= StepsToServe(s.readers[id].pc)
  {
    if run != [] {
      var prefix := run[..|run| - 1];
      var mid := Run(c, s, prefix).value;
      if mid.life.closing {
        StillClosing(c, mid, [run[|run| - 1]], t);
      }
      ServedAlong(c, s, prefix, mid, id);
      RunKeeps(c, s, prefix, mid);
      ServingKept(c, mid, run[|run| - 1], t, id);
    }
  }

  lemma ServedMoves(c: Config, t: State, id: nat)
    requires Inv(c, t) && id in t.readers && OnTheWay(t.readers[id].pc) && !t.readers[id].pc.Returned?
    ensures Next(c, t, StepReader(id, Plain)).Some?
  {
    if Inside(t.readers[id]) {
      InsideIsOpen(c, t, id);
    }
  }

  lemma ServedResult(c: Config, t: State, id: nat)
    requires Inv(c, t) && id in t.readers && t.readers[id].pc.Returned?
    ensures var r := t.readers[id];
            r.pc.result.err.None? ==> r.pc.result.data == Slice(c.body, r.off, Min(r.off + r.len, c.size))
  {
    assert ReaderOk(c, t.download.downloaded, t.readers[id]);
  }

  /**
   A read whose region has been published when it starts, or when it looks at the counter, is served at
   once: whatever becomes of the download, it never waits, it can always take its next step, it returns
   after at most nine steps of its own, and while no Close has begun it does not fail because of the
   download, a cancelled context or a Close.
   */
  lemma PublishedIsServed(c: Config, s: State, run: seq<Action>, t: State, id: nat)
    requires Reachable(c, s) && Run(c, s, run) == Some(t) && !t.life.closing && id in s.readers
    requires var r := s.readers[id];
             && r.off < c.size && s.download.downloaded >= Min(r.off + r.len, c.size)
             && (r.pc.CheckClosing? || r.pc.LoopTop? || r.pc.LoadProgress?)
    ensures id in t.readers && !t.readers[id].pc.Waiting? && StepsOf(run, id) <= 9
    ensures !t.readers[id].pc.Returned? ==> Next(c, t, StepReader(id, Plain)).Some?
    ensures t.readers[id].pc.Returned? ==> !HardFailure(t.readers[id].pc.result)
    ensures t.readers[id].pc.Returned? && t.readers[id].pc.result.err.None? ==>
              t.readers[id].pc.result.data
              == Slice(c.body, s.readers[id].off, Min(s.readers[id].off + s.readers[id].len, c.size))
  {
    ReachableKeeps(c, s);
    ServedAlong(c, s, run, t, id);
    RunKeeps(c, s, run, t);
    if t.readers[id].pc.Returned? {
      ServedResult(c, t, id);
    } else {
      ServedMoves(c, t, id);
    }
  }

  /** A file read that fails after n bytes returns these n bytes of the region beside its error. */
  lemma FailedFileRead(c: Config, s: State, id: nat, n: nat, t: State)
    requires Reachable(c, s) && id in s.readers && s.readers[id].pc.ReadFile?
    requires Next(c, s, StepReader(id, IoError(n))) == Some(t)
    ensures var r := s.readers[id];
            var region := Slice(c.body, r.off, Min(r.off + r.len, c.size));
            n <= |region| && t.readers[id].pc == Deregister(ReadResult(region[..n], Some(IoFailed)))
  {
    ReachableKeeps(c, s);
    InsideIsOpen(c, s, id);
    FileReadOk(c, s.download, s.readers[id]);
  }

  // ----- why a read fails -----

  /** At some point of the run the reader looked at the counter and its region was not published. */
  ghost predicate SawUnpublished(c: Config, run: seq<Action>, id: nat) {
    exists i :: 0 <= i <= |run| && LooksInVain(c, Run(c, Init, run[..i]), id)
  }

  predicate LooksInVain(c: Config, s: Option<State>, id: nat) {
    s.Some? && id in s.value.readers && s.value.readers[id].pc.LoadProgress?
    && !Published(c, s.value.download, s.value.readers[id])
  }

  /** What is known of a reader that stands here, or fails with this error. */
  predicate Reasons(d: Download, l: Life, r: Reader, sawUnpublished: bool) {
    match r.pc
    case LoadError => sawUnpublished
    case CheckContext => sawUnpublished
    case Waiting => sawUnpublished
    case Deregister(res) => ErrorReasons(d, l, r, res, sawUnpublished)
    case Returned(res) => ErrorReasons(d, l, r, res, sawUnpublished)
    case _ => true
  }

  predicate ErrorReasons(d: Download, l: Life, r: Reader, res: ReadResult, sawUnpublished: bool) {
    match res.err
    case Some(ErrClosed) => l.closing
    case Some(Cancelled) => (r.cancelled || d.error == Some(Cancelled)) && sawUnpublished
    case Some(DownloadFailed(e)) => d.error == Some(DownloadFailed(e)) && sawUnpublished
    case _ => true
  }

  lemma SawEarlier(c: Config, run: seq<Action>, a: Action, id: nat)
    ensures SawUnpublished(c, run, id) ==> SawUnpublished(c, run + [a], id)
    ensures LooksInVain(c, Run(c, Init, run), id) ==> SawUnpublished(c, run, id)
  {
    if SawUnpublished(c, run, id) {
      var i :| 0 <= i <= |run| && LooksInVain(c, Run(c, Init, run[..i]), id);
      assert (run + [a])[..i] == run[..i];
    }
    assert run[..|run|] == run;
  }

  lemma ReasonsOfStep(c: Config, d: Download, l: Life, tokens: nat, r: Reader, ch: ReadChoice, pc: ReaderPC, saw: bool)
    requires DownloadOk(c, d) && Reasons(d, l, r, saw) && (Inside(r) ==> l.handle == Open)
    requires r.pc.LoadProgress? && !Published(c, d, r) ==> saw
    requires ReaderStep(c, d, l, tokens, r, ch) == Some(pc)
    ensures Reasons(d, l, r.(pc := pc), saw)
  {
  }

  /** The reasons last: an error is recorded once, closing stays set, a cancelled context stays cancelled. */
  lemma ReasonsLast(c: Config, s: State, a: Action, t: State, id: nat, saw: bool)
    requires Inv(c, s) && Next(c, s, a) == Some(t) && id in s.readers && !(a.StepReader? && a.id == id)
    requires Reasons(s.download, s.life, s.readers[id], saw)
    ensures id in t.readers && Reasons(t.download, t.life, t.readers[id], saw)
  {
    OthersLeave(c, s, a, t, id);
    DownloadLasts(c, s, a, t);
    if s.life.closing {
      ClosingLasts(c, s, a, t);
    }
  }

  lemma {:induction false} RunReasons(c: Config, run: seq<Action>, s: State, id: nat)
    requires Run(c, Init, run) == Some(s) && id in s.readers
    ensures Reasons(s.download, s.life, s.readers[id], SawUnpublished(c, run, id))
  {
    if run != [] {
      var prefix, a := run[..|run| - 1], run[|run| - 1];
      var mid := Run(c, Init, prefix).value;
      assert run == prefix + [a];
      if id in mid.readers {
        RunReasons(c, prefix, mid, id);
        assert GateSet(Init.readers) == {};
        RunKeeps(c, Init, prefix, mid);
        SawEarlier(c, prefix, a, id);
        var saw := SawUnpublished(c, prefix, id);
        if a.StepReader? && a.id == id {
          if Inside(mid.readers[id]) {
            InsideIsOpen(c, mid, id);
          }
          ReasonsOfStep(c, mid.download, mid.life, mid.tokens, mid.readers[id], a.choice, s.readers[id].pc, saw);
        } else {
          ReasonsLast(c, mid, a, s, id, saw);
        }
      }
    }
  }

  /**
   Why a read fails, in any interleaving: ErrClosed only after a Close has begun; an error of the context
   only with its context cancelled or the download stopped by a cancelled one; an error of the download only
   if that very error is recorded; and the last two only for a read that found its region unpublished.
   */
  lemma WhyReadFails(c: Config, run: seq<Action>, s: State, id: nat)
    requires Run(c, Init, run) == Some(s) && id in s.readers && s.readers[id].pc.Returned?
    requires s.readers[id].pc.result.err.Some?
    ensures var r := s.readers[id];
            var e := r.pc.result.err.value;
            && (e == ErrClosed ==> s.life.closing)
            && (e == Cancelled ==> r.cancelled || (s.download.error == Some(Cancelled) && s.life.cancelled))
            && (e.DownloadFailed? ==> s.download.error == Some(e))
            && (e == Cancelled || e.DownloadFailed? ==> SawUnpublished(c, run, id))
  {
    RunReasons(c, run, s, id);
    if s.download.error == Some(Cancelled) {
      CancelledForAReason(c, run, s);
    }
  }

  // ----- a cancelled reader leaves -----

  function StepsToLeave(pc: ReaderPC): nat {
    match pc
    case CheckClosing => 10
    case Register => 9
    case RecheckClosing => 8
    case Bounds => 7
    case Waiting => 6
    case LoopTop => 5
    case LoadProgress => 4
    case LoadError => 3
    case LoadHandle => 3
    case CheckContext => 2
    case ReadFile => 2
    case Deregister(_) => 1
    case Returned(_) => 0
  }

  lemma LeavingStep(c: Config, d: Download, l: Life, tokens: nat, r: Reader, ch: ReadChoice)
    requires r.cancelled && ReaderStep(c, d, l, tokens, r, ch).Some?
    ensures StepsToLeave(ReaderStep(c, d, l, tokens, r, ch).value) < StepsToLeave(r.pc)
  {
  }

  lemma LeavingKept(c: Config, s: State, a: Action, t: State, id: nat)
    requires id in s.readers && s.readers[id].cancelled && Next(c, s, a) == Some(t)
    ensures id in t.readers && t.readers[id].cancelled
    ensures StepsToLeave(t.readers[id].pc) + (if a.StepReader? && a.id == id then 1 else 0)
            <= StepsToLeave(s.readers[id].pc)
  {
    if a.StepReader? && a.id == id {
      LeavingStep(c, s.download, s.life, s.tokens, s.readers[id], a.choice);
    }
  }

  lemma CancelledNotBlocked(c: Config, s: State, id: nat)
    requires id in s.readers && s.readers[id].cancelled && !s.readers[id].pc.Returned?
    ensures Next(c, s, StepReader(id, Plain)).Some? || Next(c, s, StepReader(id, TakeContext)).Some?
  {
  }

  /**
   A reader whose context is cancelled leaves: it is never blocked, and in any run it takes at most ten more
   steps, however many tokens arrive.
   */
  lemma {:induction false} CancelledReaderLeaves(c: Config, s: State, run: seq<Action>, t: State, id: nat)
    requires id in s.readers && s.readers[id].cancelled && Run(c, s, run) == Some(t)
    ensures id in t.readers && t.readers[id].cancelled
    ensures StepsOf(run, id) + StepsToLeave(t.readers[id].pc) <= StepsToLeave(s.readers[id].pc) <= 10
    ensures !t.readers[id].pc.Returned? ==>
              Next(c, t, StepReader(id, Plain)).Some? || Next(c, t, StepReader(id, TakeContext)).Some?
  {
    if run != [] {
      var prefix := run[..|run| - 1];
      var mid := Run(c, s, prefix).value;
      CancelledReaderLeaves(c, s, prefix, mid, id);
      LeavingKept(c, mid, run[|run| - 1], t, id);
    }
    if !t.readers[id].pc.Returned? {
      CancelledNotBlocked(c, t, id);
    }
  }

  // ----- waking a waiting reader -----

  /** Exactly when a waiting reader has no step: its context lives, no token is waiting, and both channels are open. */
  lemma WaiterBlockedIff(c: Config, s: State, id: nat)
    requires id in s.readers && s.readers[id].pc.Waiting?
    ensures (forall ch :: Next(c, s, StepReader(id, ch)).None?)
            <==> !s.readers[id].cancelled && s.tokens == 0 && !s.download.notifyClosed && !s.download.doneClosed
  {
    assert Next(c, s, StepReader(id, TakeDone)).None? <==> !s.download.doneClosed;
    assert Next(c, s, StepReader(id, TakeToken)).None? <==> s.tokens == 0 && !s.download.notifyClosed;
    assert Next(c, s, StepReader(id, TakeContext)).None? <==> !s.readers[id].cancelled;
  }

  /** A token wakes the reader that takes it, and only that one. */
  lemma TokenWakes(c: Config, s: State, id: nat)
    requires id in s.readers && s.readers[id].pc.Waiting? && s.tokens > 0
    ensures Next(c, s, StepReader(id, TakeToken))
            == Some(s.(tokens := s.tokens - 1, readers := s.readers[id := s.readers[id].(pc := LoopTop)]))
  {
  }

  /** Another reader has taken a token since this one last looked at the counter. */
  predicate TokenTaken(c: Config, run: seq<Action>, id: nat) {
    run != [] &&
      var prefix, last := run[..|run| - 1], run[|run| - 1];
      if Looks(Run(c, Init, prefix), last, id) then false
      else (last.StepReader? && last.id != id && last.choice == TakeToken) || TokenTaken(c, prefix, id)
  }

  predicate Looks(s: Option<State>, a: Action, id: nat) {
    s.Some? && a.StepReader? && a.id == id && id in s.value.readers && s.value.readers[id].pc.LoadProgress?
  }

  /** Has looked at the counter in vain, and is waiting or about to. */
  predicate LookedInVain(pc: ReaderPC) {
    pc.LoadError? || pc.CheckContext? || pc.Waiting?
  }

  /** Something is bound to wake a waiting reader, or has been there for it. */
  predicate WakeUpComing(s: State) {
    s.tokens > 0 || s.download.pc.Notifying? || s.download.pc.ClosingNotify? || s.download.notifyClosed
  }

  /** Whoever has looked in vain goes on waiting only for what was not published when it looked. */
  lemma OwnLook(c: Config, s: State, ch: ReadChoice, t: State, id: nat)
    requires id in s.readers && Next(c, s, StepReader(id, ch)) == Some(t)
    ensures t.download == s.download && id in t.readers && t.readers[id] == s.readers[id].(pc := t.readers[id].pc)
    ensures LookedInVain(t.readers[id].pc) ==>
              t.tokens == s.tokens
              && (LookedInVain(s.readers[id].pc)
                  || (s.readers[id].pc.LoadProgress? && !Published(c, s.download, s.readers[id])))
  {
  }

  /** Whenever the counter rises, a wake-up follows or has just been made. */
  lemma AnnouncesWakeUp(c: Config, s: State, net: NetChoice, t: State, r: Reader)
    requires DownloadOk(c, s.download) && DownloaderNext(c, s, net) == Some(t)
    ensures WakeUpComing(s) ==> WakeUpComing(t)
    ensures Published(c, t.download, r) && !Published(c, s.download, r) ==> WakeUpComing(t)
  {
  }

  lemma WakeUpStep(c: Config, s: State, a: Action, t: State, id: nat, taken: bool)
    requires Inv(c, s) && Next(c, s, a) == Some(t) && id in s.readers
    requires LookedInVain(s.readers[id].pc) && Published(c, s.download, s.readers[id]) ==> WakeUpComing(s) || taken
    requires a.StepReader? && a.id != id && a.choice == TakeToken ==> taken
    ensures id in t.readers
    ensures LookedInVain(t.readers[id].pc) && Published(c, t.download, t.readers[id]) ==>
              WakeUpComing(t) || (taken && !Looks(Some(s), a, id))
  {
    if a.StepReader? && a.id == id {
      OwnLook(c, s, a.choice, t, id);
    } else {
      OthersLeave(c, s, a, t, id);
      if a.StepDownloader? {
        AnnouncesWakeUp(c, s, a.net, t, s.readers[id]);
      }
    }
  }

  lemma {:induction false} RunWakeUp(c: Config, run: seq<Action>, s: State, id: nat)
    requires Run(c, Init, run) == Some(s) && id in s.readers
    ensures LookedInVain(s.readers[id].pc) && Published(c, s.download, s.readers[id]) ==>
              WakeUpComing(s) || TokenTaken(c, run, id)
  {
    if run != [] {
      var prefix, a := run[..|run| - 1], run[|run| - 1];
      var mid := Run(c, Init, prefix).value;
      if id in mid.readers {
        RunWakeUp(c, prefix, mid, id);
        assert GateSet(Init.readers) == {};
        RunKeeps(c, Init, prefix, mid);
        var taken := TokenTaken(c, prefix, id) || (a.StepReader? && a.id != id && a.choice == TakeToken);
        WakeUpStep(c, mid, a, s, id, taken);
      }
    }
  }

  /**
   A reader that waits although its region has been published is woken: a token is there or about to be sent, or
   the channel is closed or about to be; unless another reader took a token since it last looked.
   */
  lemma PublishedWakes(c: Config, run: seq<Action>, s: State, id: nat)
    requires Run(c, Init, run) == Some(s) && id in s.readers && s.readers[id].pc.Waiting?
    requires s.download.downloaded >= Min(s.readers[id].off + s.readers[id].len, c.size)
    ensures WakeUpComing(s) || TokenTaken(c, run, id)
  {
    RunWakeUp(c, run, s, id);
  }

  /** The stations of a reader on its way into the wait. */
  function WaiterPC(n: int): ReaderPC {
    if n <= 0 then CheckClosing else if n == 1 then Register else if n == 2 then RecheckClosing
    else if n == 3 then Bounds else if n == 4 then LoopTop else if n == 5 then LoadProgress
    else if n == 6 then LoadError else if n == 7 then CheckContext else Waiting
  }

  /** Two readers of the first byte wait; the byte is announced with one token; the second reader takes it. */
  function LostWakeupAction(i: nat): Action {
    if i <= 2 then StepDownloader(Proceed)
    else if i == 3 then StartRead(0, 0, 1)
    else if i <= 11 then StepReader(0, Plain)
    else if i == 12 then StartRead(1, 0, 1)
    else if i <= 20 then StepReader(1, Plain)
    else if i == 21 then StepDownloader(Deliver(1, More))
    else if i <= 24 then StepDownloader(Proceed)
    else StepReader(1, TakeToken)
  }

  function LostWakeupDownload(c: Config, i: nat): Download
    requires |c.body| > 0
  {
    var d, first := Init.download, c.body[..1];
    if i == 0 then d
    else if i == 1 then d.(pc := Requesting)
    else if i == 2 then d.(pc := Polling)
    else if i <= 21 then d.(pc := Fetching)
    else if i == 22 then d.(pc := Writing(first, More))
    else if i == 23 then d.(file := first, written := 1, pc := Publishing(More))
    else if i == 24 then d.(file := first, written := 1, downloaded := 1, pc := Notifying(More))
    else d.(file := first, written := 1, downloaded := 1, pc := Judging(More))
  }

  function LostWakeupReaders(i: nat): map<nat, Reader> {
    if i <= 3 then map[]
    else if i <= 12 then map[0 := Reader(0, 1, false, WaiterPC(i - 4))]
    else map[0 := Reader(0, 1, false, Waiting),
             1 := Reader(0, 1, false, if i <= 25 then WaiterPC(i - 13) else LoopTop)]
  }

  function LostWakeupState(c: Config, i: nat): State
    requires |c.body| > 0
  {
    Init.(download := LostWakeupDownload(c, i),
          tokens := if i == 25 then 1 else 0,
          inFlight := (if i >= 6 then 1 else 0) + (if i >= 15 then 1 else 0),
          readers := LostWakeupReaders(i))
  }

  lemma LostWakeupStep(c: Config, i: nat)
    requires c.size > 0 && |c.body| > 0 && i < 26
    ensures Next(c, LostWakeupState(c, i), LostWakeupAction(i)) == Some(LostWakeupState(c, i + 1))
  {
    var s, t := LostWakeupState(c, i), LostWakeupState(c, i + 1);
    if 4 <= i <= 11 {
      assert s.readers[0 := t.readers[0]] == t.readers;
    } else if i == 12 {
      assert s.readers[1 := Reader(0, 1, false, CheckClosing)] == t.readers;
    } else if 13 <= i <= 20 || i == 25 {
      assert s.readers[1 := t.readers[1]] == t.readers;
    } else if i == 21 || i == 22 {
      assert c.body[0..1] == c.body[..1] && [] + c.body[..1] == c.body[..1];
    }
  }

  /** Of every non-empty file: a reader can be blocked although its bytes have been announced. */
  lemma LostWakeupWitness(c: Config)
    requires c.size > 0 && |c.body| > 0
    ensures exists s :: Reachable(c, s) && 0 in s.readers && s.readers[0].pc.Waiting?
                        && Published(c, s.download, s.readers[0])
                        && forall ch :: Next(c, s, StepReader(0, ch)).None?
  {
    var run, i := [], 0;
    while i < 26
      invariant 0 <= i <= 26 && Run(c, Init, run) == Some(LostWakeupState(c, i))
    {
      LostWakeupStep(c, i);
      RunSnoc(c, Init, run, LostWakeupState(c, i), LostWakeupAction(i), LostWakeupState(c, i + 1));
      run, i := run + [LostWakeupAction(i)], i + 1;
    }
    var s := LostWakeupState(c, 26);
    assert Reachable(c, s);
    WaiterBlockedIff(c, s, 0);
  }

  // ----- the downloader -----

  /** What was written is announced before the next look at the network, and the counter never runs ahead of it. */
  lemma CounterIsWritten(c: Config, s: State)
    requires Reachable(c, s)
    ensures var d := s.download;
            && (d.pc.Polling? || d.pc.Fetching? || d.pc.Notifying? || d.pc.Judging? ==> d.downloaded == |d.file|)
            && (d.pc.Publishing? ==> d.written == |d.file|)
  {
    ReachableKeeps(c, s);
  }

  /** After a progress notification at least one token is waiting, whether the channel was full or not. */
  lemma NotifyLeavesToken(c: Config, s: State, ch: NetChoice, t: State)
    requires s.download.pc.Notifying? && Next(c, s, StepDownloader(ch)) == Some(t)
    ensures t.tokens > 0 && s.tokens <= t.tokens <= s.tokens + 1
  {
  }

  /** A downloader that has ended has closed both channels. */
  lemma ExitSignals(c: Config, s: State)
    requires Reachable(c, s) && s.download.pc.Exited?
    ensures s.download.notifyClosed && s.download.doneClosed
  {
    ReachableKeeps(c, s);
  }

  /** The error that a step brings about: of the context when a poll finds it cancelled, else of the transfer. */
  function Fault(d: Download, cancelled: bool, net: NetChoice): Option<Error> {
    if d.pc.Polling? && cancelled then Some(Cancelled)
    else if net.Refuse? then Some(DownloadFailed(net.wrapsEOF))
    else if net.Tear? || (net.Deliver? && net.end.Broken?) then Some(DownloadFailed(false))
    else None
  }

  function GoesWrong(s: State, a: Action): Option<Error> {
    if a.StepDownloader? then Fault(s.download, s.life.cancelled, a.net) else None
  }

  /** The first thing that went wrong in a run. */
  function FirstFault(c: Config, run: seq<Action>): Option<Error> {
    if run == [] then None
    else
      var prefix := run[..|run| - 1];
      if FirstFault(c, prefix).Some? then FirstFault(c, prefix)
      else if Run(c, Init, prefix).None? then None
      else GoesWrong(Run(c, Init, prefix).value, run[|run| - 1])
  }

  /** The error that the download has recorded, or is bound to record. */
  function Fate(d: Download): Option<Error> {
    match d.pc
    case Failing(e) => Some(e)
    case Writing(_, end) => if end.Broken? then Some(DownloadFailed(false)) else None
    case Publishing(end) => if end.Broken? then Some(DownloadFailed(false)) else None
    case Notifying(end) => if end.Broken? then Some(DownloadFailed(false)) else None
    case Judging(end) => if end.Broken? then Some(DownloadFailed(false)) else None
    case _ => d.error
  }

  lemma FateOfDownload(c: Config, d: Download, cancelled: bool, net: NetChoice, e: Download)
    requires DownloadOk(c, d) && DownloadStep(c, d, cancelled, net) == Some(e)
    ensures Fate(e) == if Fate(d).Some? then Fate(d) else Fault(d, cancelled, net)
  {
  }

  lemma FateStep(c: Config, s: State, a: Action, t: State)
    requires Inv(c, s) && Next(c, s, a) == Some(t)
    ensures Fate(t.download) == if Fate(s.download).Some? then Fate(s.download) else GoesWrong(s, a)
  {
    if a.StepDownloader? {
      FateOfDownload(c, s.download, s.life.cancelled, a.net, t.download);
    } else {
      assert t.download == s.download;
    }
  }

  lemma {:induction false} FateIsFirstFault(c: Config, run: seq<Action>, s: State)
    requires Run(c, Init, run) == Some(s)
    ensures Fate(s.download) == FirstFault(c, run)
  {
    if run != [] {
      var mid := Run(c, Init, run[..|run| - 1]).value;
      FateIsFirstFault(c, run[..|run| - 1], mid);
      assert GateSet(Init.readers) == {};
      RunKeeps(c, Init, run[..|run| - 1], mid);
      FateStep(c, mid, run[|run| - 1], s);
    }
  }

  /**
   How a download ends: it records exactly the first thing that went wrong in the run; and if nothing did, it has
   delivered the whole body and announced the declared size.
   */
  lemma DownloadEndsAs(c: Config, run: seq<Action>, s: State)
    requires Run(c, Init, run) == Some(s) && s.download.pc.Exited?
    ensures s.download.error == FirstFault(c, run)
    ensures FirstFault(c, run).None? ==> s.download.file == c.body && s.download.downloaded == c.size
  {
    FateIsFirstFault(c, run, s);
    assert GateSet(Init.readers) == {};
    RunKeeps(c, Init, run, s);
  }

  predicate StoppedByContext(d: Download) {
    d.error == Some(Cancelled) || d.pc == Failing(Cancelled)
  }

  lemma StoppedStep(c: Config, d: Download, cancelled: bool, ch: NetChoice, e: Download)
    requires DownloadStep(c, d, cancelled, ch) == Some(e) && StoppedByContext(e)
    ensures StoppedByContext(d) || cancelled
  {
  }

  lemma CancelledLasts(c: Config, s: State, a: Action, t: State)
    requires Next(c, s, a) == Some(t) && s.life.cancelled
    ensures t.life.cancelled
  {
  }

  /** The error of the context is recorded only after the context was cancelled. */
  lemma {:induction false} CancelledForAReason(c: Config, run: seq<Action>, s: State)
    requires Run(c, Init, run) == Some(s) && StoppedByContext(s.download)
    ensures s.life.cancelled
  {
    if run != [] {
      var prefix, a := run[..|run| - 1], run[|run| - 1];
      var mid := Run(c, Init, prefix).value;
      if a.StepDownloader? {
        StoppedStep(c, mid.download, mid.life.cancelled, a.net, s.download);
      }
      if StoppedByContext(mid.download) {
        CancelledForAReason(c, prefix, mid);
      }
      if mid.life.cancelled {
        CancelledLasts(c, mid, a, s);
      }
    }
  }

  // ----- the order of a teardown -----

  /** The file is unregistered and removed only by a Close that has cleared the handle, after all readers left. */
  lemma RemovedAfterCleared(c: Config, s: State)
    requires Reachable(c, s) && (!s.life.tracked || !s.life.onDisk)
    ensures s.life.handle == Cleared && (!s.life.onDisk ==> !s.life.tracked)
    ensures forall id :: id in s.readers ==> !Inside(s.readers[id])
  {
    ReachableKeeps(c, s);
    var w :| w in s.closers && Winner(s.closers[w]);
    assert CloserOk(s.life, s.closers[w]) && Drained(s.closers[w]);
  }

  /** A handle that has been cleared was closed before. */
  lemma {:induction false} ClearedWasShut(c: Config, run: seq<Action>, s: State)
    requires Run(c, Init, run) == Some(s) && s.life.handle != Open
    ensures exists i :: 0 <= i <= |run| && Run(c, Init, run[..i]).Some?
                        && Run(c, Init, run[..i]).value.life.handle == Shut
  {
    var prefix := run[..|run| - 1];
    var mid := Run(c, Init, prefix).value;
    if mid.life.handle != Open {
      ClearedWasShut(c, prefix, mid);
      var i :| 0 <= i <= |prefix| && Run(c, Init, prefix[..i]).Some?
               && Run(c, Init, prefix[..i]).value.life.handle == Shut;
      assert run[..i] == prefix[..i];
    } else {
      assert GateSet(Init.readers) == {};
      RunKeeps(c, Init, prefix, mid);
      ClosedFirst(c, mid, run[|run| - 1], s);
      assert run[..|run|] == run;
    }
  }

  lemma ClosedFirst(c: Config, s: State, a: Action, t: State)
    requires Inv(c, s) && Next(c, s, a) == Some(t) && s.life.handle == Open && t.life.handle != Open
    ensures t.life.handle == Shut
  {
    assert a.StepCloser?;
    assert CloserOk(s.life, s.closers[a.id]);
  }

  /** Past the wait for the downloader. */
  predicate PastDownloader(k: Closer) {
    Drained(k) || k.pc.AwaitReaders? || k.pc.TimedOut?
  }

  lemma PassesDownloader(c: Config, s: State, a: Action, t: State, w: nat)
    requires Next(c, s, a) == Some(t) && w in t.closers && PastDownloader(t.closers[w]) && !t.closers[w].cancelled
    ensures t.download.pc.Exited? || (w in s.closers && PastDownloader(s.closers[w]) && !s.closers[w].cancelled)
    ensures s.download.pc.Exited? ==> t.download.pc.Exited?
  {
  }

  /** A Close whose context is not cancelled goes on only when the downloader has ended. */
  lemma {:induction false} CloseAwaitsDownloader(c: Config, run: seq<Action>, s: State, w: nat)
    requires Run(c, Init, run) == Some(s) && w in s.closers && PastDownloader(s.closers[w]) && !s.closers[w].cancelled
    ensures s.download.pc.Exited?
  {
    if run != [] {
      var mid := Run(c, Init, run[..|run| - 1]).value;
      PassesDownloader(c, mid, run[|run| - 1], s, w);
      if !s.download.pc.Exited? {
        CloseAwaitsDownloader(c, run[..|run| - 1], mid, w);
      }
    }
  }

  /** Close gives up only while it waits for the readers, and only with its context cancelled. */
  lemma GivesUpOnReadersOnly(c: Config, s: State, a: Action, t: State, w: nat)
    requires Next(c, s, a) == Some(t) && w in t.closers && t.closers[w].pc.TimedOut?
    requires w in s.closers ==> !s.closers[w].pc.TimedOut?
    ensures w in s.closers && s.closers[w].pc.AwaitReaders? && s.closers[w].cancelled
  {
  }

  /** What a Close needs of the others to finish by itself. */
  ghost predicate OnItsOwn(c: Config, s: State, w: nat) {
    Inv(c, s) && w in s.closers && s.closers[w].cancelled && s.inFlight == 0
    && (s.closers[w].pc.AwaitDownloader? || s.closers[w].pc == AwaitReaders(false) || Drained(s.closers[w]))
  }

  lemma OwnStep(c: Config, s: State, w: nat) returns (t: State)
    requires OnItsOwn(c, s, w) && !s.closers[w].pc.Finished?
    ensures Next(c, s, StepCloser(w, s.closers[w].pc.AwaitDownloader?)) == Some(t) && OnItsOwn(c, t, w)
    ensures CloserRank(t.closers[w].pc) < CloserRank(s.closers[w].pc)
  {
    assert CloserOk(s.life, s.closers[w]);
    var a := StepCloser(w, s.closers[w].pc.AwaitDownloader?);
    t := Next(c, s, a).value;
    StepKeeps(c, s, a, t);
  }

  ghost predicate OnlyCloser(run: seq<Action>, w: nat) {
    forall i :: 0 <= i < |run| ==> run[i].StepCloser? && run[i].id == w
  }

  /** Some run of this Close alone finishes it. */
  ghost predicate FinishesAlone(c: Config, s: State, w: nat) {
    exists run :: OnlyCloser(run, w) && Run(c, s, run).Some? && w in Run(c, s, run).value.closers
                  && Run(c, s, run).value.closers[w].pc.Finished?
  }

  lemma {:induction false} OwnSteps(c: Config, s: State, w: nat)
    requires OnItsOwn(c, s, w)
    ensures FinishesAlone(c, s, w)
    decreases CloserRank(s.closers[w].pc)
  {
    if s.closers[w].pc.Finished? {
      assert Run(c, s, []) == Some(s) && OnlyCloser([], w);
    } else {
      var t := OwnStep(c, s, w);
      OwnSteps(c, t, w);
      var run :| OnlyCloser(run, w) && Run(c, t, run).Some? && w in Run(c, t, run).value.closers
                 && Run(c, t, run).value.closers[w].pc.Finished?;
      var a := StepCloser(w, s.closers[w].pc.AwaitDownloader?);
      RunCons(c, s, a, t, run);
      assert OnlyCloser([a] + run, w);
    }
  }

  /** An expired wait for the downloader does not stop a Close: with no readers left it tears down all the same. */
  lemma ExpiredCloseFinishes(c: Config, s: State, w: nat)
    requires Reachable(c, s) && w in s.closers && s.closers[w].pc.AwaitDownloader? && s.closers[w].cancelled
    requires s.inFlight == 0
    ensures FinishesAlone(c, s, w)
  {
    ReachableKeeps(c, s);
    OwnSteps(c, s, w);
  }
}
