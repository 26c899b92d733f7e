/**
 Liveness of TempFileStore, as bounds on runs. After the download has ended every ReadAt returns
 within a fixed number of its own steps; after a Close has cancelled the download, the whole
 system can take only a bounded number of steps before the handle is closed, and until then
 some step is always possible.
 */
module TempFileProgress {
  import opened Common
  import opened TempFileProtocol
  import opened TempFileSafety

  // ----- no stranded waiter -----

  /**
   How many steps a reader still needs once doneCh is closed. A reader that compared an outdated
   counter may go round the wait loop once more, unless an error is recorded.
   */
  function StepsLeft(failed: bool, pc: ReaderPC): nat {
    match pc
    case CheckClosing => 11
    case Register => 10
    case RecheckClosing => 9
    case Bounds => 8
    case CheckContext => 7
    case Waiting => 6
    case LoopTop => 5
    case LoadProgress => 4
    case LoadError => if failed then 2 else 8
    case LoadHandle => 3
    case ReadFile => 2
    case Deregister(_) => 1
    case Returned(_) => 0
  }

  function StepsOf(run: seq<Action>, id: nat): nat {
    if run == [] then 0
    else
      var last := run[|run| - 1];
      StepsOf(run[..|run| - 1], id) + if last.StepReader? && last.id == id then 1 else 0
  }

  /** Whenever doneCh is closed, an error is set or the counter has reached the file size. */
  lemma DoneMeansDecided(c: Config, s: State)
    requires Reachable(c, s) && s.download.doneClosed
    ensures s.download.error.Some? || s.download.downloaded == c.size
  {
    ReachableKeeps(c, s);
  }

  /** Once doneCh is closed, no reader is ever blocked, whoever consumed the progress tokens. */
  lemma NeverBlockedAfterDone(c: Config, s: State, id: nat)
    requires Reachable(c, s) && s.download.doneClosed && id in s.readers && !s.readers[id].pc.Returned?
    ensures Next(c, s, StepReader(id, Plain)).Some? || Next(c, s, StepReader(id, TakeDone)).Some?
  {
  }

  lemma StepAfterDone(c: Config, s: State, a: Action, t: State, id: nat)
    requires DownloadOk(c, s.download) && s.download.doneClosed && id in s.readers && Next(c, s, a) == Some(t)
    ensures t.download.doneClosed && t.download.error == s.download.error && id in t.readers
    ensures StepsLeft(t.download.error.Some?, t.readers[id].pc) + (if a.StepReader? && a.id == id then 1 else 0)
            <= StepsLeft(s.download.error.Some?, s.readers[id].pc)
  {
    if a.StepReader? && a.id == id {
      ReaderAfterDone(c, s.download, s.life, s.tokens, s.readers[id], a.choice);
    }
  }

  lemma ReaderAfterDone(c: Config, d: Download, l: Life, tokens: nat, r: Reader, ch: ReadChoice)
    requires DownloadOk(c, d) && d.doneClosed && ReaderStep(c, d, l, tokens, r, ch).Some?
    ensures StepsLeft(d.error.Some?, ReaderStep(c, d, l, tokens, r, ch).value) < StepsLeft(d.error.Some?, r.pc)
  {
  }

  /**
   No stranded waiter: in any run that starts after doneCh was closed, a ReadAt takes at most
   StepsLeft steps in all, so a reader in the wait loop leaves after at most one more iteration.
   */
  lemma {:induction false} NoStrandedWaiter(c: Config, s: State, run: seq<Action>, t: State, id: nat)
    requires Reachable(c, s) && s.download.doneClosed && id in s.readers && Run(c, s, run) == Some(t)
    ensures id in t.readers && t.download.doneClosed
    ensures StepsOf(run, id) + StepsLeft(t.download.error.Some?, t.readers[id].pc)
            <= StepsLeft(s.download.error.Some?, s.readers[id].pc)
  {
    if run != [] {
      var prefix := run[..|run| - 1];
      var mid := Run(c, s, prefix).value;
      NoStrandedWaiter(c, s, prefix, mid, id);
      ReachableKeeps(c, s);
      RunKeeps(c, s, prefix, mid);
      StepAfterDone(c, mid, run[|run| - 1], t, id);
    }
  }

  // ----- newcomers -----

  /** Past the first closing check and not yet returned: the only readers that touch the counter. */
  predicate Committed(r: Reader) {
    !r.pc.CheckClosing? && !r.pc.Returned?
  }

  /**
   Once closing is set, no reader newly commits to the gate and none newly enters the part of
   ReadAt that holds the wait loop and the file access.
   */
  lemma {:induction false} ClosedToNewcomers(c: Config, s: State, run: seq<Action>, t: State, id: nat)
    requires s.life.closing && Run(c, s, run) == Some(t) && id in t.readers
    ensures t.life.closing
    ensures Committed(t.readers[id]) ==> id in s.readers && Committed(s.readers[id])
    ensures Inside(t.readers[id]) ==> id in s.readers && Inside(s.readers[id])
  {
    if run != [] {
      var prefix := run[..|run| - 1];
      var mid := Run(c, s, prefix).value;
      StillClosing(c, s, prefix, mid);
      NoNewcomer(c, mid, run[|run| - 1], t, id);
      if id in mid.readers {
        ClosedToNewcomers(c, s, prefix, mid, id);
      }
    }
  }

  lemma NoNewcomer(c: Config, s: State, a: Action, t: State, id: nat)
    requires s.life.closing && Next(c, s, a) == Some(t) && id in t.readers
    ensures t.life.closing
    ensures Committed(t.readers[id]) ==> id in s.readers && Committed(s.readers[id])
    ensures Inside(t.readers[id]) ==> id in s.readers && Inside(s.readers[id])
  {
  }

  lemma ClosingLasts(c: Config, s: State, a: Action, t: State)
    requires s.life.closing && Next(c, s, a) == Some(t)
    ensures t.life.closing
  {
  }

  lemma {:induction false} StillClosing(c: Config, s: State, run: seq<Action>, t: State)
    requires s.life.closing && Run(c, s, run) == Some(t)
    ensures t.life.closing
  {
    if run != [] {
      var mid := Run(c, s, run[..|run| - 1]).value;
      StillClosing(c, s, run[..|run| - 1], mid);
      ClosingLasts(c, mid, run[|run| - 1], t);
    }
  }

  // ----- drain -----

  /** The winner has set closing and cancelled the download. */
  ghost predicate Draining(s: State, w: nat) {
    w in s.closers && Winner(s.closers[w]) && !s.closers[w].pc.SwapClosing? && !s.closers[w].pc.CancelDownload?
  }

  /** An upper bound on the steps of a reader while closing is set; the first check is not counted. */
  function ReaderRank(pc: ReaderPC): nat {
    match pc
    case LoadProgress => 6
    case LoadError => 5
    case CheckContext => 4
    case Register => 3
    case Bounds => 3
    case Waiting => 3
    case LoadHandle => 3
    case RecheckClosing => 2
    case LoopTop => 2
    case ReadFile => 2
    case Deregister(_) => 1
    case _ => 0
  }

  function DownloaderRank(pc: DownloaderPC): nat {
    match pc
    case Opening => 12
    case Requesting => 11
    case Fetching => 10
    case Writing(_, _) => 9
    case Publishing(_) => 8
    case Notifying(_) => 7
    case Judging(_) => 6
    case Polling => 5
    case Failing(_) => 4
    case ClosingNotify => 3
    case ClosingDone => 2
    case Signalling => 1
    case Exited => 0
  }

  function CloserRank(pc: CloserPC): nat {
    match pc
    case AwaitDownloader => 8
    case AwaitReaders(drained) => if drained then 6 else 7
    case CheckHandle => 5
    case ShutHandle => 4
    case ClearHandle => 3
    case UnregisterFile => 2
    case RemoveFile => 1
    case _ => 0
  }

  function ReaderRanks(readers: map<nat, Reader>): map<nat, nat> {
    map id | id in readers :: ReaderRank(readers[id].pc)
  }

  /** The work that is left: the downloader's, the committed readers' and the winner's. */
  ghost function WorkLeft(s: State, w: nat): nat
    requires w in s.closers
  {
    DownloaderRank(s.download.pc) + Total(ReaderRanks(s.readers)) + CloserRank(s.closers[w].pc)
  }

  /** Steps that count: the downloader's, the winner's, and those of committed readers. */
  predicate Counted(s: State, a: Action, w: nat) {
    match a
    case StepDownloader(_) => true
    case StepReader(id, _) => id in s.readers && Committed(s.readers[id])
    case StepCloser(id, _) => id == w
    case _ => false
  }

  lemma ReaderRanksUpdate(readers: map<nat, Reader>, id: nat, r: Reader)
    ensures Total(ReaderRanks(readers[id := r])) + (if id in readers then ReaderRank(readers[id].pc) else 0)
            == Total(ReaderRanks(readers)) + ReaderRank(r.pc)
  {
    assert ReaderRanks(readers[id := r]) == ReaderRanks(readers)[id := ReaderRank(r.pc)];
    TotalUpdate(ReaderRanks(readers), id, ReaderRank(r.pc));
  }

  lemma ReaderDrains(c: Config, d: Download, l: Life, tokens: nat, r: Reader, ch: ReadChoice)
    requires l.closing && ReaderStep(c, d, l, tokens, r, ch).Some?
    ensures ReaderRank(ReaderStep(c, d, l, tokens, r, ch).value) + (if Committed(r) then 1 else 0) <= ReaderRank(r.pc)
  {
  }

  lemma DownloaderDrains(c: Config, d: Download, ch: NetChoice)
    requires DownloadStep(c, d, true, ch).Some?
    ensures DownloaderRank(DownloadStep(c, d, true, ch).value.pc) < DownloaderRank(d.pc)
  {
  }

  lemma CloserDrains(c: Config, s: State, w: nat, expire: bool, t: State)
    requires Inv(c, s) && Draining(s, w) && CloserNext(s, w, expire) == Some(t)
    ensures Draining(t, w) && WorkLeft(t, w) < WorkLeft(s, w)
  {
    assert CloserOk(s.life, s.closers[w]);
  }

  lemma StepDrains(c: Config, s: State, w: nat, a: Action, t: State)
    requires Inv(c, s) && Draining(s, w) && Next(c, s, a) == Some(t)
    ensures Draining(t, w)
    ensures WorkLeft(t, w) + (if Counted(s, a, w) then 1 else 0) <= WorkLeft(s, w)
  {
    assert CloserOk(s.life, s.closers[w]);
    match a
    case StartRead(id, off, len) => ReaderRanksUpdate(s.readers, id, t.readers[id]);
    case CancelRead(id) => ReaderRanksUpdate(s.readers, id, t.readers[id]);
    case StartClose(id) =>
    case CancelClose(id) =>
    case CancelParent =>
    case StepDownloader(net) => DownloaderDrains(c, s.download, net);
    case StepReader(id, ch) =>
      ReaderDrains(c, s.download, s.life, s.tokens, s.readers[id], ch);
      ReaderRanksUpdate(s.readers, id, t.readers[id]);
    case StepCloser(id, expire) =>
      if id == w {
        CloserDrains(c, s, w, expire, t);
      }
  }

  ghost function CountedSteps(c: Config, s: State, run: seq<Action>, w: nat): nat
    requires Run(c, s, run).Some?
  {
    if run == [] then 0
    else
      var prefix := run[..|run| - 1];
      CountedSteps(c, s, prefix, w) + if Counted(Run(c, s, prefix).value, run[|run| - 1], w) then 1 else 0
  }

  /** However steps interleave with new arrivals, only WorkLeft counted steps can ever happen. */
  lemma {:induction false} DrainIsBounded(c: Config, s: State, w: nat, run: seq<Action>, t: State)
    requires Reachable(c, s) && Draining(s, w) && Run(c, s, run) == Some(t)
    ensures Draining(t, w)
    ensures CountedSteps(c, s, run, w) + WorkLeft(t, w) <= WorkLeft(s, w)
  {
    if run != [] {
      var prefix := run[..|run| - 1];
      var mid := Run(c, s, prefix).value;
      DrainIsBounded(c, s, w, prefix, mid);
      ReachableKeeps(c, s);
      RunKeeps(c, s, prefix, mid);
      StepDrains(c, mid, w, run[|run| - 1], t);
    }
  }

  /** Some step the downloader can take when it has not exited. */
  function DownloaderMove(pc: DownloaderPC): NetChoice {
    if pc.Fetching? then Deliver(0, Broken) else Proceed
  }

  /** The step that brings the drain on. */
  lemma DrainMove(c: Config, s: State, w: nat) returns (a: Action)
    requires Inv(c, s) && Draining(s, w)
    requires !s.closers[w].pc.Finished? && !s.closers[w].pc.TimedOut?
    ensures Counted(s, a, w) && Next(c, s, a).Some?
    ensures !(a.StepCloser? && a.expire) && !(a.StepReader? && a.choice == TakeContext)
  {
    assert CloserOk(s.life, s.closers[w]);
    if s.download.pc != Exited {
      a := StepDownloader(DownloaderMove(s.download.pc));
    } else if s.closers[w].pc == AwaitReaders(false) && s.inFlight != 0 {
      var id :| id in GateSet(s.readers);
      a := StepReader(id, if s.readers[id].pc.Waiting? then TakeDone else Plain);
    } else {
      a := StepCloser(w, false);
    }
  }

  /**
   Until the winner has finished or its context has expired, some counted step is possible, and it
   needs no cancelled context. With DrainIsBounded: a Close whose context does not expire reaches
   the end of the teardown in every run in which enabled steps are eventually taken.
   */
  lemma DrainNeverStuck(c: Config, s: State, w: nat)
    requires Reachable(c, s) && Draining(s, w)
    requires !s.closers[w].pc.Finished? && !s.closers[w].pc.TimedOut?
    ensures exists a :: Counted(s, a, w) && Next(c, s, a).Some?
                        && !(a.StepCloser? && a.expire) && !(a.StepReader? && a.choice == TakeContext)
  {
    ReachableKeeps(c, s);
    var a := DrainMove(c, s, w);
  }

  /**
   A Close that finished has cleared the handle, unregistered and removed the file; the downloader is
   stopped or told to stop, and nobody is inside.
   */
  lemma FinishedMeansClosed(c: Config, s: State, w: nat)
    requires Reachable(c, s) && w in s.closers && s.closers[w].pc.Finished?
    ensures s.life.handle == Cleared && !s.life.tracked && !s.life.onDisk && s.life.cancelled
    ensures forall id :: id in s.readers ==> !Inside(s.readers[id])
  {
    ReachableKeeps(c, s);
    assert CloserOk(s.life, s.closers[w]);
    assert Drained(s.closers[w]);
  }

  // ----- when the handle is never closed -----

  /** Some continuation of s closes the handle. */
  ghost predicate CanClose(c: Config, s: State) {
    exists run :: Run(c, s, run).Some? && Run(c, s, run).value.life.handle == Cleared
  }

  lemma {:induction false} RunCons(c: Config, s: State, a: Action, t: State, run: seq<Action>)
    requires Next(c, s, a) == Some(t)
    ensures Run(c, s, [a] + run) == Run(c, t, run)
  {
    if run == [] {
      assert ([a] + run)[..0] == [];
      assert Run(c, s, []) == Some(s);
    } else {
      RunCons(c, s, a, t, run[..|run| - 1]);
      assert ([a] + run)[..|run|] == [a] + run[..|run| - 1];
    }
  }

  lemma ClosesLater(c: Config, s: State, a: Action, t: State)
    requires Next(c, s, a) == Some(t) && CanClose(c, t)
    ensures CanClose(c, s)
  {
    var run :| Run(c, t, run).Some? && Run(c, t, run).value.life.handle == Cleared;
    RunCons(c, s, a, t, run);
  }

  lemma NotTimedOutByMove(c: Config, s: State, w: nat, a: Action, t: State)
    requires w in s.closers && !s.closers[w].pc.TimedOut? && Next(c, s, a) == Some(t)
    requires !(a.StepCloser? && a.expire)
    ensures w in t.closers && !t.closers[w].pc.TimedOut?
  {
  }

  lemma {:induction false} DrainCanClose(c: Config, s: State, w: nat)
    requires Inv(c, s) && Draining(s, w) && !s.closers[w].pc.TimedOut?
    ensures CanClose(c, s)
    decreases WorkLeft(s, w)
  {
    if s.closers[w].pc.Finished? {
      assert CloserOk(s.life, s.closers[w]);
      assert Run(c, s, []) == Some(s);
    } else {
      var a := DrainMove(c, s, w);
      var t := Next(c, s, a).value;
      StepKeeps(c, s, a, t);
      StepDrains(c, s, w, a, t);
      NotTimedOutByMove(c, s, w, a, t);
      DrainCanClose(c, t, w);
      ClosesLater(c, s, a, t);
    }
  }

  lemma WinnerCancels(c: Config, s: State, w: nat)
    requires Inv(c, s) && w in s.closers && s.closers[w].pc.CancelDownload?
    ensures CanClose(c, s)
  {
    var a := StepCloser(w, false);
    var t := Next(c, s, a).value;
    StepKeeps(c, s, a, t);
    DrainCanClose(c, t, w);
    ClosesLater(c, s, a, t);
  }

  lemma WinnerCanClose(c: Config, s: State, w: nat)
    requires Inv(c, s) && w in s.closers && Winner(s.closers[w]) && !s.closers[w].pc.TimedOut?
    ensures CanClose(c, s)
  {
    assert CloserOk(s.life, s.closers[w]);
    var a := StepCloser(w, false);
    if s.closers[w].pc.SwapClosing? {
      var t := Next(c, s, a).value;
      StepKeeps(c, s, a, t);
      WinnerCancels(c, t, w);
      ClosesLater(c, s, a, t);
    } else if s.closers[w].pc.CancelDownload? {
      WinnerCancels(c, s, w);
    } else {
      DrainCanClose(c, s, w);
    }
  }

  lemma {:induction false} FreshId(ids: set<nat>) returns (id: nat)
    ensures forall i :: i in ids ==> i < id
  {
    if ids == {} {
      id := 0;
    } else {
      var i :| i in ids;
      var rest := FreshId(ids - {i});
      id := if rest <= i then i + 1 else rest;
      assert forall j :: j in ids ==> j == i || j in ids - {i};
    }
  }

  lemma NewCloserCanClose(c: Config, s: State)
    requires Inv(c, s) && !HasWinner(s.closers)
    ensures CanClose(c, s)
  {
    var id := FreshId(s.closers.Keys);
    assert id !in s.closers;
    var a, b := StartClose(id), StepCloser(id, false);
    var t := Next(c, s, a).value;
    StepKeeps(c, s, a, t);
    assert !t.life.closed;
    var u := Next(c, t, b).value;
    StepKeeps(c, t, b, u);
    WinnerCanClose(c, u, id);
    ClosesLater(c, t, b, u);
    ClosesLater(c, s, a, t);
  }

  /**
   When does the handle stay open for good? In every reachable state: no continuation whatsoever closes it,
   with new Closes or without, if and only if some Close has timed out; and that takes a cancelled context.
   */
  lemma LeakedIffTimedOut(c: Config, s: State)
    requires Reachable(c, s)
    ensures !CanClose(c, s) <==> exists k :: k in s.closers && s.closers[k].pc.TimedOut?
    ensures forall k :: k in s.closers && s.closers[k].pc.TimedOut? ==> s.closers[k].cancelled
  {
    ReachableKeeps(c, s);
    var trace :| Run(c, Init, trace) == Some(s);
    forall k | k in s.closers && s.closers[k].pc.TimedOut? ensures s.closers[k].cancelled && !CanClose(c, s) {
      TimeoutNeedsCancel(c, trace, s, k);
      forall run | Run(c, s, run).Some? ensures Run(c, s, run).value.life.handle == Open {
        TimedOutCloseLeaksHandle(c, s, k, run, Run(c, s, run).value);
      }
    }
    if HasWinner(s.closers) {
      var w :| w in s.closers && Winner(s.closers[w]);
      if !s.closers[w].pc.TimedOut? {
        WinnerCanClose(c, s, w);
      }
    } else {
      NewCloserCanClose(c, s);
    }
  }
}
