/**
 TempFileStore as a step relation: one downloader, any number of ReadAt callers and any number of
 closers over one shared read handle. One atomic load, store, compare-and-swap, WaitGroup operation,
 channel operation or file operation is one step; steps of different goroutines interleave freely.
 */
module TempFileProtocol {
  import opened Common

  /** The declared file size, and the bytes the server delivers before it ends the body. */
  datatype Config = Config(size: nat, body: seq<byte>)

  const READ_BUFFER: nat := 256 * 1024
  const NOTIFY_CAPACITY: nat := 100

  /** How a read from the response body ended: more may follow, end of body, or a network error. */
  datatype NetEnd = More | BodyEnd | Broken

  datatype DownloaderPC =
    | Opening
    | Requesting
    | Polling                                    // the ctx check at the head of the loop
    | Fetching                                   // resp.Body.Read
    | Writing(chunk: seq<byte>, end: NetEnd)     // f.Write
    | Publishing(end: NetEnd)                    // downloaded.Store(totalWritten)
    | Notifying(end: NetEnd)                     // the non-blocking send on notifyCh
    | Judging(end: NetEnd)                       // the readErr check
    | Failing(error: Error)                      // setError
    | ClosingNotify | ClosingDone | Signalling   // the deferred closes, then wg.Done
    | Exited

  datatype ReaderPC =
    | CheckClosing                    // first load of closing
    | Register                        // readers.Add(1)
    | RecheckClosing                  // second load of closing
    | Bounds
    | LoopTop                         // load of closing in the wait loop
    | LoadProgress
    | LoadError
    | CheckContext
    | Waiting                         // the three-way select
    | LoadHandle
    | ReadFile
    | Deregister(result: ReadResult)  // the deferred readers.Done
    | Returned(result: ReadResult)

  datatype Reader = Reader(off: nat, len: nat, cancelled: bool, pc: ReaderPC)

  datatype CloserPC =
    | SwapClosed
    | SwapClosing
    | CancelDownload
    | AwaitDownloader
    | AwaitReaders(drained: bool)   // drained: the helper goroutine has seen readers.Wait return
    | CheckHandle
    | ShutHandle
    | ClearHandle
    | UnregisterFile                // TempFileManager.Unregister
    | RemoveFile                    // os.Remove
    | Finished                      // tore the store down
    | TimedOut                      // its context expired before the readers drained
    | Lost                          // another caller was first

  datatype Closer = Closer(cancelled: bool, pc: CloserPC)

  datatype Handle = Open | Shut | Cleared

  /** What the downloader writes: the bytes on disk, the counters, the error and the two channels' ends. */
  datatype Download = Download(
    file: seq<byte>,
    written: nat,
    downloaded: nat,
    error: Option<Error>,
    notifyClosed: bool,
    doneClosed: bool,
    pc: DownloaderPC)

  /** What the closers write. */
  datatype Life = Life(
    closed: bool,
    closing: bool,
    cancelled: bool,
    handle: Handle,
    tracked: bool,     // not yet unregistered by the store
    onDisk: bool)      // not yet removed by the store

  datatype State = State(
    download: Download,
    life: Life,
    tokens: nat,       // progress tokens waiting in notifyCh
    inFlight: int,     // the readers WaitGroup
    readers: map<nat, Reader>,
    closers: map<nat, Closer>)

  const Init :=
    State(Download([], 0, 0, None, false, false, Opening),
          Life(false, false, false, Open, true, true), 0, 0, map[], map[])

  /** Where the wanted region ends: off + len, clamped to the file size. */
  function WantEnd(c: Config, r: Reader): nat {
    Min(r.off + r.len, c.size)
  }

  // ----- the downloader -----

  /** What the environment decides in a downloader step. */
  datatype NetChoice =
    | Proceed
    | Refuse(wrapsEOF: bool)           // an open, request or status error
    | Deliver(n: nat, end: NetEnd)     // n bytes, then end
    | Tear(n: nat)                     // a write that fails after n bytes

  /** The steps of the downloader that leave no choice. */
  function PlainDownloadStep(c: Config, d: Download, cancelled: bool): Option<Download> {
    match d.pc
    case Polling => Some(d.(pc := if cancelled then Failing(Cancelled) else Fetching))
    case Publishing(end) => Some(d.(downloaded := d.written, pc := Notifying(end)))
    case Notifying(end) => Some(d.(pc := Judging(end)))
    case Judging(More) => Some(d.(pc := Polling))
    case Judging(BodyEnd) => Some(d.(downloaded := c.size, pc := ClosingNotify))
    case Judging(Broken) => Some(d.(pc := Failing(DownloadFailed(false))))
    case Failing(e) => Some(d.(error := Some(e), pc := ClosingNotify))
    case ClosingNotify => Some(d.(notifyClosed := true, pc := ClosingDone))
    case ClosingDone => Some(d.(doneClosed := true, pc := Signalling))
    case Signalling => Some(d.(pc := Exited))
    case _ => None
  }

  /** One step of the downloader goroutine on the state it owns. */
  function DownloadStep(c: Config, d: Download, cancelled: bool, ch: NetChoice): Option<Download> {
    if d.pc.Opening? then
      if ch == Proceed then Some(d.(file := [], pc := Requesting))
      else if ch == Refuse(false) then Some(d.(pc := Failing(DownloadFailed(false)))) else None
    else if d.pc.Requesting? then
      if ch == Proceed then Some(d.(pc := Polling))
      else if ch.Refuse? then Some(d.(pc := Failing(DownloadFailed(ch.wrapsEOF)))) else None
    else if d.pc.Fetching? then
      if ch.Deliver? && ch.n <= READ_BUFFER && |d.file| + ch.n <= |c.body|
         && (ch.end == BodyEnd ==> |d.file| + ch.n == |c.body|)
      then
        Some(d.(pc := if ch.n > 0 then Writing(c.body[|d.file|..|d.file| + ch.n], ch.end) else Judging(ch.end)))
      else None
    else if d.pc.Writing? then
      if ch == Proceed then
        Some(d.(file := d.file + d.pc.chunk, written := d.written + |d.pc.chunk|, pc := Publishing(d.pc.end)))
      else if ch.Tear? && ch.n <= |d.pc.chunk| then
        Some(d.(file := d.file + d.pc.chunk[..ch.n], pc := Failing(DownloadFailed(false))))
      else None
    else if ch == Proceed then PlainDownloadStep(c, d, cancelled)
    else None
  }

  function DownloaderNext(c: Config, s: State, ch: NetChoice): Option<State> {
    match DownloadStep(c, s.download, s.life.cancelled, ch)
    case None => None
    case Some(d) =>
      var sent := s.download.pc.Notifying? && s.tokens < NOTIFY_CAPACITY;
      Some(s.(download := d, tokens := if sent then s.tokens + 1 else s.tokens))
  }

  // ----- readers -----

  /** Which arm a select takes, or how the file read ends. */
  datatype ReadChoice = Plain | TakeDone | TakeToken | TakeContext | IoError(n: nat)

  function Leave(e: Error): ReaderPC {
    Deregister(Fail(e))
  }

  /** os.File.ReadAt on the clamped buffer, followed by the EOF fix-ups of ReadAt. */
  function FileRead(c: Config, file: seq<byte>, r: Reader): ReadResult {
    var want := WantEnd(c, r);
    var data := Slice(file, r.off, want);
    if r.off + |data| >= want then ReadResult(data, None)
    else if |data| > 0 && r.off + |data| <= c.size then ReadResult(data, None)
    else if r.off + |data| == c.size then ReadResult(data, None)
    else ReadResult(data, Some(EOF))
  }

  /** The steps of a reader that leave no choice; the select and the file read are in ReaderStep. */
  function PlainStep(c: Config, d: Download, l: Life, r: Reader): Option<ReaderPC> {
    match r.pc
    case CheckClosing => Some(if l.closing then Returned(Fail(ErrClosed)) else Register)
    case Register => Some(RecheckClosing)
    case RecheckClosing => Some(if l.closing then Leave(ErrClosed) else Bounds)
    case Bounds => Some(if r.off >= c.size then Leave(EOF) else LoopTop)
    case LoopTop => Some(if l.closing then Leave(ErrClosed) else LoadProgress)
    case LoadProgress => Some(if d.downloaded >= WantEnd(c, r) then LoadHandle else LoadError)
    case LoadError => Some(if d.error.Some? then Leave(d.error.value) else CheckContext)
    case CheckContext => Some(if r.cancelled then Leave(Cancelled) else Waiting)
    case LoadHandle => Some(if l.handle == Cleared then Leave(ErrClosed) else ReadFile)
    case Deregister(res) => Some(Returned(res))
    case _ => None
  }

  /** Where one step takes a reader, given what it can see of the shared state. */
  function ReaderStep(c: Config, d: Download, l: Life, tokens: nat, r: Reader, ch: ReadChoice): Option<ReaderPC> {
    if r.pc.Waiting? then
      if ch == TakeDone && d.doneClosed then Some(LoopTop)
      else if ch == TakeToken && (tokens > 0 || d.notifyClosed) then Some(LoopTop)
      else if ch == TakeContext && r.cancelled then Some(Leave(Cancelled))
      else None
    else if r.pc.ReadFile? then
      var data := Slice(d.file, r.off, WantEnd(c, r));
      if l.handle != Open then Some(Leave(ErrClosed))
      else if ch == Plain then Some(Deregister(FileRead(c, d.file, r)))
      else if ch.IoError? && ch.n <= |data| then Some(Deregister(ReadResult(data[..ch.n], Some(IoFailed))))
      else None
    else if ch == Plain then PlainStep(c, d, l, r)
    else None
  }

  /** What that step does to the shared state: the reader count and the token channel. */
  function ReaderNext(c: Config, s: State, id: nat, ch: ReadChoice): Option<State>
    requires id in s.readers
  {
    var r := s.readers[id];
    match ReaderStep(c, s.download, s.life, s.tokens, r, ch)
    case None => None
    case Some(pc) =>
      var count := if r.pc.Register? then s.inFlight + 1
                   else if r.pc.Deregister? then s.inFlight - 1 else s.inFlight;
      var taken := r.pc.Waiting? && ch == TakeToken && s.tokens > 0;
      Some(s.(inFlight := count,
              tokens := if taken then s.tokens - 1 else s.tokens,
              readers := s.readers[id := r.(pc := pc)]))
  }

  // ----- closers -----

  /** Where one step of CloseWithContext takes a closer; expire takes the ctx.Done arm of a select. */
  function CloserStep(l: Life, exited: bool, inFlight: int, k: Closer, expire: bool): Option<CloserPC> {
    if expire then
      (if !k.cancelled then None
       else if k.pc.AwaitDownloader? then Some(AwaitReaders(false))
       else if k.pc.AwaitReaders? then Some(TimedOut)
       else None)
    else
      match k.pc
      case SwapClosed => Some(if l.closed then Lost else SwapClosing)
      case SwapClosing => Some(if l.closing then Lost else CancelDownload)
      case CancelDownload => Some(AwaitDownloader)
      case AwaitDownloader => if exited then Some(AwaitReaders(false)) else None
      case AwaitReaders(drained) =>
        if drained then Some(CheckHandle) else if inFlight == 0 then Some(AwaitReaders(true)) else None
      case CheckHandle => Some(if l.handle == Cleared then UnregisterFile else ShutHandle)
      case ShutHandle => Some(ClearHandle)
      case ClearHandle => Some(UnregisterFile)
      case UnregisterFile => Some(RemoveFile)
      case RemoveFile => Some(Finished)
      case _ => None
  }

  /** What that step writes. */
  function LifeAfter(l: Life, pc: CloserPC): Life {
    match pc
    case SwapClosed => l.(closed := true)
    case SwapClosing => l.(closing := true)
    case CancelDownload => l.(cancelled := true)
    case ShutHandle => l.(handle := Shut)
    case ClearHandle => l.(handle := Cleared)
    case UnregisterFile => l.(tracked := false)
    case RemoveFile => l.(onDisk := false)
    case _ => l
  }

  function CloserNext(s: State, id: nat, expire: bool): Option<State>
    requires id in s.closers
  {
    var k := s.closers[id];
    match CloserStep(s.life, s.download.pc.Exited?, s.inFlight, k, expire)
    case None => None
    case Some(pc) => Some(s.(life := LifeAfter(s.life, k.pc), closers := s.closers[id := k.(pc := pc)]))
  }

  // ----- the whole system -----

  datatype Action =
    | StartRead(id: nat, off: nat, len: nat)
    | CancelRead(id: nat)
    | StartClose(id: nat)
    | CancelClose(id: nat)
    | CancelParent                                 // the filesystem's own context ends
    | StepDownloader(net: NetChoice)
    | StepReader(id: nat, choice: ReadChoice)
    | StepCloser(id: nat, expire: bool)

  /** The state after a, or None when a is not enabled in s. */
  function Next(c: Config, s: State, a: Action): Option<State> {
    match a
    case StartRead(id, off, len) =>
      if id in s.readers then None
      else Some(s.(readers := s.readers[id := Reader(off, len, false, CheckClosing)]))
    case CancelRead(id) =>
      if id in s.readers then Some(s.(readers := s.readers[id := s.readers[id].(cancelled := true)]))
      else None
    case StartClose(id) =>
      if id in s.closers then None else Some(s.(closers := s.closers[id := Closer(false, SwapClosed)]))
    case CancelClose(id) =>
      if id in s.closers then Some(s.(closers := s.closers[id := s.closers[id].(cancelled := true)]))
      else None
    case CancelParent => Some(s.(life := s.life.(cancelled := true)))
    case StepDownloader(net) => DownloaderNext(c, s, net)
    case StepReader(id, choice) => if id in s.readers then ReaderNext(c, s, id, choice) else None
    case StepCloser(id, expire) => if id in s.closers then CloserNext(s, id, expire) else None
  }

  /** Some final state when every action of the run is enabled in turn, None otherwise. */
  function Run(c: Config, s: State, run: seq<Action>): Option<State> {
    if run == [] then Some(s)
    else
      var rest := Run(c, s, run[..|run| - 1]);
      if rest.None? then None else Next(c, rest.value, run[|run| - 1])
  }

  ghost predicate Reachable(c: Config, s: State) {
    exists run :: Run(c, Init, run) == Some(s)
  }
}
