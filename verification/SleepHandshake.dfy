/**
 Sleep prevention: Open and Release start goroutines that switch the prevention on and off, and these
 race with later Opens and Releases. One critical section or goroutine start is one step; the off
 switch reads the handle table between two points where it holds sleepMu.
 */
module SleepHandshake {
  import opened Common

  /** Who holds sleepMu across steps: nobody, or an off switch that has or has not read the handle table. */
  datatype Mutex = Free | Checking | Deciding(hasOpen: bool)

  datatype State = State(
    live: set<nat>,        // keys of fhToStore
    held: bool,            // sleepRelease != nil
    mutex: Mutex,
    starting: nat,         // Opens that registered the first handle and have yet to start the on switch
    enabling: nat,         // on switches started and not yet run
    stopping: nat,         // Releases that removed a handle and have yet to start the off switch
    disabling: nat,        // off switches started and not yet run
    failed: bool,          // the latest on switch called PreventSleep and got an error
    stopped: bool)         // Stop has switched the prevention off

  const Init := State({}, false, Free, 0, 0, 0, 0, false, false)

  datatype Action =
    | Register(fh: nat)        // Open: the critical section on the handle table
    | StartEnable
    | RunEnable(ok: bool)      // enableSleepPrevention; ok: PreventSleep succeeds
    | Remove(fh: nat)          // Release: the critical section on the handle table
    | StartDisable
    | EnterDisable             // disableSleepPrevention: lock, and the nil check
    | ReadHandles
    | FinishDisable
    | StopSystem

  function Next(s: State, a: Action): Option<State> {
    match a
    case Register(fh) =>
      if fh in s.live then None
      else Some(s.(live := s.live + {fh}, starting := if s.live == {} then s.starting + 1 else s.starting))
    case StartEnable =>
      if s.starting == 0 then None else Some(s.(starting := s.starting - 1, enabling := s.enabling + 1))
    case RunEnable(ok) =>
      if s.enabling == 0 || s.mutex != Free then None
      else Some(s.(enabling := s.enabling - 1, held := s.held || ok, failed := !s.held && !ok))
    case Remove(fh) =>
      if fh !in s.live then None else Some(s.(live := s.live - {fh}, stopping := s.stopping + 1))
    case StartDisable =>
      if s.stopping == 0 then None else Some(s.(stopping := s.stopping - 1, disabling := s.disabling + 1))
    case EnterDisable =>
      if s.disabling == 0 || s.mutex != Free then None
      else Some(s.(disabling := s.disabling - 1, mutex := if s.held then Checking else Free))
    case ReadHandles =>
      if s.mutex != Checking then None else Some(s.(mutex := Deciding(s.live != {})))
    case FinishDisable =>
      if !s.mutex.Deciding? then None else Some(s.(mutex := Free, held := s.held && s.mutex.hasOpen))
    case StopSystem =>
      if s.mutex != Free then None else Some(s.(held := false, stopped := true))
  }

  function Run(s: State, run: seq<Action>): Option<State> {
    if run == [] then Some(s)
    else
      var rest := Run(s, run[..|run| - 1]);
      if rest.None? then None else Next(rest.value, run[|run| - 1])
  }

  /** Switched on, and no off switch is about to switch it off. */
  predicate Secure(s: State) {
    s.held && s.mutex != Deciding(false)
  }

  /** With a live handle, prevention is secure or an on switch is still to run. */
  predicate Covered(s: State) {
    && (s.mutex != Free ==> s.held)
    && (s.held ==> !s.failed)
    && (s.live != {} && !s.failed && !s.stopped ==> Secure(s) || s.starting > 0 || s.enabling > 0)
  }

  lemma {:induction false} RunCovered(run: seq<Action>, s: State)
    requires Run(Init, run) == Some(s)
    ensures Covered(s)
  {
    if run != [] {
      RunCovered(run[..|run| - 1], Run(Init, run[..|run| - 1]).value);
    }
  }

  /** No goroutine of the handshake is pending. */
  predicate Settled(s: State) {
    s.mutex == Free && s.starting == 0 && s.enabling == 0 && s.stopping == 0 && s.disabling == 0
  }

  /** In every interleaving, a live handle means that prevention is held or an enable is pending, unless it failed. */
  lemma HeldOrPending(run: seq<Action>, s: State)
    requires Run(Init, run) == Some(s) && s.live != {} && !s.stopped
    ensures s.held || s.starting > 0 || s.enabling > 0 || s.failed
  {
    RunCovered(run, s);
  }

  /**
   Once all goroutines have finished with a handle open, prevention is held exactly when the latest
   attempt to switch it on did not fail.
   */
  lemma SettledIffNotFailed(run: seq<Action>, s: State)
    requires Run(Init, run) == Some(s) && s.live != {} && !s.stopped && Settled(s)
    ensures s.held <==> !s.failed
  {
    RunCovered(run, s);
  }

  /** Some state along the run has no live handle. */
  predicate EverEmpty(s: State, run: seq<Action>) {
    (Run(s, run).Some? && Run(s, run).value.live == {}) || (run != [] && EverEmpty(s, run[..|run| - 1]))
  }

  /** Once secure, prevention stays on as long as some handle is open, whatever stale off switches run. */
  lemma {:induction false} StaysHeldWhileOpen(s: State, run: seq<Action>, t: State)
    requires Secure(s) && Run(s, run) == Some(t) && !EverEmpty(s, run) && !t.stopped
    ensures Secure(t) && !s.stopped
  {
    if run != [] {
      var prefix := run[..|run| - 1];
      StaysHeldWhileOpen(s, prefix, Run(s, prefix).value);
      assert !EverEmpty(s, prefix);
      assert Run(s, prefix).value.live != {} by {
        assert Run(s, prefix).Some?;
      }
    }
  }

  /** An on switch has succeeded since the last Stop. */
  predicate SwitchedOn(run: seq<Action>) {
    run != [] && (run[|run| - 1] == RunEnable(true) || (!run[|run| - 1].StopSystem? && SwitchedOn(run[..|run| - 1])))
  }

  /** Prevention is held only if an on switch has succeeded since the last Stop; so Stop takes it off. */
  lemma {:induction false} HeldNeedsSwitch(run: seq<Action>, s: State)
    requires Run(Init, run) == Some(s) && s.held
    ensures SwitchedOn(run)
  {
    if run != [] {
      var mid := Run(Init, run[..|run| - 1]).value;
      if mid.held {
        HeldNeedsSwitch(run[..|run| - 1], mid);
      }
    }
  }

  // ----- no switch is lost -----

  function One(b: bool): nat {
    if b then 1 else 0
  }

  /** How often a Release removed a handle, and how often an off switch began. */
  function Removals(run: seq<Action>): nat {
    if run == [] then 0 else Removals(run[..|run| - 1]) + One(run[|run| - 1].Remove?)
  }

  function OffSwitches(run: seq<Action>): nat {
    if run == [] then 0 else OffSwitches(run[..|run| - 1]) + One(run[|run| - 1].EnterDisable?)
  }

  /** How often an Open registered the first handle, and how often an on switch ran. */
  function FirstHandles(run: seq<Action>): nat {
    if run == [] then 0
    else FirstHandles(run[..|run| - 1]) + One(RegistersFirst(Run(Init, run[..|run| - 1]), run[|run| - 1]))
  }

  function OnSwitches(run: seq<Action>): nat {
    if run == [] then 0 else OnSwitches(run[..|run| - 1]) + One(run[|run| - 1].RunEnable?)
  }

  predicate RegistersFirst(before: Option<State>, a: Action) {
    a.Register? && before.Some? && before.value.live == {}
  }

  lemma SwitchStep(s: State, a: Action, t: State)
    requires Next(s, a) == Some(t)
    ensures t.starting + t.enabling + One(a.RunEnable?) == s.starting + s.enabling + One(RegistersFirst(Some(s), a))
    ensures t.stopping + t.disabling + One(a.EnterDisable?) == s.stopping + s.disabling + One(a.Remove?)
  {
  }

  /** Every first handle brings about one on switch and every Release one off switch: what has not run is pending. */
  lemma {:induction false} SwitchesAreConserved(run: seq<Action>, s: State)
    requires Run(Init, run) == Some(s)
    ensures FirstHandles(run) == s.starting + s.enabling + OnSwitches(run)
    ensures Removals(run) == s.stopping + s.disabling + OffSwitches(run)
  {
    if run != [] {
      var mid := Run(Init, run[..|run| - 1]).value;
      SwitchesAreConserved(run[..|run| - 1], mid);
      SwitchStep(mid, run[|run| - 1], s);
    }
  }

  // ----- held without a handle -----

  /**
   The switch that is never taken back: the latest on switch that took effect ran when no handle was live
   and no Release had its off switch outstanding, and nothing was released or stopped since.
   */
  predicate Stale(run: seq<Action>) {
    run != [] && Run(Init, run[..|run| - 1]).Some? &&
      StaleAfter(Run(Init, run[..|run| - 1]).value, run[|run| - 1], Stale(run[..|run| - 1]))
  }

  predicate StaleAfter(before: State, last: Action, stale: bool) {
    match last
    case RunEnable(ok) =>
      if ok && !before.held then before.live == {} && before.stopping == 0 && before.disabling == 0 else stale
    case Remove(_) => false
    case StopSystem => false
    case _ => stale
  }

  /** Some off switch is bound to look at the handle table again, or has seen it empty. */
  predicate OffComing(s: State) {
    s.stopping > 0 || s.disabling > 0 || s.mutex == Checking || s.mutex == Deciding(false)
  }

  predicate StaleOk(s: State, stale: bool) {
    && (s.mutex != Free ==> s.held)
    && (stale ==> s.held && s.stopping == 0 && s.disabling == 0 && s.mutex == Free)
    && (s.held && s.live == {} && !stale ==> OffComing(s))
  }

  lemma StepStale(s: State, stale: bool, a: Action, t: State)
    requires StaleOk(s, stale) && Next(s, a) == Some(t)
    ensures StaleOk(t, StaleAfter(s, a, stale))
  {
  }

  lemma {:induction false} RunStale(run: seq<Action>, s: State)
    requires Run(Init, run) == Some(s)
    ensures StaleOk(s, Stale(run))
  {
    if run != [] {
      var init, last := run[..|run| - 1], run[|run| - 1];
      RunStale(init, Run(Init, init).value);
      StepStale(Run(Init, init).value, Stale(init), last, s);
    }
  }

  /**
   When is prevention held once everything has settled without a handle? Exactly when its last on switch
   came too late: after the last handle was gone and its off switch had run.
   */
  lemma HeldIffStale(run: seq<Action>, s: State)
    requires Run(Init, run) == Some(s) && Settled(s) && s.live == {}
    ensures s.held <==> Stale(run)
  {
    RunStale(run, s);
  }

  // ----- runs that end badly -----

  lemma RunSnoc(s: State, run: seq<Action>, t: State, a: Action)
    requires Run(s, run) == Some(t)
    ensures Run(s, run + [a]) == Next(t, a)
  {
    assert (run + [a])[..|run|] == run;
  }

  /**
   HeldIffStale is not empty: when the off switch of a quick Release runs before the on switch of its Open,
   prevention stays held with no handle open and nothing pending.
   */
  lemma HeldWithoutHandle()
    ensures exists run, s :: Run(Init, run) == Some(s) && Settled(s) && s.live == {}
                             && s.held && !s.failed && !s.stopped
  {
    var r1 := [] + [Register(1)];
    var r2 := r1 + [StartEnable];
    var r3 := r2 + [Remove(1)];
    var r4 := r3 + [StartDisable];
    var r5 := r4 + [EnterDisable];
    var open := Init.(live := {1}, starting := 1);
    var gone := Init.(enabling := 1, stopping := 1);
    assert {1} - {1} == {};
    assert Init.live + {1} == {1};
    RunSnoc(Init, [], Init, Register(1));
    RunSnoc(Init, r1, open, StartEnable);
    RunSnoc(Init, r2, open.(starting := 0, enabling := 1), Remove(1));
    RunSnoc(Init, r3, gone, StartDisable);
    RunSnoc(Init, r4, gone.(stopping := 0, disabling := 1), EnterDisable);
    RunSnoc(Init, r5, gone.(stopping := 0), RunEnable(true));
    assert Run(Init, r5 + [RunEnable(true)]) == Some(Init.(held := true));
  }

  /** A failed PreventSleep is not retried while the handle stays open. */
  lemma NotHeldAfterFailure()
    ensures exists run, s :: Run(Init, run) == Some(s) && Settled(s) && s.live != {} && !s.held && !s.stopped
  {
    var r1 := [] + [Register(1)];
    var r2 := r1 + [StartEnable];
    var open := Init.(live := {1}, starting := 1);
    assert Init.live + {1} == {1};
    RunSnoc(Init, [], Init, Register(1));
    RunSnoc(Init, r1, open, StartEnable);
    RunSnoc(Init, r2, open.(starting := 0, enabling := 1), RunEnable(false));
    var end := Init.(live := {1}, failed := true);
    assert Run(Init, r2 + [RunEnable(false)]) == Some(end) && 1 in end.live;
  }
}
