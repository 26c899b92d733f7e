/**
 Termination of the chunk fetch: without new callers only a bounded number of steps is possible, so
 together with freedom from deadlock every getChunk call returns, also a Fetcher's call that starts
 over each time it is woken.
 */
module ChunkFetchProgress {
  import opened Common
  import opened ChunkCache
  import opened ChunkRanges
  import opened ChunkRequests
  import opened ChunkFetchProtocol
  import opened ChunkFetchSafety

  const RANK_BOUND: nat := 12

  /** How many steps a caller can still take before it returns, blocks on another fetch, or publishes. */
  function Rank(closed: set<nat>, pc: PC): nat {
    match pc
    case Returned(_) => 0
    case Publish(_, _) => 1
    case CheckAgain => 1
    case StoreChunk(_, _) => 2
    case Release(_, _) => 3
    case Requesting(_, attempt) => if attempt == 0 then 8 else if attempt == 1 then 6 else 4
    case BackingOff(_, attempt) => if attempt <= 1 then 7 else 5
    case Acquire(_) => 9
    case CheckActive => 10
    case CheckCache => 11
    case Waiting(ch) => if ch in closed then 12 else 9
  }

  function Ranks(s: State): map<nat, nat> {
    map id | id in s.callers :: Rank(s.shared.closed, s.callers[id].pc)
  }

  function Unfinished(callers: map<nat, Caller>): set<nat> {
    set id | id in callers && !callers[id].pc.Returned?
  }

  /** Each caller still to publish may wake everyone else once. */
  ghost function WorkLeft(s: State): nat {
    Weighted(|Unfinished(s.callers)|, |s.callers|, Total(Ranks(s)))
  }

  function Weighted(unfinished: nat, callers: nat, ranks: nat): nat {
    unfinished * (RANK_BOUND * callers + 1) + ranks
  }

  lemma CallerRankFalls(c: Config, s: Shared, k: Caller, choice: Choice, step: Step)
    requires c.Valid() && CallerStep(c, s, k, choice) == Some(step) && DataOk(c, k) && RegistryOk(s) && ChannelOk(s, k)
    ensures Rank(step.shared.closed, step.pc) < Rank(s.closed, k.pc)
    ensures !k.pc.Publish? ==> step.shared.closed == s.closed
  {
  }

  lemma MoveWithoutPublish(c: Config, s: State, id: nat, choice: Choice, t: State)
    requires c.Valid() && Next(c, s, Move(id, choice)) == Some(t) && !s.callers[id].pc.Publish?
    requires RegistryOk(s.shared) && DataOk(c, s.callers[id]) && ChannelOk(s.shared, s.callers[id])
    ensures Total(Ranks(t)) < Total(Ranks(s))
    ensures |Unfinished(t.callers)| <= |Unfinished(s.callers)| && |t.callers| == |s.callers|
  {
    var k := s.callers[id];
    var step := CallerStep(c, s.shared, k, choice).value;
    CallerRankFalls(c, s.shared, k, choice, step);
    RanksUpdate(s, id, t);
    UnfinishedUpdate(s.callers, id, t.callers[id]);
  }

  lemma RanksUpdate(s: State, id: nat, t: State)
    requires id in s.callers && t.shared.closed == s.shared.closed && id in t.callers
    requires t.callers == s.callers[id := t.callers[id]]
    ensures Total(Ranks(t)) + Rank(s.shared.closed, s.callers[id].pc)
            == Total(Ranks(s)) + Rank(s.shared.closed, t.callers[id].pc)
  {
    assert Ranks(t) == Ranks(s)[id := Rank(s.shared.closed, t.callers[id].pc)];
    TotalUpdate(Ranks(s), id, Rank(s.shared.closed, t.callers[id].pc));
  }

  lemma UnfinishedUpdate(callers: map<nat, Caller>, id: nat, m: Caller)
    requires id in callers && (callers[id].pc.Returned? ==> m.pc.Returned?)
    ensures |Unfinished(callers[id := m])| == |Unfinished(callers)| -
              (if !callers[id].pc.Returned? && m.pc.Returned? then 1 else 0)
    ensures |callers[id := m]| == |callers|
  {
    var before, after := Unfinished(callers), Unfinished(callers[id := m]);
    assert after == if m.pc.Returned? then before - {id} else before;
    assert callers[id := m].Keys == callers.Keys;
    assert |callers.Keys| == |callers| && |callers[id := m].Keys| == |callers[id := m]|;
  }

  lemma RanksBounded(s: State)
    ensures Total(Ranks(s)) < RANK_BOUND * |s.callers| + 1
  {
    TotalBounded(Ranks(s), RANK_BOUND);
    assert Ranks(s).Keys == s.callers.Keys;
    assert |Ranks(s)| == |Ranks(s).Keys| && |s.callers| == |s.callers.Keys|;
  }

  lemma WeightedFalls(a: nat, b: nat, n: nat, x: nat, y: nat)
    requires (a < b && x < RANK_BOUND * n + 1) || (a <= b && x < y)
    ensures Weighted(a, n, x) < Weighted(b, n, y)
  {
    if a < b {
      MultipleMonotonic(a, b, RANK_BOUND * n + 1);
    }
  }

  lemma PublishShrinks(c: Config, s: State, id: nat, choice: Choice, t: State)
    requires c.Valid() && Next(c, s, Move(id, choice)) == Some(t) && s.callers[id].pc.Publish?
    ensures |t.callers| == |s.callers| && |Unfinished(t.callers)| < |Unfinished(s.callers)|
  {
    UnfinishedUpdate(s.callers, id, t.callers[id]);
  }

  /** Publishing leaves one caller fewer; any other move lowers the ranks. */
  lemma MoveShrinks(c: Config, s: State, id: nat, choice: Choice, t: State)
    requires c.Valid() && Next(c, s, Move(id, choice)) == Some(t)
    requires RegistryOk(s.shared) && DataOk(c, s.callers[id]) && ChannelOk(s.shared, s.callers[id])
    ensures |t.callers| == |s.callers|
    ensures |Unfinished(t.callers)| <= |Unfinished(s.callers)|
    ensures |Unfinished(t.callers)| < |Unfinished(s.callers)| || Total(Ranks(t)) < Total(Ranks(s))
  {
    if s.callers[id].pc.Publish? {
      PublishShrinks(c, s, id, choice, t);
    } else {
      MoveWithoutPublish(c, s, id, choice, t);
    }
  }

  lemma MoveShrinksWork(c: Config, s: State, id: nat, choice: Choice, t: State)
    requires c.Valid() && Inv(c, s) && Next(c, s, Move(id, choice)) == Some(t)
    ensures WorkLeft(t) < WorkLeft(s)
  {
    MoveShrinks(c, s, id, choice, t);
    RanksBounded(t);
    WeightedFalls(|Unfinished(t.callers)|, |Unfinished(s.callers)|, |s.callers|, Total(Ranks(t)), Total(Ranks(s)));
  }

  lemma QuietStepKeepsWork(c: Config, s: State, a: Action, t: State)
    requires c.Valid() && Next(c, s, a) == Some(t) && (a.Cancel? || a.ClearCache?)
    ensures WorkLeft(t) == WorkLeft(s)
  {
    assert Ranks(t) == Ranks(s);
    assert Unfinished(t.callers) == Unfinished(s.callers);
    assert t.callers.Keys == s.callers.Keys;
    assert |t.callers| == |t.callers.Keys| && |s.callers| == |s.callers.Keys|;
  }

  function Moves(run: seq<Action>): nat {
    if run == [] then 0 else Moves(run[..|run| - 1]) + if run[|run| - 1].Move? then 1 else 0
  }

  /**
   However the callers interleave, and whatever is cancelled or cleared, a run without new callers
   contains at most WorkLeft moves. With DeadlockFree, it can only end with every caller returned.
   */
  lemma {:induction false} CallersFinish(c: Config, s: State, run: seq<Action>, t: State)
    requires c.Valid() && Reachable(c, s) && Run(c, s, run) == Some(t)
    requires forall i :: 0 <= i < |run| ==> !run[i].Start?
    ensures Moves(run) + WorkLeft(t) <= WorkLeft(s)
  {
    if run != [] {
      var prefix, a := run[..|run| - 1], run[|run| - 1];
      var mid := Run(c, s, prefix).value;
      CallersFinish(c, s, prefix, mid);
      ReachableKeeps(c, s);
      RunKeeps(c, s, prefix, mid);
      if a.Move? {
        MoveShrinksWork(c, mid, a.id, a.choice, t);
      } else {
        assert !run[|run| - 1].Start?;
        QuietStepKeepsWork(c, mid, a, t);
      }
    }
  }
}
