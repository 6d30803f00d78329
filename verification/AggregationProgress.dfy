/**
 The runner comes to rest: while nothing new arrives, every turn that is not deferred and does not fail leaves
 strictly less to do, and when nothing is left the runner waits.
 */
module AggregationProgress {
  import opened AggregationRunner
  import opened AggregationSafety
  import opened AggregationStore
  import opened Wrappers

  // ----- what is left to do -----

  /** Identities a scan still has to visit behind a cursor. */
  function Beyond(ids: set<int>, after: int): set<int> {
    set id | id in ids && id > after
  }

  /** The scan that is going on, or due. */
  function ScanLeft(r: Runner, ids: set<int>): nat {
    if IdentityPending(r) then |Beyond(ids, r.identityAfter)| + 1 else 0
  }

  /** A whole further scan, if the one going on began before the last notification. */
  function RescanLeft(r: Runner, ids: set<int>): nat {
    if r.identityAfter != 0 && r.identityScanGeneration < r.identityTargetGeneration then |ids| + 1 else 0
  }

  function RoundLeft(r: Runner, s: Store): nat {
    if r.activeRound then Remaining(s, r.activeTarget) + 1 else 0
  }

  function Left(w: World): nat {
    RoundLeft(w.runner, w.store) + ScanLeft(w.runner, w.identities) + RescanLeft(w.runner, w.identities)
  }

  /** A whole turn that is neither deferred nor fails, with nothing arriving in between. */
  datatype GoodTurn = RollUpTurn(after: Store, result: TurnResult) | ScanTurn(page: set<int>, batch: IdentityBatch)

  function Steps(t: GoodTurn): seq<Action> {
    match t
    case RollUpTurn(after, result) => [BeginTurn, RollUp(after, result), EndRollUp]
    case ScanTurn(page, batch) => [BeginTurn, ScanPage(page, batch), EndScan]
  }

  /** The turn can be taken in a world between turns. */
  ghost predicate Takes(w: World, t: GoodTurn) {
    && w.phase.Idle? && Runnable(w.runner)
    && match t
       case RollUpTurn(after, result) =>
         && Begin(w.runner).kind.Rollups? && TurnContract(w.store, after, w.runner.activeTarget, result)
         && !result.failed && !result.deferred
       case ScanTurn(page, batch) =>
         Begin(w.runner).kind.Identity? && PageOf(w.identities, w.runner.identityAfter, page, batch)
  }

  ghost function Taken(w: World, t: GoodTurn): World {
    match t
    case RollUpTurn(after, result) =>
      w.(store := after, runner := RollupsEnded(w.runner, Begin(w.runner), result.reached), lastKind := Some(Rollups))
    case ScanTurn(page, batch) =>
      w.(visited := w.visited + page, runner := IdentityEnded(w.runner, Begin(w.runner), batch),
         lastKind := Some(Identity))
  }

  /** Such a turn is three steps of the system. */
  lemma TurnIsSteps(w: World, t: GoodTurn)
    requires Takes(w, t)
    ensures var steps := Steps(t);
      && Enabled(w, steps[0]) && Enabled(Next(w, steps[0]), steps[1])
      && Enabled(Next(Next(w, steps[0]), steps[1]), steps[2])
      && Next(Next(Next(w, steps[0]), steps[1]), steps[2]) == Taken(w, t)
  {
    hide PageOf, TurnContract, RollupsEnded, IdentityEnded;
  }

  lemma TurnKeepsInv(w: World, t: GoodTurn)
    requires Inv(w) && Takes(w, t)
    ensures Inv(Taken(w, t))
  {
    hide Inv, Enabled, Next, Takes, Taken;
    TurnIsSteps(w, t);
    var steps := Steps(t);
    Keep(w, steps[0]);
    Keep(Next(w, steps[0]), steps[1]);
    Keep(Next(Next(w, steps[0]), steps[1]), steps[2]);
  }

  // ----- every turn leaves less -----

  lemma SmallerSet(a: set<int>, b: set<int>, x: int)
    requires a <= b && x in b && x !in a
    ensures |a| < |b|
  {
    assert b == a + (b - a) && x in b - a;
    assert |b| == |a| + |b - a|;
  }

  lemma NotLarger(a: set<int>, b: set<int>)
    requires a <= b
    ensures |a| <= |b|
  {
    assert b == a + (b - a);
  }

  /** A page that does not end its scan ends at an identity that is no longer ahead. */
  lemma PageShrinks(ids: set<int>, after: int, page: set<int>, batch: IdentityBatch)
    requires PageOf(ids, after, page, batch) && !batch.reachedEnd
    ensures batch.last > after && |Beyond(ids, batch.last)| < |Beyond(ids, after)|
  {
    assert page != {};
    SmallerSet(Beyond(ids, batch.last), Beyond(ids, after), batch.last);
  }

  lemma ScanShrinks(r: Runner, ids: set<int>, page: set<int>, batch: IdentityBatch)
    requires Runnable(r) && Begin(r).kind.Identity? && r.identityAfter >= 0
    requires r.identityScanGeneration <= r.identityTargetGeneration && PageOf(ids, r.identityAfter, page, batch)
    ensures var after := IdentityEnded(r, Begin(r), batch);
      ScanLeft(after, ids) + RescanLeft(after, ids) < ScanLeft(r, ids) + RescanLeft(r, ids)
  {
    hide PageOf;
    assert IdentityPending(r);
    NotLarger(Beyond(ids, 0), ids);
    if !batch.reachedEnd { PageShrinks(ids, r.identityAfter, page, batch); }
  }

  lemma RoundShrinks(r: Runner, s: Store, s': Store, result: TurnResult)
    requires Runnable(r) && Begin(r).kind.Rollups? && Exact(s) && TurnContract(s, s', r.activeTarget, result)
    requires !result.failed && !result.deferred
    requires r.rollupsReachedTarget && r.activeRound ==> CaughtUp(s, r.activeTarget)
    ensures RoundLeft(RollupsEnded(r, Begin(r), result.reached), s') < RoundLeft(r, s)
  {
    hide Exact, TurnContract, Remaining, CaughtUp;
    GoodTurnsFinish(s, s', r.activeTarget, result);
  }

  /** Every such turn leaves strictly less to do. */
  lemma TurnHelps(w: World, t: GoodTurn)
    requires Inv(w) && Takes(w, t)
    ensures Left(Taken(w, t)) < Left(w)
    ensures Taken(w, t).runner.pendingTarget == w.runner.pendingTarget || Taken(w, t).runner.pendingTarget == 0
  {
    hide Exact, TurnContract, PageOf, RoundLeft, ScanLeft, RescanLeft, AllCovered, TargetsCommitted, TurnsHonest,
      CaughtUp, Bounded;
    match t
    case RollUpTurn(after, result) =>
      RoundShrinks(w.runner, w.store, after, result);
      SameScan(w.runner, RollupsEnded(w.runner, Begin(w.runner), result.reached), w.identities);
    case ScanTurn(page, batch) =>
      ScanShrinks(w.runner, w.identities, page, batch);
      SameRound(w.runner, IdentityEnded(w.runner, Begin(w.runner), batch), w.store);
  }

  lemma SameScan(r: Runner, r': Runner, ids: set<int>)
    requires r'.identityAfter == r.identityAfter && r'.identityScanGeneration == r.identityScanGeneration
    requires r'.identityTargetGeneration == r.identityTargetGeneration
    ensures ScanLeft(r', ids) == ScanLeft(r, ids) && RescanLeft(r', ids) == RescanLeft(r, ids)
  {
  }

  lemma SameRound(r: Runner, r': Runner, s: Store)
    requires r'.activeRound == r.activeRound && r'.activeTarget == r.activeTarget
    ensures RoundLeft(r', s) == RoundLeft(r, s)
  {
  }

  // ----- coming to rest -----

  ghost predicate TakesAll(w: World, turns: seq<GoodTurn>)
    decreases |turns|
  {
    turns == [] || (Takes(w, turns[0]) && TakesAll(Taken(w, turns[0]), turns[1..]))
  }

  ghost function TakenAll(w: World, turns: seq<GoodTurn>): World
    requires TakesAll(w, turns)
    decreases |turns|
  {
    if turns == [] then w else TakenAll(Taken(w, turns[0]), turns[1..])
  }

  lemma {:induction false} TurnsHelp(w: World, turns: seq<GoodTurn>)
    requires Inv(w) && w.phase.Idle? && w.runner.pendingTarget == 0 && TakesAll(w, turns)
    ensures Inv(TakenAll(w, turns)) && TakenAll(w, turns).phase.Idle?
    ensures TakenAll(w, turns).runner.pendingTarget == 0
    ensures Left(TakenAll(w, turns)) + |turns| <= Left(w)
    decreases |turns|
  {
    hide Inv, Takes, Left;
    if turns != [] {
      TurnKeepsInv(w, turns[0]);
      TurnHelps(w, turns[0]);
      StaysIdle(w, turns[0]);
      TurnsHelp(Taken(w, turns[0]), turns[1..]);
    }
  }

  lemma StaysIdle(w: World, t: GoodTurn)
    requires Takes(w, t)
    ensures Taken(w, t).phase.Idle?
  {
    hide PageOf, TurnContract;
  }

  lemma FrozenTarget(r: Runner)
    requires r.pendingTarget >= 0
    ensures Frozen(r).pendingTarget == 0
  {
  }

  /** Nothing left means nothing to run, and the reverse; without a pending target the runner then waits. */
  lemma NothingLeft(w: World)
    requires w.phase.Idle? && w.runner.pendingTarget == 0
    ensures Left(w) == 0 <==> AggregationSafety.Waiting(w)
  {
  }

  lemma PendingNotNegative(w: World)
    requires Inv(w)
    ensures w.runner.pendingTarget >= 0
  {
    hide Bounded, AllCovered, RoundsHonest, ScansHonest, TurnsHonest;
    IdsPositive(w.store.events);
  }

  /**
   From any reachable world whose debounce timer has just fired, and while nothing arrives, no more good turns
   than there is work can be taken, and once none can be taken the runner waits: with its tables and scans done.
   */
  lemma ComesToRest(w: World, actions: seq<Action>, turns: seq<GoodTurn>)
    requires Initial(w) && Possible(w, actions) && After(w, actions).phase.Idle?
    requires TakesAll(Next(After(w, actions), Freeze), turns)
    ensures var v := Next(After(w, actions), Freeze);
      && |turns| <= Left(v)
      && (AggregationSafety.Waiting(TakenAll(v, turns)) <==> Left(TakenAll(v, turns)) == 0)
      && (AggregationSafety.Waiting(TakenAll(v, turns)) <==> !Runnable(TakenAll(v, turns).runner))
      && (|turns| == Left(v) ==> AggregationSafety.Waiting(TakenAll(v, turns)))
  {
    hide Initial, Possible, After, Inv, Left, Frozen, IdentityPending, Takes;
    var v := Next(After(w, actions), Freeze);
    Safety(w, actions);
    Keep(After(w, actions), Freeze);
    PendingNotNegative(After(w, actions));
    FrozenTarget(After(w, actions).runner);
    TurnsHelp(v, turns);
    NothingLeft(TakenAll(v, turns));
  }
}
