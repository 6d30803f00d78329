/**
 Every interleaving of the aggregation runner with commits, notifications, new identities, failures and
 process restarts: nothing notified is lost, finished rounds are finished, identity scans cover, turns
 alternate.
 */
module AggregationSafety {
  import opened AggregationStore
  import opened AggregationRunner
  import opened UsageRows
  import opened Wrappers

  /** Where the runner's goroutine stands between two critical sections. */
  datatype Phase =
    | Starting
    | TargetLoaded(target: int)
    | Idle
    | Turning(turn: Turn)
    | RolledUp(turn: Turn, reached: bool)
    | Scanned(turn: Turn, batch: IdentityBatch)
    | Failing(kind: Kind)

  /**
   The last four fields are history: event ids the runner owes, the identities that existed at the last
   notification, those visited since, and the kind of the last turn that was not deferred at its start.
   */
  datatype World = World(
    runner: Runner,
    store: Store,
    identities: set<int>,
    phase: Phase,
    owed: set<int>,
    required: set<int>,
    visited: set<int>,
    lastKind: Option<Kind>)

  datatype Action =
    | Commit(event: Event)
    | AddIdentity(id: int)
    | NotifyEvents(ids: seq<int>)
    | NotifyIdentities
    | LoadTarget
    | FinishStartup
    | Freeze
    | BeginTurn
    | DeferForInbox
    | FailTurn
    | RollUp(after: Store, result: TurnResult)
    | EndRollUp
    | ScanPage(page: set<int>, batch: IdentityBatch)
    | EndScan
    | Recover
    | Restart

  function LastId(events: seq<Event>): int {
    if events == [] then 0 else events[|events| - 1].id
  }

  function Ids(events: seq<Event>): set<int> {
    set e | e in events :: e.id
  }

  ghost predicate Enabled(w: World, a: Action) {
    match a
    case Commit(event) => event.id > LastId(w.store.events)
    case AddIdentity(id) => id > 0
    case NotifyEvents(ids) => forall id | id in ids :: id in Ids(w.store.events)
    case NotifyIdentities => true
    case LoadTarget => w.phase.Starting?
    case FinishStartup => w.phase.TargetLoaded?
    case Freeze => w.phase.Idle?
    case BeginTurn => w.phase.Idle? && Runnable(w.runner)
    case DeferForInbox => w.phase.Turning?
    case FailTurn => w.phase.Turning?
    case RollUp(after, result) => w.phase.Turning? && w.phase.turn.kind.Rollups?
      && TurnContract(w.store, after, w.phase.turn.target, result)
    case EndRollUp => w.phase.RolledUp?
    case ScanPage(page, batch) => w.phase.Turning? && w.phase.turn.kind.Identity?
      && PageOf(w.identities, w.phase.turn.after, page, batch)
    case EndScan => w.phase.Scanned?
    case Recover => w.phase.Failing?
    case Restart => true
  }

  ghost function Next(w: World, a: Action): World
    requires Enabled(w, a)
  {
    match a
    case Commit(event) => w.(store := w.store.(events := w.store.events + [event]))
    case AddIdentity(id) => w.(identities := w.identities + {id})
    case NotifyEvents(ids) =>
      if ids == [] then w
      else w.(runner := Notified(w.runner, ids), owed := w.owed + (set id | id in ids), required := w.identities,
        visited := {})
    case NotifyIdentities => w.(runner := IdentitiesNotified(w.runner), required := w.identities, visited := {})
    case LoadTarget => w.(phase := TargetLoaded(LastId(w.store.events)))
    case FinishStartup =>
      w.(runner := StartedUp(w.runner, w.phase.target), phase := Idle,
         owed := w.owed + (set id | id in Ids(w.store.events) && id <= w.phase.target))
    case Freeze => w.(runner := Frozen(w.runner))
    case BeginTurn => w.(phase := Turning(Begin(w.runner)))
    case DeferForInbox => w.(phase := Idle)
    case FailTurn => w.(phase := Failing(w.phase.turn.kind))
    case RollUp(after, result) =>
      w.(store := after, phase := if result.failed then Failing(Rollups) else RolledUp(w.phase.turn, result.reached))
    case EndRollUp => w.(runner := RollupsEnded(w.runner, w.phase.turn, w.phase.reached), phase := Idle,
      lastKind := Some(Rollups))
    case ScanPage(page, batch) => w.(visited := w.visited + page, phase := Scanned(w.phase.turn, batch))
    case EndScan => w.(runner := IdentityEnded(w.runner, w.phase.turn, w.phase.batch), phase := Idle,
      lastKind := Some(Identity))
    case Recover => w.(runner := AfterFailure(w.runner, w.phase.kind), phase := Idle, lastKind := Some(w.phase.kind))
    case Restart => World(FRESH, w.store, w.identities, Starting, {}, w.identities, {}, None)
  }

  /** A process starting on a database that earlier processes left exact. */
  ghost predicate Initial(w: World) {
    && w == World(FRESH, w.store, w.identities, Starting, {}, w.identities, {}, None)
    && Exact(w.store) && Bounded(w.store)
    && forall id | id in w.identities :: id > 0
  }

  ghost predicate Possible(w: World, actions: seq<Action>)
    decreases |actions|, 0
  {
    actions == [] ||
    (Possible(w, actions[..|actions| - 1]) && Enabled(After(w, actions[..|actions| - 1]), actions[|actions| - 1]))
  }

  ghost function After(w: World, actions: seq<Action>): World
    requires Possible(w, actions)
    decreases |actions|, 1
  {
    if actions == [] then w else Next(After(w, actions[..|actions| - 1]), actions[|actions| - 1])
  }

  lemma AfterLast(w: World, actions: seq<Action>)
    requires Possible(w, actions) && actions != []
    ensures var n := |actions| - 1;
      && Possible(w, actions[..n]) && Enabled(After(w, actions[..n]), actions[n])
      && After(w, actions) == Next(After(w, actions[..n]), actions[n])
  {
    hide Enabled, Next;
  }

  // ----- what every reachable world satisfies -----

  /** An event id that is still to be aggregated, or already is. */
  predicate Covered(r: Runner, s: Store, id: int) {
    id <= r.pendingTarget || (r.activeRound && id <= r.activeTarget) || CaughtUp(s, id)
  }

  ghost predicate AllCovered(w: World) {
    forall id | id in w.owed :: id > 0 && Covered(w.runner, w.store, id)
  }

  /** Targets are ids of committed events, so the page up to a target ends at it. */
  predicate IsTarget(events: seq<Event>, target: int) {
    target == 0 || target in Ids(events)
  }

  ghost predicate TargetsCommitted(w: World) {
    && IsTarget(w.store.events, w.runner.pendingTarget)
    && IsTarget(w.store.events, w.runner.activeTarget)
    && (w.phase.TargetLoaded? ==> IsTarget(w.store.events, w.phase.target))
    && (w.phase.Turning? || w.phase.RolledUp? ==> IsTarget(w.store.events, w.phase.turn.target))
  }

  ghost predicate RoundsHonest(w: World) {
    && (w.runner.activeRound && w.runner.rollupsReachedTarget ==> CaughtUp(w.store, w.runner.activeTarget))
    && (!w.runner.activeRound ==> w.runner.activeTarget == 0)
    && (w.phase.RolledUp? && w.phase.reached ==> CaughtUp(w.store, w.phase.turn.target))
    && (w.phase.Starting? || w.phase.TargetLoaded? <==> !w.runner.startupTargetLoaded)
    && (!w.runner.startupTargetLoaded ==> !w.runner.activeRound)
  }

  predicate SeenUpTo(required: set<int>, visited: set<int>, after: int, all: bool) {
    forall id | id in required && (all || id <= after) :: id in visited
  }

  ghost predicate ScansHonest(w: World) {
    && (forall id | id in w.identities :: id > 0)
    && w.runner.identityAfter >= 0
    && w.runner.identityScanGeneration <= w.runner.identityTargetGeneration
    && (w.runner.identityScanGeneration == w.runner.identityTargetGeneration ==>
          SeenUpTo(w.required, w.visited, w.runner.identityAfter, w.runner.identityAfter == 0))
    && (w.phase.Turning? && w.phase.turn.kind.Identity? ==>
          && w.phase.turn.after >= 0 && w.phase.turn.passGeneration <= w.runner.identityTargetGeneration
          && (w.phase.turn.passGeneration == w.runner.identityTargetGeneration ==>
                w.required <= w.identities && SeenUpTo(w.required, w.visited, w.phase.turn.after, false)))
    && (w.phase.Scanned? ==>
          && w.phase.batch.last >= 0 && (w.phase.batch.last == 0 ==> w.phase.batch.reachedEnd)
          && w.phase.turn.passGeneration <= w.runner.identityTargetGeneration
          && (w.phase.turn.passGeneration == w.runner.identityTargetGeneration ==>
                SeenUpTo(w.required, w.visited, w.phase.batch.last, w.phase.batch.reachedEnd)))
    && w.required <= w.identities
  }

  ghost predicate TurnsHonest(w: World) {
    && (w.lastKind.Some? ==> w.runner.nextKind != w.lastKind.value)
    && (w.phase.Turning? ==>
      w.phase.turn.runnable && (w.phase.turn.kind.Rollups? ==> w.phase.turn.activeRound)
      && (w.phase.turn.kind.Identity? ==> w.phase.turn.identityPending))
    && (w.phase.RolledUp? ==> w.phase.turn.activeRound)
  }

  ghost predicate Inv(w: World) {
    && Exact(w.store) && Bounded(w.store)
    && AllCovered(w) && TargetsCommitted(w) && RoundsHonest(w) && ScansHonest(w) && TurnsHonest(w)
  }

  // ----- each step keeps them -----

  lemma IdsPositive(events: seq<Event>)
    requires AscendingIds(events)
    ensures forall id | id in Ids(events) :: 0 < id <= LastId(events)
  {
    AscendingPairs(events);
  }

  lemma KeepExact(w: World, a: Action)
    requires Inv(w) && Enabled(w, a)
    ensures Exact(Next(w, a).store) && Bounded(Next(w, a).store)
  {
    hide Exact, Bounded, TurnContract, AllCovered, TargetsCommitted, RoundsHonest, ScansHonest, TurnsHonest, PageOf;
    if a.Commit? {
      CommittedExact(w.store, a.event);
    } else if a.RollUp? {
      TurnedExact(w.store, a.after, w.phase.turn.target, a.result);
    }
  }

  lemma CommittedExact(s: Store, e: Event)
    requires Exact(s) && Bounded(s) && e.id > LastId(s.events)
    ensures Exact(s.(events := s.events + [e])) && Bounded(s.(events := s.events + [e]))
  {
    hide Bounded, OverviewExact, ActivityExact, LatencyExact;
    if s.events != [] { AscendingPairs(s.events); }
    CommitKeepsExact(s, e);
  }

  lemma TurnedExact(s: Store, s': Store, target: int, r: TurnResult)
    requires TurnContract(s, s', target, r)
    ensures Exact(s') && Bounded(s')
  {
  }

  lemma CaughtUpStays(w: World, a: Action, id: int)
    requires Inv(w) && Enabled(w, a) && CaughtUp(w.store, id)
    ensures CaughtUp(Next(w, a).store, id)
  {
    hide Exact, Bounded, TurnContract, AllCovered, TargetsCommitted, RoundsHonest, ScansHonest, TurnsHonest;
    if a.RollUp? {
      CursorsNeverRetreat(w.store, a.after, w.phase.turn.target, a.result);
    }
  }

  lemma KeepCovered(w: World, a: Action)
    requires Inv(w) && Enabled(w, a)
    ensures AllCovered(Next(w, a))
  {
    hide Exact, Bounded, TurnContract, TargetsCommitted, ScansHonest, TurnsHonest, PageOf, CaughtUp;
    var w' := Next(w, a);
    assert w.runner.activeRound && w.runner.rollupsReachedTarget ==> CaughtUp(w.store, w.runner.activeTarget);
    EventsPositive(w);
    forall id | id in w'.owed ensures id > 0 && Covered(w'.runner, w'.store, id) {
      if CaughtUp(w.store, id) {
        CaughtUpStays(w, a, id);
      }
      if a.EndRollUp? {
        CaughtUpBelow(w.store, w.runner.activeTarget, id);
      }
    }
  }

  lemma CaughtUpBelow(s: Store, target: int, id: int)
    ensures CaughtUp(s, target) && id <= target ==> CaughtUp(s, id)
  {
  }

  lemma EventsPositive(w: World)
    requires Inv(w)
    ensures forall id | id in Ids(w.store.events) :: 0 < id <= LastId(w.store.events)
  {
    IdsPositive(w.store.events);
  }

  lemma KeepTargets(w: World, a: Action)
    requires Inv(w) && Enabled(w, a)
    ensures TargetsCommitted(Next(w, a))
  {
    hide Exact, Bounded, AllCovered, RoundsHonest, ScansHonest, TurnsHonest, PageOf, CaughtUp, Progress;
    if a.Commit? {
      assert Ids(w.store.events) <= Ids(w.store.events + [a.event]);
    }
    if w.store.events != [] {
      assert w.store.events[|w.store.events| - 1] in w.store.events;
    }
  }

  lemma KeepRounds(w: World, a: Action)
    requires Inv(w) && Enabled(w, a)
    ensures RoundsHonest(Next(w, a))
  {
    hide Exact, Bounded, AllCovered, TargetsCommitted, ScansHonest, PageOf, CaughtUp;
    if CaughtUp(w.store, w.runner.activeTarget) {
      CaughtUpStays(w, a, w.runner.activeTarget);
    }
    if a.FinishStartup? && w.phase.target == 0 {
      CaughtUpAtZero(w);
    }
    if w.phase.RolledUp? && w.phase.reached {
      CaughtUpStays(w, a, w.phase.turn.target);
    }
  }

  lemma CaughtUpAtZero(w: World)
    requires Inv(w)
    ensures CaughtUp(w.store, 0)
  {
  }

  lemma KeepScans(w: World, a: Action)
    requires Inv(w) && Enabled(w, a)
    ensures ScansHonest(Next(w, a))
  {
    hide Exact, Bounded, TurnContract, AllCovered, TargetsCommitted, RoundsHonest, CaughtUp;
    EventsPositive(w);
    if a.NotifyEvents? && a.ids != [] {
      assert a.ids[0] in a.ids;
    }
  }

  lemma KeepTurns(w: World, a: Action)
    requires Inv(w) && Enabled(w, a)
    ensures TurnsHonest(Next(w, a))
  {
    hide Exact, Bounded, TurnContract, AllCovered, TargetsCommitted, ScansHonest, PageOf, CaughtUp, HighestId;
  }

  lemma InitialInv(w: World)
    requires Initial(w)
    ensures Inv(w)
  {
  }

  /** Every reachable world satisfies the invariant. */
  lemma {:induction false} Safety(w: World, actions: seq<Action>)
    requires Initial(w) && Possible(w, actions)
    ensures Inv(After(w, actions))
  {
    if actions == [] {
      InitialInv(w);
    } else {
      var n := |actions| - 1;
      Safety(w, actions[..n]);
      Keep(After(w, actions[..n]), actions[n]);
    }
  }

  lemma Keep(w: World, a: Action)
    requires Inv(w) && Enabled(w, a)
    ensures Inv(Next(w, a))
  {
    hide Exact, Bounded, AllCovered, TargetsCommitted, RoundsHonest, ScansHonest, TurnsHonest, Enabled, Next;
    KeepExact(w, a);
    KeepCovered(w, a);
    KeepTargets(w, a);
    KeepRounds(w, a);
    KeepScans(w, a);
    KeepTurns(w, a);
  }

  // ----- main results -----

  lemma {:induction false} OwedStays(w: World, actions: seq<Action>, i: nat, id: int)
    requires Possible(w, actions) && i < |actions|
    requires actions[i].NotifyEvents? && id in actions[i].ids && Restart !in actions[i..]
    ensures id in After(w, actions).owed
  {
    hide Enabled, PageOf, TurnContract;
    var n := |actions| - 1;
    if i < n {
      assert actions[i..] == actions[..n][i..] + [actions[n]];
      OwedStays(w, actions[..n], i, id);
    }
  }

  /** A notified event id is at all times covered by a target or by all three cursors. */
  lemma NoLostNotification(w: World, actions: seq<Action>, i: nat, id: int)
    requires Initial(w) && Possible(w, actions) && i < |actions|
    requires actions[i].NotifyEvents? && id in actions[i].ids && Restart !in actions[i..]
    ensures Covered(After(w, actions).runner, After(w, actions).store, id)
  {
    hide Enabled, Next, PageOf, TurnContract, Exact, Bounded, Covered;
    OwedStays(w, actions, i, id);
    Safety(w, actions);
  }

  /** Tables equal a single pass over the events up to their own cursor, in every reachable world. */
  lemma AlwaysExact(w: World, actions: seq<Action>)
    requires Initial(w) && Possible(w, actions)
    ensures var s := After(w, actions).store;
      && s.hourly == Hourly(UpTo(s.events, s.overviewCursor))
      && s.daily == Daily(s.calendar, UpTo(s.events, s.overviewCursor))
      && ActivityGrain.ValidCalendar(s.calendar)
      && DailyPart(s.activity) == DailyActivity(s.calendar, UpTo(s.events, s.activityCursor))
      && LatencyExact(s.calendar, s.events, s.latencyCursor, s.latencyTable, s.latencyPages)
  {
    hide Enabled, Next, PageOf, TurnContract, AllCovered, TargetsCommitted, RoundsHonest, ScansHonest, TurnsHonest;
    Safety(w, actions);
  }

  /** A round that ends, other than by the process ending, ends with all three cursors at its target. */
  lemma RoundCompletes(w: World, actions: seq<Action>, a: Action)
    requires Initial(w) && Possible(w, actions) && Enabled(After(w, actions), a) && !a.Restart?
    requires After(w, actions).runner.activeRound && !Next(After(w, actions), a).runner.activeRound
    ensures CaughtUp(Next(After(w, actions), a).store, After(w, actions).runner.activeTarget)
  {
    Safety(w, actions);
    RoundEndsCaughtUp(After(w, actions), a);
  }

  lemma RoundEndsCaughtUp(w: World, a: Action)
    requires Inv(w) && Enabled(w, a) && !a.Restart? && w.runner.activeRound && !Next(w, a).runner.activeRound
    ensures CaughtUp(Next(w, a).store, w.runner.activeTarget)
  {
    hide Exact, Bounded, AllCovered, TargetsCommitted, ScansHonest, PageOf, CaughtUp, TurnContract;
  }

  /** The runner is about to block with no timer set. */
  predicate Waiting(w: World) {
    w.phase.Idle? && !Runnable(w.runner) && !WindowOpen(w.runner)
  }

  /**
   Once the runner waits without a timer, everything committed before its start or notified since is in
   the tables, and every identity known at the last notification has been visited after it.
   */
  lemma WaitingMeansDone(w: World, actions: seq<Action>)
    requires Initial(w) && Possible(w, actions) && Waiting(After(w, actions))
    ensures var v := After(w, actions);
      && (forall id | id in v.owed :: CaughtUp(v.store, id))
      && v.required <= v.visited
  {
    Safety(w, actions);
    WaitingDone(After(w, actions));
  }

  lemma WaitingDone(w: World)
    requires Inv(w) && Waiting(w)
    ensures forall id | id in w.owed :: CaughtUp(w.store, id)
    ensures w.required <= w.visited
  {
    hide Exact, Bounded, TargetsCommitted, TurnsHonest, CaughtUp;
    forall id | id in w.owed ensures CaughtUp(w.store, id) {
      assert Covered(w.runner, w.store, id);
    }
    forall id | id in w.required ensures id in w.visited {
      assert SeenUpTo(w.required, w.visited, 0, true);
    }
  }

  /** With every committed event notified, the waiting runner's tables are the one-shot aggregation of all events. */
  lemma WaitingTables(w: World, actions: seq<Action>)
    requires Initial(w) && Possible(w, actions) && Waiting(After(w, actions))
    requires Ids(After(w, actions).store.events) <= After(w, actions).owed
    ensures var s := After(w, actions).store;
      && s.hourly == Hourly(s.events)
      && s.daily == Daily(s.calendar, s.events)
      && ActivityGrain.ValidCalendar(s.calendar)
      && DailyPart(s.activity) == DailyActivity(s.calendar, s.events)
      && LatencyTable.AllEvents(s.latencyPages) == s.events
        && LatencyTable.Holds(s.calendar, s.latencyPages, s.latencyTable)
  {
    hide Enabled, Next, PageOf, TurnContract, AllCovered, TargetsCommitted, RoundsHonest, ScansHonest, TurnsHonest,
      Hourly, Daily, DailyActivity;
    Safety(w, actions);
    WaitingDone(After(w, actions));
    AlwaysExact(w, actions);
    var s := After(w, actions).store;
    if s.events != [] {
      var last := s.events[|s.events| - 1];
      assert last.id in Ids(s.events);
      assert CaughtUp(s, last.id);
      UpToAll(s.events, s.overviewCursor);
      UpToAll(s.events, s.activityCursor);
      UpToAll(s.events, s.latencyCursor);
    }
  }

  lemma UpToAll(events: seq<Event>, cursor: int)
    requires events != [] ==> cursor >= events[|events| - 1].id
    ensures UpTo(events, cursor) == events
  {
  }

  predicate EndsTurn(a: Action) {
    a.EndRollUp? || a.EndScan? || a.Recover?
  }

  /** The kind of the turn that an ending action ends. */
  function EndedKind(w: World, a: Action): Kind {
    if a.EndScan? then Identity else if a.Recover? && w.phase.Failing? then w.phase.kind else Rollups
  }

  lemma KindSet(w: World, a: Action)
    requires Enabled(w, a) && !a.Restart?
    ensures Next(w, a).lastKind == if EndsTurn(a) then Some(EndedKind(w, a)) else w.lastKind
  {
    hide PageOf, TurnContract;
  }

  lemma {:induction false} LastKindStays(w: World, actions: seq<Action>, i: nat)
    requires Possible(w, actions) && i < |actions| && EndsTurn(actions[i])
    requires forall k | i < k < |actions| :: !EndsTurn(actions[k]) && !actions[k].Restart?
    ensures Possible(w, actions[..i]) && Enabled(After(w, actions[..i]), actions[i])
    ensures After(w, actions).lastKind == Some(EndedKind(After(w, actions[..i]), actions[i]))
  {
    hide Enabled, Next, EndedKind, Possible, After;
    var n := |actions| - 1;
    AfterLast(w, actions);
    KindSet(After(w, actions[..n]), actions[n]);
    if i < n {
      assert actions[..n][..i] == actions[..i];
      LastKindStays(w, actions[..n], i);
    }
  }

  /**
   While both kinds of work are pending, a turn is of the other kind than the last turn that was not
   deferred at its start, whether that one succeeded, stepped aside half-way or failed.
   */
  lemma TurnsAlternate(w: World, actions: seq<Action>, i: nat)
    requires Initial(w) && Possible(w, actions) && i < |actions| && EndsTurn(actions[i])
    requires forall k | i < k < |actions| :: !EndsTurn(actions[k]) && !actions[k].Restart?
    requires After(w, actions).runner.activeRound && IdentityPending(After(w, actions).runner)
    ensures Possible(w, actions[..i]) && Enabled(After(w, actions[..i]), actions[i])
    ensures Begin(After(w, actions).runner).kind != EndedKind(After(w, actions[..i]), actions[i])
  {
    hide Enabled, Next, Inv, Begin, EndedKind, IdentityPending, Possible, After, Initial;
    LastKindStays(w, actions, i);
    Safety(w, actions);
    OtherKindBegins(After(w, actions), EndedKind(After(w, actions[..i]), actions[i]));
  }

  lemma OtherKindBegins(w: World, ended: Kind)
    requires Inv(w) && w.lastKind == Some(ended) && w.runner.activeRound && IdentityPending(w.runner)
    ensures Begin(w.runner).kind != ended
  {
    hide Exact, Bounded, AllCovered, TargetsCommitted, RoundsHonest, ScansHonest;
  }

  predicate Announces(a: Action) {
    a.NotifyIdentities? || (a.NotifyEvents? && a.ids != []) || a.Restart?
  }

  lemma {:induction false} RequiredGrows(w: World, actions: seq<Action>, i: nat)
    requires Initial(w) && Possible(w, actions) && i < |actions| && Announces(actions[i])
    ensures Possible(w, actions[..i])
    ensures After(w, actions[..i]).identities <= After(w, actions).required
    ensures After(w, actions).required <= After(w, actions).identities
  {
    hide Enabled, Next, Inv, Announces, Possible, After, Initial;
    var n := |actions| - 1;
    AfterLast(w, actions);
    Safety(w, actions);
    Safety(w, actions[..n]);
    RequiredStep(After(w, actions[..n]), actions[n]);
    RequiredKnown(After(w, actions));
    if i < n {
      assert actions[..n][..i] == actions[..i];
      RequiredGrows(w, actions[..n], i);
    }
  }

  lemma RequiredStep(w: World, a: Action)
    requires Inv(w) && Enabled(w, a)
    ensures w.required <= Next(w, a).required && (Announces(a) ==> w.identities <= Next(w, a).required)
  {
    hide PageOf, TurnContract, Exact, Bounded, AllCovered, TargetsCommitted, RoundsHonest, TurnsHonest;
  }

  lemma RequiredKnown(w: World)
    requires Inv(w)
    ensures w.required <= w.identities
  {
    hide Exact, Bounded, AllCovered, TargetsCommitted, RoundsHonest, TurnsHonest;
  }

  lemma {:induction false} VisitedByPage(w: World, actions: seq<Action>, i: nat, id: int)
    requires Possible(w, actions) && i < |actions| && Announces(actions[i]) && id in After(w, actions).visited
    ensures exists k :: i < k < |actions| && actions[k].ScanPage? && id in actions[k].page
  {
    hide PageOf, TurnContract;
    var n := |actions| - 1;
    if i < n {
      if !(actions[n].ScanPage? && id in actions[n].page) {
        VisitedByPage(w, actions[..n], i, id);
        var k :| i < k < n && actions[..n][k].ScanPage? && id in actions[..n][k].page;
        assert actions[k] == actions[..n][k];
      }
    }
  }

  /**
   After a notification, no identity work pending means that every identity that existed when it came
   has since been visited by a page of a scan.
   */
  lemma ScansCover(w: World, actions: seq<Action>, i: nat, id: int)
    requires Initial(w) && Possible(w, actions) && i < |actions| && Announces(actions[i])
    requires !IdentityPending(After(w, actions).runner)
    requires Possible(w, actions[..i]) && id in After(w, actions[..i]).identities
    ensures exists k :: i < k < |actions| && actions[k].ScanPage? && id in actions[k].page
  {
    hide Enabled, Next, PageOf, TurnContract, Exact, Bounded, AllCovered, TargetsCommitted, RoundsHonest, TurnsHonest;
    RequiredGrows(w, actions, i);
    Safety(w, actions);
    VisitedByPage(w, actions, i, id);
  }

  // ----- turns make progress -----

  /** A committed target is within reach: no page below it is empty. */
  lemma NoEmptyPage(events: seq<Event>, cursor: int, target: int)
    requires AscendingIds(events) && IsTarget(events, target) && 0 <= cursor < target
    ensures Page(events, cursor, target) != []
  {
    var i :| 0 <= i < |events| && events[i].id == target;
    PositionSplits(events, cursor);
    PositionSplits(events, target);
  }

  /** Events committed while a turn runs are beyond its target and do not reach its pages. */
  lemma CommitLeavesPage(events: seq<Event>, e: Event, cursor: int, target: int)
    requires AscendingIds(events) && cursor <= LastId(events) && target <= LastId(events) < e.id
    ensures Page(events + [e], cursor, target) == Page(events, cursor, target)
  {
    assert (events + [e])[..|events|] == events;
    var from, to := Position(events, cursor), Position(events, target);
    if from < to {
      assert (events + [e])[from..to] == events[from..to];
      if to - from > EVENT_PAGE_SIZE {
        assert (events + [e])[from..from + EVENT_PAGE_SIZE] == events[from..from + EVENT_PAGE_SIZE];
      }
    }
  }

  /** So a commit during a rollup turn makes no difference to it: the turn is one before the commit and one after it. */
  lemma CommitCommutes(s: Store, s': Store, e: Event, target: int, r: TurnResult)
    requires Exact(s) && Bounded(s) && TurnContract(s, s', target, r) && target <= LastId(s.events) < e.id
    ensures TurnContract(s.(events := s.events + [e]), s'.(events := s'.events + [e]), target, r)
  {
    hide Exact, Page, AscendingIds;
    CommittedExact(s', e);
    ExactAscends(s);
    MovedAfterCommit(s.events, e, s.overviewCursor, s'.overviewCursor, target);
    MovedAfterCommit(s.events, e, s.activityCursor, s'.activityCursor, target);
    MovedAfterCommit(s.events, e, s.latencyCursor, s'.latencyCursor, target);
  }

  lemma ExactAscends(s: Store)
    requires Exact(s) && Bounded(s)
    ensures AscendingIds(s.events)
    ensures s.overviewCursor <= LastId(s.events) && s.activityCursor <= LastId(s.events)
      && s.latencyCursor <= LastId(s.events)
  {
    hide AscendingIds;
  }

  lemma MovedAfterCommit(events: seq<Event>, e: Event, before: int, after: int, target: int)
    requires AscendingIds(events) && before <= LastId(events) && target <= LastId(events) < e.id
    requires Moved(events, before, after, target)
    ensures Moved(events + [e], before, after, target)
  {
    hide Page, AscendingIds;
    CommitLeavesPage(events, e, before, target);
  }

  function Behind(events: seq<Event>, cursor: int, target: int): (n: nat) {
    var from, to := Position(events, cursor), Position(events, target);
    if from < to then to - from else 0
  }

  function Remaining(s: Store, target: int): nat {
    Behind(s.events, s.overviewCursor, target) + Behind(s.events, s.activityCursor, target) + Behind(s.events,
      s.latencyCursor, target)
  }

  lemma BehindShrinks(events: seq<Event>, before: int, after: int, target: int)
    requires AscendingIds(events) && Moved(events, before, after, target)
    ensures Behind(events, after, target) <= Behind(events, before, target)
    ensures after != before ==> Behind(events, after, target) < Behind(events, before, target)
  {
    if after != before {
      PageContinues(events, before, target);
      var page := Page(events, before, target);
      assert |UpTo(events, after)| == |UpTo(events, before)| + |page|;
    }
  }

  /** A turn that neither fails nor steps aside reaches the target or leaves strictly less to do. */
  lemma GoodTurnsFinish(s: Store, s': Store, target: int, r: TurnResult)
    requires Exact(s) && TurnContract(s, s', target, r) && !r.failed && !r.deferred
    ensures r.reached || Remaining(s', target) < Remaining(s, target)
    ensures r.reached <==> CaughtUp(s', target)
  {
    BehindShrinks(s.events, s.overviewCursor, s'.overviewCursor, target);
    BehindShrinks(s.events, s.activityCursor, s'.activityCursor, target);
    BehindShrinks(s.events, s.latencyCursor, s'.latencyCursor, target);
  }
}
