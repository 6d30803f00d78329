/**
 The aggregation runner's lock-protected fields. Every critical section of the runner is one function
 here; the class below runs the same sections in place.
 */
module AggregationRunner {
  import opened AggregationStore
  import Sorting

  const IDENTITY_BATCH_SIZE := 25

  datatype Kind = Rollups | Identity

  datatype Runner = Runner(
    nextKind: Kind,
    startupTargetLoaded: bool,
    activeRound: bool,
    activeTarget: int,
    rollupsReachedTarget: bool,
    pendingTarget: int,
    identityAfter: int,
    identityTargetGeneration: nat,
    identityScanGeneration: nat)

  const FRESH := Runner(Rollups, false, false, 0, false, 0, 0, 1, 0)

  /** What one turn reads under the lock before it goes to the database. */
  datatype Turn = Turn(
    kind: Kind,
    runnable: bool,
    target: int,
    activeRound: bool,
    identityPending: bool,
    after: int,
    passGeneration: nat)

  /** One page of identities in id order: where it ends, and whether that was the last page. */
  datatype IdentityBatch = IdentityBatch(last: int, reachedEnd: bool)

  function HighestId(ids: seq<int>): (m: int)
    ensures m >= 0 && (m == 0 || m in ids) && forall id | id in ids :: id <= m
  {
    if ids == [] then 0
    else
      var m := HighestId(ids[..|ids| - 1]);
      assert ids == ids[..|ids| - 1] + [ids[|ids| - 1]];
      if ids[|ids| - 1] > m then ids[|ids| - 1] else m
  }

  function Notified(r: Runner, ids: seq<int>): Runner {
    var top := HighestId(ids);
    if top <= 0 then r
    else r.(pendingTarget := if top > r.pendingTarget then top else r.pendingTarget,
            identityTargetGeneration := r.identityTargetGeneration + 1)
  }

  function IdentitiesNotified(r: Runner): Runner {
    r.(identityTargetGeneration := r.identityTargetGeneration + 1)
  }

  function StartedUp(r: Runner, target: int): Runner {
    if r.startupTargetLoaded then r
    else r.(startupTargetLoaded := true, activeRound := true, activeTarget := target,
      rollupsReachedTarget := target == 0,
            pendingTarget := if r.pendingTarget <= target then 0 else r.pendingTarget)
  }

  function Frozen(r: Runner): Runner {
    if r.pendingTarget <= 0 then r
    else if r.activeRound && r.pendingTarget <= r.activeTarget then r.(pendingTarget := 0)
    else r.(activeRound := true, activeTarget := r.pendingTarget, pendingTarget := 0, rollupsReachedTarget := false)
  }

  predicate IdentityPending(r: Runner) {
    r.identityAfter != 0 || r.identityScanGeneration < r.identityTargetGeneration
  }

  predicate Runnable(r: Runner) {
    r.activeRound || IdentityPending(r)
  }

  /** Whether a debounce timer is due for the pending target. */
  predicate WindowOpen(r: Runner) {
    r.pendingTarget > 0 && (!r.activeRound || r.pendingTarget > r.activeTarget)
  }

  function NextKind(r: Runner): Kind {
    if r.activeRound && !IdentityPending(r) then Rollups
    else if !r.activeRound && IdentityPending(r) then Identity
    else r.nextKind
  }

  function Begin(r: Runner): Turn {
    Turn(NextKind(r), Runnable(r), r.activeTarget, r.activeRound, IdentityPending(r), r.identityAfter,
         if NextKind(r).Identity? && IdentityPending(r) && r.identityAfter == 0 then r.identityTargetGeneration
         else r.identityScanGeneration)
  }

  function Completed(r: Runner): Runner {
    if !r.activeRound || !r.rollupsReachedTarget then r
    else r.(activeRound := false, activeTarget := 0, rollupsReachedTarget := false,
            pendingTarget := if r.pendingTarget <= r.activeTarget then 0 else r.pendingTarget)
  }

  function RollupsEnded(r: Runner, turn: Turn, reached: bool): Runner {
    var counted := turn.activeRound && r.activeRound && r.activeTarget == turn.target && reached;
    Completed(r.(nextKind := Identity, rollupsReachedTarget := r.rollupsReachedTarget || counted))
  }

  function IdentityEnded(r: Runner, turn: Turn, batch: IdentityBatch): Runner {
    r.(nextKind := Rollups, identityAfter := if batch.reachedEnd then 0 else batch.last,
       identityScanGeneration := turn.passGeneration)
  }

  function AfterFailure(r: Runner, kind: Kind): Runner {
    r.(nextKind := if kind.Rollups? then Identity else Rollups)
  }

  // ----- the runner as an object -----

  datatype Arrival = Committed(ids: seq<int>) | IdentitiesChanged

  function Received(r: Runner, arrival: Arrival): Runner {
    match arrival
    case Committed(ids) => Notified(r, ids)
    case IdentitiesChanged => IdentitiesNotified(r)
  }

  function ReceivedAll(r: Runner, arrivals: seq<Arrival>): Runner {
    if arrivals == [] then r else Received(ReceivedAll(r, arrivals[..|arrivals| - 1]), arrivals[|arrivals| - 1])
  }

  ghost predicate Ascending(ids: seq<int>) {
    forall i, j | 0 <= i < j < |ids| :: ids[i] < ids[j]
  }

  /** What the identity page query promises for the rows `ids`. */
  ghost predicate PageOf(ids: set<int>, after: int, page: set<int>, batch: IdentityBatch) {
    && page <= ids
    && |page| <= IDENTITY_BATCH_SIZE
    && (batch.reachedEnd <==> |page| < IDENTITY_BATCH_SIZE)
    && (if page == {} then batch.last == after else batch.last in page)
    && (forall x | x in page :: after < x <= batch.last)
    && (forall x | x in ids && after < x && (x <= batch.last || batch.reachedEnd) :: x in page)
  }

  lemma AscendingOrder()
    ensures Sorting.StrictTotalOrder(IdLess())
  {
  }

  function IdLess(): (int, int) -> bool { (a: int, b: int) => a < b }

  lemma SliceIsPage(ids: seq<int>, after: int, from: nat, to: nat, batch: IdentityBatch)
    requires Ascending(ids) && from <= to <= |ids|
    requires forall i | 0 <= i < |ids| :: ids[i] > after <==> i >= from
    requires to - from <= IDENTITY_BATCH_SIZE && (to < |ids| ==> to - from == IDENTITY_BATCH_SIZE)
    requires batch == IdentityBatch(if from == to then after else ids[to - 1], to - from < IDENTITY_BATCH_SIZE)
    ensures PageOf(Sorting.Elements(ids), after, Sorting.Elements(ids[from..to]), batch)
  {
    var page := ids[from..to];
    AscendingOrder();
    Sorting.ElementsCount(page, IdLess());
    forall x | x in Sorting.Elements(page) ensures x in ids && after < x <= batch.last {
      var k :| 0 <= k < |page| && page[k] == x;
      assert ids[from + k] == x;
    }
    forall x | x in ids && after < x && (x <= batch.last || batch.reachedEnd) ensures x in page {
      var k :| 0 <= k < |ids| && ids[k] == x;
      assert k < to;
      assert page[k - from] == x;
    }
    if from == to {
      assert Sorting.Elements(page) == {};
    } else {
      assert page[|page| - 1] == batch.last;
      assert Sorting.Elements(page) != {};
    }
  }

  /** Lists the lowest ids beyond `after`, one page of them. */
  method NextIdentities(ids: seq<int>, after: int) returns (page: seq<int>, batch: IdentityBatch)
    requires Ascending(ids)
    ensures PageOf(Sorting.Elements(ids), after, Sorting.Elements(page), batch)
    ensures Ascending(page)
    ensures |page| <= 25 && (batch.reachedEnd <==> |page| < 25)
  {
    hide PageOf, Sorting.Elements;
    var from := 0;
    while from < |ids| && ids[from] <= after
      invariant 0 <= from <= |ids|
      invariant forall i | 0 <= i < from :: ids[i] <= after
    {
      from := from + 1;
    }
    var to := if |ids| - from <= IDENTITY_BATCH_SIZE then |ids| else from + IDENTITY_BATCH_SIZE;
    page := ids[from..to];
    batch := IdentityBatch(if page == [] then after else page[|page| - 1], |page| < IDENTITY_BATCH_SIZE);
    SliceIsPage(ids, after, from, to, batch);
  }

  /** The environment's answers during one turn. */
  datatype TurnAnswers = TurnAnswers(inbox: Inbox, rollups: Answers, identityOk: bool)

  datatype RunResult = RunResult(kind: Kind, processed: bool, deferred: bool, failed: bool)

  class AggregationRunner {
    var nextKind: Kind
    var startupTargetLoaded: bool
    var activeRound: bool
    var activeTarget: int
    var rollupsReachedTarget: bool
    var pendingTarget: int
    var identityAfter: int
    var identityTargetGeneration: nat
    var identityScanGeneration: nat

    ghost function State(): Runner
      reads this
    {
      Runner(nextKind, startupTargetLoaded, activeRound, activeTarget, rollupsReachedTarget, pendingTarget,
             identityAfter, identityTargetGeneration, identityScanGeneration)
    }

    constructor ()
      ensures State() == FRESH
    {
      nextKind, startupTargetLoaded, activeRound, activeTarget := Rollups, false, false, 0;
      rollupsReachedTarget, pendingTarget, identityAfter := false, 0, 0;
      identityTargetGeneration, identityScanGeneration := 1, 0;
    }

    method NotifyUsageEventsCommitted(ids: seq<int>)
      modifies this`pendingTarget, this`identityTargetGeneration
      ensures State() == Notified(old(State()), ids)
    {
      var maxEventID := 0;
      for i := 0 to |ids|
        invariant maxEventID == HighestId(ids[..i])
      {
        assert ids[..i + 1][..i] == ids[..i];
        if ids[i] > maxEventID {
          maxEventID := ids[i];
        }
      }
      assert ids[..|ids|] == ids;
      if maxEventID <= 0 {
        return;
      }
      if maxEventID > pendingTarget {
        pendingTarget := maxEventID;
      }
      identityTargetGeneration := identityTargetGeneration + 1;
    }

    method NotifyUsageIdentitiesChanged()
      modifies this`identityTargetGeneration
      ensures State() == IdentitiesNotified(old(State()))
    {
      identityTargetGeneration := identityTargetGeneration + 1;
    }

    method FinishStartup(target: int)
      modifies this
      ensures State() == StartedUp(old(State()), target)
      ensures startupTargetLoaded
      ensures !old(startupTargetLoaded) ==>
        && activeRound && activeTarget == target && (rollupsReachedTarget <==> target == 0)
        && pendingTarget == (if old(pendingTarget) > target then old(pendingTarget) else 0)
    {
      if startupTargetLoaded {
        return;
      }
      startupTargetLoaded := true;
      activeRound := true;
      activeTarget := target;
      rollupsReachedTarget := target == 0;
      if pendingTarget <= target {
        pendingTarget := 0;
      }
    }

    method FreezePendingTarget()
      modifies this
      ensures State() == Frozen(old(State()))
    {
      if pendingTarget <= 0 {
        return;
      }
      if activeRound && pendingTarget <= activeTarget {
        pendingTarget := 0;
        return;
      }
      activeRound := true;
      activeTarget := pendingTarget;
      pendingTarget := 0;
      rollupsReachedTarget := false;
    }

    method BeginTurn() returns (turn: Turn)
      ensures turn == Begin(State())
    {
      var identityPending := identityAfter != 0 || identityScanGeneration < identityTargetGeneration;
      var kind, runnable := nextKind, true;
      if !(activeRound && identityPending) {
        if activeRound {
          kind := Rollups;
        } else if identityPending {
          kind := Identity;
        } else {
          runnable := false;
        }
      }
      var passGeneration := identityScanGeneration;
      if kind.Identity? && identityPending && identityAfter == 0 {
        passGeneration := identityTargetGeneration;
      }
      turn := Turn(kind, runnable, activeTarget, activeRound, identityPending, identityAfter, passGeneration);
    }

    method EndRollups(turn: Turn, reached: bool)
      modifies this
      ensures State() == RollupsEnded(old(State()), turn, reached)
    {
      nextKind := Identity;
      if turn.activeRound && activeRound && activeTarget == turn.target && reached {
        rollupsReachedTarget := true;
      }
      CompleteRollupRoundIfReady();
    }

    method CompleteRollupRoundIfReady()
      modifies this
      ensures State() == Completed(old(State()))
    {
      if !activeRound || !rollupsReachedTarget {
        return;
      }
      var completedTarget := activeTarget;
      activeRound := false;
      activeTarget := 0;
      rollupsReachedTarget := false;
      if pendingTarget <= completedTarget {
        pendingTarget := 0;
      }
    }

    method EndIdentity(turn: Turn, batch: IdentityBatch) returns (stillPending: bool)
      modifies this
      ensures State() == IdentityEnded(old(State()), turn, batch)
      ensures stillPending == IdentityPending(State())
    {
      nextKind := Rollups;
      if batch.reachedEnd {
        identityAfter := 0;
        identityScanGeneration := turn.passGeneration;
      } else {
        identityAfter := batch.last;
        identityScanGeneration := turn.passGeneration;
      }
      stillPending := identityAfter != 0 || identityScanGeneration < identityTargetGeneration;
    }

    method AdvanceAfterFailure(kind: Kind)
      modifies this`nextKind
      ensures State() == AfterFailure(old(State()), kind)
    {
      match kind
      case Rollups => nextKind := Identity;
      case Identity => nextKind := Rollups;
    }

    /** Notifications from other goroutines, each in its own critical section. */
    method Receive(arrivals: seq<Arrival>)
      modifies this`pendingTarget, this`identityTargetGeneration
      ensures State() == ReceivedAll(old(State()), arrivals)
    {
      for i := 0 to |arrivals|
        invariant State() == ReceivedAll(old(State()), arrivals[..i])
      {
        assert arrivals[..i + 1][..i] == arrivals[..i];
        match arrivals[i]
        case Committed(ids) => NotifyUsageEventsCommitted(ids);
        case IdentitiesChanged => NotifyUsageIdentitiesChanged();
      }
      assert arrivals[..|arrivals|] == arrivals;
    }

    /**
     One turn. `arrivals` are the notifications that come in while the turn is at the database, between
     its two critical sections; `updated` says how many identities of a page had new events.
     */
    method RunPreparedOnce(store: RollupStore, identities: seq<int>, updated: nat, now: int, a: TurnAnswers,
        arrivals: seq<Arrival>)
      returns (result: RunResult, ghost reached: bool, ghost page: set<int>, ghost batch: IdentityBatch)
      requires store.Sound() && Ascending(identities)
      requires !activeRound ==> activeTarget == 0
      modifies this, store
      ensures store.Sound() && store.events == old(store.events)
      ensures result.kind == Begin(old(State())).kind
      ensures !Runnable(old(State())) ==>
        State() == old(State()) && store.Snapshot() == old(store.Snapshot()) && !result.failed
      ensures Runnable(old(State())) && !a.inbox.Clear? ==>
        && State() == ReceivedAll(old(State()), arrivals) && store.Snapshot() == old(store.Snapshot())
        && (result.failed <==> a.inbox.Unreadable?) && (result.deferred <==> a.inbox.Waiting?)
      ensures Runnable(old(State())) && a.inbox.Clear? && result.kind.Rollups? ==>
        && Progress(old(store.Snapshot()), store.Snapshot(), old(activeTarget),
          TurnResult(result.processed, result.deferred, reached, result.failed))
        && Follows(old(store.Snapshot()), store.Snapshot(), old(activeTarget), a.rollups,
          TurnResult(result.processed, result.deferred, reached, result.failed))
        && State() == (if result.failed then ReceivedAll(old(State()), arrivals)
                       else RollupsEnded(ReceivedAll(old(State()), arrivals), Begin(old(State())), reached))
      ensures Runnable(old(State())) && a.inbox.Clear? && result.kind.Identity? ==>
        && store.Snapshot() == old(store.Snapshot()) && result.failed == !a.identityOk && !result.deferred
        && (result.failed ==> State() == ReceivedAll(old(State()), arrivals))
        && (!result.failed ==>
              && PageOf(Sorting.Elements(identities), old(identityAfter), page, batch)
              && State() == IdentityEnded(ReceivedAll(old(State()), arrivals), Begin(old(State())), batch)
              && (result.processed <==> updated > 0 || !batch.reachedEnd || IdentityPending(State())))
    {
      hide Exact, Bounded, Progress, Follows, PageOf, ReceivedAll, RollupsEnded, IdentityEnded, Ascending,
        Sorting.Elements;
      reached, page, batch := false, {}, IdentityBatch(0, false);
      var turn := BeginTurn();
      if !turn.runnable {
        result := RunResult(turn.kind, false, false, false);
        return;
      }
      if !a.inbox.Clear? {
        Receive(arrivals);
        result := RunResult(turn.kind, false, a.inbox.Waiting?, a.inbox.Unreadable?);
        return;
      }
      if turn.kind.Rollups? {
        var r := store.RunRollupsTurn(turn.activeRound, turn.target, now, a.rollups);
        reached := r.reached;
        Receive(arrivals);
        if !r.failed {
          EndRollups(turn, r.reached);
        }
        result := RunResult(turn.kind, r.processed, r.deferred, r.failed);
      } else {
        Receive(arrivals);
        if !a.identityOk {
          result := RunResult(turn.kind, false, false, true);
          return;
        }
        var rows, b := NextIdentities(identities, turn.after);
        page, batch := Sorting.Elements(rows), b;
        var stillPending := EndIdentity(turn, b);
        result := RunResult(turn.kind, updated > 0 || !b.reachedEnd || stillPending, false, false);
      }
    }
  }
}
