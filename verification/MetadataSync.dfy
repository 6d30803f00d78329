/**
 The metadata refresh debounce: requests from other goroutines, a one-slot channel, a timer, and the one
 goroutine that synchronizes. Every critical section and channel operation is one step.
 */
module MetadataSync {
  import opened Wrappers

  /** Nanoseconds. */
  const DEBOUNCE: int := 1000000000

  /** Where the synchronizing goroutine stands. */
  datatype Phase =
    | Selecting
    | Connected        // a connection signal is taken, activation not yet recorded
    | Arming           // a refresh token is taken, its timer not yet set
    | Draining         // the timer fired, tokens are being discarded
    | Drained
    | Starting         // a synchronization is about to begin
    | Syncing
    | Stopped

  /**
   The last three fields are history: requests that are recorded but not yet posted, and those that no
   synchronization has begun after, told apart by whether they came before activation.
   */
  datatype World = World(
    notificationMode: bool,
    activated: bool,
    lastRequested: Option<int>,
    now: int,
    token: bool,
    connected: bool,
    timer: Option<int>,
    phase: Phase,
    requests: nat,
    senders: set<nat>,
    before: set<nat>,
    after: set<nat>)

  datatype Action =
    | Tick(elapsed: nat)
    | NotifyConnected
    | MarkSupported
    | RequirePolling
    | Record
    | Post(id: nat)
    | TakeConnected
    | Activate
    | TakePeriodic
    | TakeRefresh
    | Arm
    | Fire
    | DrainOne
    | DrainEnd
    | Decide
    | Begin
    | End(ok: bool)
    | Stop

  const START := World(false, false, None, 0, false, false, None, Selecting, 0, {}, {}, {})

  function Delay(lastRequested: Option<int>, now: int): int {
    match lastRequested
    case None => DEBOUNCE
    case Some(t) => if t + DEBOUNCE - now < 0 then 0 else t + DEBOUNCE - now
  }

  predicate Enabled(w: World, a: Action) {
    match a
    case Tick(_) => true
    case NotifyConnected => true
    case MarkSupported => true
    case RequirePolling => true
    case Record => true
    case Post(id) => id in w.senders
    case TakeConnected => w.phase.Selecting? && w.connected
    case Activate => w.phase.Connected?
    case TakePeriodic => w.phase.Selecting?
    case TakeRefresh => w.phase.Selecting? && w.token
    case Arm => w.phase.Arming?
    case Fire => w.phase.Selecting? && w.timer.Some? && w.now >= w.timer.value
    case DrainOne => w.phase.Draining? && w.token
    case DrainEnd => w.phase.Draining? && !w.token
    case Decide => w.phase.Drained?
    case Begin => w.phase.Starting?
    case End(_) => w.phase.Syncing?
    case Stop => true
  }

  /** A request under the lock: the mode always, the rest only once activated. */
  function Recorded(w: World): World {
    if w.activated
    then w.(notificationMode := true, lastRequested := Some(w.now), requests := w.requests + 1,
            senders := w.senders + {w.requests}, after := w.after + {w.requests})
    else w.(notificationMode := true, requests := w.requests + 1, before := w.before + {w.requests})
  }

  function Next(w: World, a: Action): World
    requires Enabled(w, a)
  {
    match a
    case Tick(elapsed) => w.(now := w.now + elapsed)
    case NotifyConnected => w.(connected := true)
    case MarkSupported => w.(notificationMode := true)
    case RequirePolling => w.(notificationMode := false)
    case Record => Recorded(w)
    case Post(id) => w.(senders := w.senders - {id}, token := true)
    case TakeConnected => w.(connected := false, phase := Connected)
    case Activate => w.(activated := true, phase := Starting)
    case TakePeriodic => if w.activated && !w.notificationMode then w.(phase := Starting) else w
    case TakeRefresh => w.(token := false, phase := Arming)
    case Arm => w.(timer := Some(w.now + Delay(w.lastRequested, w.now)), phase := Selecting)
    case Fire => w.(timer := None, phase := Draining)
    case DrainOne => w.(token := false)
    case DrainEnd => w.(phase := Drained)
    case Decide =>
      var delay := Delay(w.lastRequested, w.now);
      if delay > 0 then w.(timer := Some(w.now + delay), phase := Selecting) else w.(phase := Starting)
    case Begin => w.(phase := Syncing, before := {}, after := {})
    case End(_) => w.(phase := Selecting)
    case Stop => w.(phase := Stopped)
  }

  predicate Possible(actions: seq<Action>)
    decreases |actions|, 0
  {
    actions == [] ||
    (Possible(actions[..|actions| - 1]) && Enabled(After(actions[..|actions| - 1]), actions[|actions| - 1]))
  }

  function After(actions: seq<Action>): World
    requires Possible(actions)
    decreases |actions|, 1
  {
    if actions == [] then START else Next(After(actions[..|actions| - 1]), actions[|actions| - 1])
  }

  // ----- nothing is lost -----

  /** The goroutine holds a token it took, or is on its way to synchronize. */
  predicate InHand(p: Phase) {
    p.Arming? || p.Draining? || p.Drained? || p.Starting?
  }

  predicate Pending(w: World, id: nat) {
    id in w.senders || w.token || w.timer.Some? || InHand(w.phase) || w.phase.Stopped?
  }

  ghost predicate Inv(w: World) {
    && (forall id | id in w.after :: Pending(w, id))
    && (w.before != {} ==> !w.activated || w.phase.Starting? || w.phase.Stopped?)
    && (w.lastRequested.Some? ==> w.lastRequested.value <= w.now)
    && (!w.activated ==> w.after == {} && w.senders == {} && !w.token && w.timer.None?)
    && (w.phase.Arming? || w.phase.Draining? || w.phase.Drained? || w.phase.Starting? || w.phase.Syncing?
      ==> w.activated)
    && (w.token || w.timer.Some? || w.senders != {} || w.phase.Arming? || w.phase.Draining? || w.phase.Drained?
      ==> w.lastRequested.Some?)
  }

  lemma Keep(w: World, a: Action)
    requires Inv(w) && Enabled(w, a)
    ensures Inv(Next(w, a))
  {
  }

  lemma {:induction false} Safety(actions: seq<Action>)
    requires Possible(actions)
    ensures Inv(After(actions))
  {
    if actions != [] {
      var n := |actions| - 1;
      Safety(actions[..n]);
      Keep(After(actions[..n]), actions[n]);
    }
  }

  lemma {:induction false} PrefixPossible(actions: seq<Action>, i: nat)
    requires Possible(actions) && i <= |actions|
    ensures Possible(actions[..i])
    decreases |actions|
  {
    if i == |actions| {
      assert actions[..i] == actions;
    } else {
      PrefixPossible(actions[..|actions| - 1], i);
      assert actions[..|actions| - 1][..i] == actions[..i];
    }
  }

  /** Some synchronization begins behind a position. */
  ghost predicate BeginsAfter(actions: seq<Action>, i: nat) {
    exists k :: i < k < |actions| && actions[k].Begin?
  }

  /** A recorded request stays uncovered until a synchronization begins. */
  lemma {:induction false} RecordedStays(actions: seq<Action>, i: nat)
    requires Possible(actions) && i < |actions| && actions[i].Record? && !BeginsAfter(actions, i)
    ensures Possible(actions[..i])
    ensures var w, id := After(actions), After(actions[..i]).requests;
      if After(actions[..i]).activated then id in w.after else id in w.before
    decreases |actions|
  {
    PrefixPossible(actions, i);
    var n := |actions| - 1;
    if i < n {
      var front := actions[..n];
      assert front[..i] == actions[..i] && front[i] == actions[i];
      RecordedStays(front, i);
      assert !actions[n].Begin?;
      UncoveredStays(After(front), actions[n]);
    }
  }

  lemma UncoveredStays(w: World, a: Action)
    requires Enabled(w, a) && !a.Begin?
    ensures w.after <= Next(w, a).after && w.before <= Next(w, a).before
  {
  }

  /**
   A request made after activation and not yet followed by a synchronization leaves a token, a timer, a
   sender about to post, or the goroutine on its way.
   */
  lemma NoLostRefresh(actions: seq<Action>, i: nat)
    requires Possible(actions) && i < |actions| && actions[i].Record? && !BeginsAfter(actions, i)
    requires Possible(actions[..i]) && After(actions[..i]).activated
    ensures Pending(After(actions), After(actions[..i]).requests)
  {
    RecordedStays(actions, i);
    Safety(actions);
  }

  /** A request made before activation is older than the synchronization that activation brings. */
  lemma EarlyRequestsCovered(actions: seq<Action>, i: nat)
    requires Possible(actions) && i < |actions| && actions[i].Record?
    requires Possible(actions[..i]) && !After(actions[..i]).activated
    requires After(actions).activated && !After(actions).phase.Starting? && !After(actions).phase.Stopped?
    ensures BeginsAfter(actions, i)
  {
    if !BeginsAfter(actions, i) {
      RecordedStays(actions, i);
      Safety(actions);
      assert false;
    }
  }

  /** A debounced synchronization is decided only when the last request is a full window old. */
  lemma DebounceWaits(actions: seq<Action>)
    requires Possible(actions) && After(actions).phase.Drained? && Next(After(actions), Decide).phase.Starting?
    ensures After(actions).lastRequested.Some? && After(actions).now >= After(actions).lastRequested.value + DEBOUNCE
    ensures forall i | 0 <= i < |actions| && actions[i].Record? && Possible(actions[..i])
      && After(actions[..i]).activated ::
              After(actions[..i]).now + DEBOUNCE <= After(actions).now
  {
    forall i | 0 <= i < |actions| && actions[i].Record? && Possible(actions[..i]) && After(actions[..i]).activated
      ensures After(actions[..i]).now + DEBOUNCE <= After(actions).now
    {
      RecordedTime(actions, i);
    }
  }

  /** The timer is due a second after the last request, and a synchronization is decided exactly from then on. */
  lemma DebounceExactly(actions: seq<Action>)
    requires Possible(actions) && (After(actions).phase.Arming? || After(actions).phase.Drained?)
    ensures var w := After(actions);
      && w.lastRequested.Some?
      && (var due := w.lastRequested.value + 1_000_000_000;
          && (w.phase.Arming? ==>
                Next(w, Arm) == w.(timer := Some(if due > w.now then due else w.now), phase := Selecting))
          && (w.phase.Drained? && w.now < due ==> Next(w, Decide) == w.(timer := Some(due), phase := Selecting))
          && (w.phase.Drained? && w.now >= due ==> Next(w, Decide) == w.(phase := Starting)))
  {
    Safety(actions);
  }

  lemma {:induction false} RecordedTime(actions: seq<Action>, i: nat)
    requires Possible(actions) && i < |actions| && actions[i].Record? && Possible(actions[..i])
      && After(actions[..i]).activated
    ensures After(actions).lastRequested.Some? && After(actions[..i]).now <= After(actions).lastRequested.value
    decreases |actions|
  {
    hide Next, Enabled, Inv;
    var n := |actions| - 1;
    if i < n {
      assert actions[..n][..i] == actions[..i];
      RecordedTime(actions[..n], i);
      Safety(actions[..n]);
      RequestTimeGrows(After(actions[..n]), actions[n]);
    } else {
      RecordTakesNow(After(actions[..n]));
    }
  }

  lemma RequestTimeGrows(w: World, a: Action)
    requires Inv(w) && Enabled(w, a) && w.lastRequested.Some?
    ensures Next(w, a).lastRequested.Some? && w.lastRequested.value <= Next(w, a).lastRequested.value
  {
  }

  lemma RecordTakesNow(w: World)
    requires w.activated && Enabled(w, Record)
    ensures Next(w, Record).lastRequested == Some(w.now)
  {
  }

  predicate Announces(a: Action) {
    a.Record? || a.MarkSupported?
  }

  /** Something announced refreshes by notification, and nothing has asked for polling since. */
  ghost predicate AnnouncedLast(actions: seq<Action>) {
    exists i :: 0 <= i < |actions| && Announces(actions[i]) && RequirePolling !in actions[i..]
  }

  lemma AnnouncedNext(actions: seq<Action>)
    requires actions != []
    ensures var n := |actions| - 1;
      AnnouncedLast(actions) <==>
        Announces(actions[n]) || (AnnouncedLast(actions[..n]) && actions[n] != RequirePolling)
  {
    var n := |actions| - 1;
    if Announces(actions[n]) { assert RequirePolling !in actions[n..]; }
    if i :| 0 <= i < n && Announces(actions[..n][i]) && RequirePolling !in actions[..n][i..] {
      assert actions[i..] == actions[..n][i..] + [actions[n]];
    }
    if i :| 0 <= i < n && Announces(actions[i]) && RequirePolling !in actions[i..] {
      assert actions[i..] == actions[..n][i..] + [actions[n]];
      assert Announces(actions[..n][i]);
    }
  }

  /** The runner polls unless a request or a sign of support came last; it is active from the first connection on. */
  lemma {:induction false} ModeExactly(actions: seq<Action>)
    requires Possible(actions)
    ensures After(actions).notificationMode <==> AnnouncedLast(actions)
    ensures After(actions).activated <==> Activate in actions
  {
    hide AnnouncedLast, Announces, Enabled, Next;
    if actions == [] {
      NothingAnnounced();
    } else {
      var n := |actions| - 1;
      ModeExactly(actions[..n]);
      ModeStep(After(actions[..n]), actions[n]);
      AnnouncedNext(actions);
      assert actions == actions[..n] + [actions[n]];
    }
  }

  lemma ModeStep(w: World, a: Action)
    requires Enabled(w, a)
    ensures Next(w, a).notificationMode <==> Announces(a) || (w.notificationMode && a != RequirePolling)
    ensures Next(w, a).activated <==> w.activated || a == Activate
  {
  }

  lemma NothingAnnounced()
    ensures !AnnouncedLast([])
  {
  }

  // ----- what a failed attempt leaves -----

  /** No token, timer, sender or connection, and no polling: nothing the goroutine could act on. */
  predicate Quiet(w: World) {
    && (w.phase.Selecting? || w.phase.Syncing?)
    && !w.token && w.timer.None? && w.senders == {} && !w.connected && (w.activated ==> w.notificationMode)
  }

  /** What comes from outside and asks for a synchronization. */
  predicate Prompts(a: Action) {
    a.Record? || a.NotifyConnected? || a.RequirePolling?
  }

  predicate Unprompted(actions: seq<Action>) {
    forall a | a in actions :: !Prompts(a)
  }

  lemma QuietStays(w: World, a: Action)
    requires (Quiet(w) || w.phase.Stopped?) && Enabled(w, a) && !Prompts(a)
    ensures !a.Begin? && (Quiet(Next(w, a)) || Next(w, a).phase.Stopped?)
  {
  }

  lemma {:induction false} QuietRuns(p: seq<Action>, more: seq<Action>)
    requires Possible(p) && Possible(p + more) && Unprompted(more) && (Quiet(After(p)) || After(p).phase.Stopped?)
    ensures Quiet(After(p + more)) || After(p + more).phase.Stopped?
    ensures forall a | a in more :: !a.Begin?
    decreases |more|
  {
    hide Quiet, Prompts;
    if more == [] {
      assert p + more == p;
    } else {
      var n := |more| - 1;
      assert (p + more)[..|p + more| - 1] == p + more[..n];
      assert more[n] in more && more == more[..n] + [more[n]];
      QuietRuns(p, more[..n]);
      QuietStays(After(p + more[..n]), more[n]);
    }
  }

  /** The goroutine can go on to begin a synchronization without being prompted. */
  ghost predicate CanBegin(p: seq<Action>) {
    exists more: seq<Action> :: Possible(p + more) && Unprompted(more) && more != [] && more[|more| - 1].Begin?
  }

  lemma CanBeginLater(p: seq<Action>, a: Action)
    requires !Prompts(a) && CanBegin(p + [a])
    ensures CanBegin(p)
  {
    hide Possible, Prompts;
    var more: seq<Action> :| Possible(p + [a] + more) && Unprompted(more) && more != [] && more[|more| - 1].Begin?;
    assert p + [a] + more == p + ([a] + more);
  }

  lemma StartingBegins(p: seq<Action>)
    requires Possible(p) && After(p).phase.Starting?
    ensures CanBegin(p)
  {
    hide Possible, After;
    Step(p, Begin);
    assert Unprompted([Begin]);
  }

  lemma ConnectionBegins(p: seq<Action>)
    requires Possible(p) && (After(p).phase.Connected? || (After(p).phase.Selecting? && After(p).connected))
    ensures CanBegin(p)
  {
    hide Possible, After, CanBegin;
    var q := p;
    if After(p).phase.Selecting? {
      Step(p, TakeConnected);
      q := p + [TakeConnected];
    }
    Step(q, Activate);
    StartingBegins(q + [Activate]);
    CanBeginLater(q, Activate);
    if q != p { CanBeginLater(p, TakeConnected); }
  }

  /** Once the timer has fired, waiting a window is enough: every request is then old enough. */
  lemma DrainedBegins(p: seq<Action>)
    requires Possible(p) && After(p).phase.Drained?
    ensures CanBegin(p)
  {
    Safety(p);
    hide Possible, After, CanBegin;
    Step(p, Tick(DEBOUNCE));
    var q := p + [Tick(DEBOUNCE)];
    Step(q, Decide);
    StartingBegins(q + [Decide]);
    CanBeginLater(q, Decide);
    CanBeginLater(p, Tick(DEBOUNCE));
  }

  lemma DrainingBegins(p: seq<Action>)
    requires Possible(p) && After(p).phase.Draining?
    ensures CanBegin(p)
  {
    hide Possible, After, CanBegin;
    var q := p;
    if After(p).token {
      Step(p, DrainOne);
      q := p + [DrainOne];
    }
    Step(q, DrainEnd);
    DrainedBegins(q + [DrainEnd]);
    CanBeginLater(q, DrainEnd);
    if q != p { CanBeginLater(p, DrainOne); }
  }

  lemma TimerBegins(p: seq<Action>)
    requires Possible(p) && After(p).phase.Selecting? && After(p).timer.Some?
    ensures CanBegin(p)
  {
    hide Possible, After, CanBegin;
    var rest := After(p).timer.value - After(p).now;
    var wait := Tick(if rest < 0 then 0 else rest);
    Step(p, wait);
    Step(p + [wait], Fire);
    DrainingBegins(p + [wait] + [Fire]);
    CanBeginLater(p + [wait], Fire);
    CanBeginLater(p, wait);
  }

  lemma ArmingBegins(p: seq<Action>)
    requires Possible(p) && After(p).phase.Arming?
    ensures CanBegin(p)
  {
    hide Possible, After, CanBegin;
    Step(p, Arm);
    TimerBegins(p + [Arm]);
    CanBeginLater(p, Arm);
  }

  lemma TokenBegins(p: seq<Action>)
    requires Possible(p) && After(p).phase.Selecting? && After(p).token
    ensures CanBegin(p)
  {
    hide Possible, After, CanBegin;
    Step(p, TakeRefresh);
    ArmingBegins(p + [TakeRefresh]);
    CanBeginLater(p, TakeRefresh);
  }

  lemma SelectingBegins(p: seq<Action>)
    requires Possible(p) && After(p).phase.Selecting? && !Quiet(After(p))
    ensures CanBegin(p)
  {
    hide Possible, After, CanBegin;
    var w := After(p);
    if w.connected {
      ConnectionBegins(p);
    } else if w.token {
      TokenBegins(p);
    } else if w.timer.Some? {
      TimerBegins(p);
    } else if w.senders != {} {
      var id :| id in w.senders;
      Step(p, Post(id));
      TokenBegins(p + [Post(id)]);
      CanBeginLater(p, Post(id));
    } else {
      Step(p, TakePeriodic);
      StartingBegins(p + [TakePeriodic]);
      CanBeginLater(p, TakePeriodic);
    }
  }

  /** At any time, another synchronization can begin without being prompted exactly unless all is quiet, or stopped. */
  lemma BeginsUnlessQuiet(p: seq<Action>)
    requires Possible(p)
    ensures CanBegin(p) <==> !Quiet(After(p)) && !After(p).phase.Stopped?
  {
    if Quiet(After(p)) || After(p).phase.Stopped? {
      if more: seq<Action> :| Possible(p + more) && Unprompted(more) && more != [] && more[|more| - 1].Begin? {
        QuietRuns(p, more);
      }
    } else {
      hide Possible, After, CanBegin, Quiet;
      match After(p).phase
      case Selecting => SelectingBegins(p);
      case Connected => ConnectionBegins(p);
      case Arming => ArmingBegins(p);
      case Draining => DrainingBegins(p);
      case Drained => DrainedBegins(p);
      case Starting => StartingBegins(p);
      case Syncing => SyncingBegins(p);
      case Stopped =>
    }
  }

  lemma SyncingBegins(p: seq<Action>)
    requires Possible(p) && After(p).phase.Syncing? && !Quiet(After(p))
    ensures CanBegin(p)
  {
    hide Possible, After, CanBegin;
    Step(p, End(true));
    SelectingBegins(p + [End(true)]);
    CanBeginLater(p, End(true));
  }

  /** A failed attempt is followed by another of its own accord exactly if something was left to act on. */
  lemma RetriedExactly(p: seq<Action>)
    requires Possible(p) && After(p).phase.Syncing?
    ensures var w := After(p);
      Possible(p + [End(false)]) &&
      (CanBegin(p + [End(false)]) <==>
        w.token || w.timer.Some? || w.senders != {} || w.connected || !w.notificationMode)
  {
    Safety(p);
    Step(p, End(false));
    hide Possible, After, CanBegin;
    BeginsUnlessQuiet(p + [End(false)]);
  }

  lemma Step(actions: seq<Action>, a: Action)
    requires Possible(actions) && Enabled(After(actions), a)
    ensures Possible(actions + [a]) && After(actions + [a]) == Next(After(actions), a)
  {
    assert (actions + [a])[..|actions|] == actions;
  }

  lemma Activated() returns (a: seq<Action>)
    ensures Possible(a) && After(a) == START.(activated := true) && |a| == 5
  {
    a := [];
    Step(a, NotifyConnected); a := a + [NotifyConnected];
    Step(a, TakeConnected); a := a + [TakeConnected];
    Step(a, Activate); a := a + [Activate];
    Step(a, Begin); a := a + [Begin];
    Step(a, End(true)); a := a + [End(true)];
  }

  lemma Requested(p: seq<Action>) returns (a: seq<Action>)
    requires Possible(p) && After(p) == START.(activated := true)
    ensures Possible(p + a) && a == [Record, Post(0), TakeRefresh, Arm]
    ensures After(p + a) == START.(notificationMode := true, activated := true, lastRequested := Some(0),
                                   timer := Some(DEBOUNCE), requests := 1, after := {0})
  {
    hide Possible, After;
    Step(p, Record);
    Step(p + [Record], Post(0));
    assert {0} - {0} == {};
    var p2 := p + [Record] + [Post(0)];
    Step(p2, TakeRefresh);
    Step(p2 + [TakeRefresh], Arm);
    a := [Record, Post(0), TakeRefresh, Arm];
    assert p2 + [TakeRefresh] + [Arm] == p + a;
  }

  lemma Debounced(p: seq<Action>) returns (a: seq<Action>)
    requires Possible(p)
    requires After(p) == START.(notificationMode := true, activated := true, lastRequested := Some(0),
                                timer := Some(DEBOUNCE), requests := 1, after := {0})
    ensures Possible(p + a) && a == [Tick(DEBOUNCE), Fire, DrainEnd, Decide]
    ensures After(p + a) == START.(notificationMode := true, activated := true, lastRequested := Some(0),
      now := DEBOUNCE,
                                   phase := Starting, requests := 1, after := {0})
  {
    hide Possible, After;
    Step(p, Tick(DEBOUNCE));
    Step(p + [Tick(DEBOUNCE)], Fire);
    var p2 := p + [Tick(DEBOUNCE)] + [Fire];
    Step(p2, DrainEnd);
    Step(p2 + [DrainEnd], Decide);
    a := [Tick(DEBOUNCE), Fire, DrainEnd, Decide];
    assert p2 + [DrainEnd] + [Decide] == p + a;
  }

  /**
   Requests are covered by attempts, not by successes: here the only synchronization begun after a request
   fails, and no other can begin unprompted.
   */
  lemma FailureIsNotRetried() returns (actions: seq<Action>)
    ensures Possible(actions) && !CanBegin(actions)
    ensures exists i :: 0 <= i < |actions| && actions[i].Record? && End(true) !in actions[i..]
  {
    hide Possible, After, CanBegin, Next, Enabled;
    var p := Activated();
    var a := Requested(p);
    var b := Debounced(p + a);
    var q := Failed(p + a + b);
    actions := q;
    BeginsUnlessQuiet(actions);
    assert actions[5..] == a + b + [Begin, End(false)];
    assert actions[5] == Record;
  }

  lemma Failed(p: seq<Action>) returns (actions: seq<Action>)
    requires Possible(p) && After(p).phase.Starting? && Quiet(After(p).(phase := Selecting))
    ensures actions == p + [Begin, End(false)] && Possible(actions) && Quiet(After(actions))
  {
    hide Possible, After;
    Step(p, Begin);
    Step(p + [Begin], End(false));
    actions := p + [Begin] + [End(false)];
  }

  // ----- the runner as an object -----

  /** A drain to its end, if nothing is posted meanwhile. */
  function DrainedFrom(w: World): (r: World)
    requires w.phase.Draining?
    ensures r == w.(token := false, phase := Drained)
  {
    if w.token then Next(Next(w, DrainOne), DrainEnd) else Next(w, DrainEnd)
  }

  /** One-slot channels hold a signal or none; a timer holds its due time or is unset. */
  class MetadataSyncRunner {
    var notificationMode: bool
    var activated: bool
    var lastRefreshRequestedAt: Option<int>
    var refreshRequests: bool
    var connectedRequests: bool
    var debounce: Option<int>

    ghost predicate Shows(w: World)
      reads this
    {
      && w.notificationMode == notificationMode && w.activated == activated && w.lastRequested == lastRefreshRequestedAt
      && w.token == refreshRequests && w.connected == connectedRequests && w.timer == debounce
    }

    constructor ()
      ensures Shows(START)
    {
      notificationMode, activated, lastRefreshRequestedAt := false, false, None;
      refreshRequests, connectedRequests, debounce := false, false, None;
    }

    method SetNotificationMode(enabled: bool, ghost w: World) returns (changed: bool)
      requires Shows(w)
      modifies this`notificationMode
      ensures Shows(Next(w, if enabled then MarkSupported else RequirePolling))
      ensures changed <==> w.notificationMode != enabled
    {
      changed := notificationMode != enabled;
      notificationMode := enabled;
    }

    /** Mode, activation and time under one lock. */
    method RecordRefreshRequest(now: int, ghost w: World) returns (changed: bool, wasActivated: bool)
      requires Shows(w) && w.now == now
      modifies this`notificationMode, this`lastRefreshRequestedAt
      ensures Shows(Next(w, Record)) && changed == !w.notificationMode && wasActivated == w.activated
    {
      changed := !notificationMode;
      notificationMode := true;
      wasActivated := activated;
      if activated {
        lastRefreshRequestedAt := Some(now);
      }
    }

    /** A send that never blocks: a full slot already stands for a pending refresh. */
    method PostRefresh(ghost w: World, ghost id: nat)
      requires Shows(w) && id in w.senders
      modifies this`refreshRequests
      ensures Shows(Next(w, Post(id)))
    {
      if !refreshRequests {
        refreshRequests := true;
      }
    }

    method NotifyIngestConnected(ghost w: World)
      requires Shows(w)
      modifies this`connectedRequests
      ensures Shows(Next(w, NotifyConnected))
    {
      if !connectedRequests {
        connectedRequests := true;
      }
    }

    /** The connection branch up to the synchronization it starts. */
    method TakeConnection(ghost w: World)
      requires Shows(w) && Enabled(w, TakeConnected)
      modifies this`connectedRequests, this`activated
      ensures Shows(Next(Next(w, TakeConnected), Activate))
    {
      connectedRequests := false;
      activated := true;
    }

    method RefreshDebounceDelay(now: int) returns (delay: int)
      ensures delay == Delay(lastRefreshRequestedAt, now)
    {
      if lastRefreshRequestedAt.None? {
        return DEBOUNCE;
      }
      var dueAt := lastRefreshRequestedAt.value + DEBOUNCE;
      delay := dueAt - now;
      if delay < 0 {
        delay := 0;
      }
    }

    /** The refresh branch: the timer is set, or set anew. */
    method TakeRefreshRequest(now: int, ghost w: World)
      requires Shows(w) && w.now == now && Enabled(w, TakeRefresh)
      modifies this`refreshRequests, this`debounce
      ensures Shows(Next(Next(w, TakeRefresh), Arm))
    {
      refreshRequests := false;
      var delay := RefreshDebounceDelay(now);
      debounce := Some(now + delay);
    }

    /** Discards every signal already merged into the window. */
    method DrainRefreshRequests(ghost w: World) returns (ghost drained: World)
      requires Shows(w) && w.phase.Draining?
      modifies this`refreshRequests
      ensures drained == DrainedFrom(w) && Shows(drained)
    {
      drained := w;
      while refreshRequests
        invariant Shows(drained) && drained.phase.Draining?
        invariant drained == w || (w.token && drained == Next(w, DrainOne) && !drained.token)
        decreases refreshRequests
      {
        refreshRequests := false;
        drained := Next(drained, DrainOne);
      }
      drained := Next(drained, DrainEnd);
    }

    /** The timer branch: waits on if a request has come since, else commits to synchronize. */
    method FireDebounce(now: int, ghost w: World) returns (sync: bool, ghost decided: World)
      requires Shows(w) && w.now == now && Enabled(w, Fire)
      modifies this`refreshRequests, this`debounce
      ensures Shows(decided) && decided.phase == (if sync then Starting else Selecting)
      ensures decided == Next(DrainedFrom(Next(w, Fire)), Decide)
    {
      hide DrainedFrom;
      debounce := None;
      ghost var drained := DrainRefreshRequests(Next(w, Fire));
      var delay := RefreshDebounceDelay(now);
      decided := Next(drained, Decide);
      if delay > 0 {
        debounce := Some(now + delay);
        return false, decided;
      }
      sync := true;
    }
  }
}
