/**
 The database side of usage aggregation: events in id order, three cursors, and the row tables that the
 cursors stand for. Page loads and page writes behave as the repository promises
 (internal/repository/usage_aggregation_page.go:34-65, internal/repository/usage_overview_stats.go:105-119):
 a page holds the lowest ids of a range, a write adds its rows and moves one cursor together or not at all.
 */
module AggregationStore {
  import opened UsageRows
  import ActivityGrain
  import LatencyRows
  import LatencyTable

  const EVENT_PAGE_SIZE := 1000

  datatype Store = Store(
    calendar: ActivityGrain.Calendar,
    events: seq<Event>,
    overviewCursor: int,
    activityCursor: int,
    latencyCursor: int,
    hourly: Table<OverviewKey>,
    daily: Table<OverviewKey>,
    activity: Table<ActivityKey>,
    latencyTable: LatencyTable.Rows,
    latencyPages: seq<LatencyTable.Page>)

  ghost predicate AscendingIds(events: seq<Event>) {
    events == [] ||
    (var n := |events| - 1;
     && AscendingIds(events[..n])
     && events[n].id > 0
     && (n > 0 ==> events[n - 1].id < events[n].id))
  }

  lemma {:induction false} AscendingPairs(events: seq<Event>)
    requires AscendingIds(events)
    ensures forall i | 0 <= i < |events| :: events[i].id > 0
    ensures forall i, j | 0 <= i < j < |events| :: events[i].id < events[j].id
  {
    if events != [] {
      var n := |events| - 1;
      AscendingPairs(events[..n]);
      forall i | 0 <= i < n ensures 0 < events[i].id < events[n].id {
        assert events[..n][i] == events[i];
        assert i < n - 1 ==> events[..n][i].id < events[..n][n - 1].id;
      }
      forall i, j | 0 <= i < j < |events| ensures events[i].id < events[j].id {
        assert j < n ==> events[..n][i].id < events[..n][j].id;
      }
    }
  }

  lemma {:induction false} PairsAscending(events: seq<Event>)
    requires forall i | 0 <= i < |events| :: events[i].id > 0
    requires forall i, j | 0 <= i < j < |events| :: events[i].id < events[j].id
    ensures AscendingIds(events)
  {
    if events != [] {
      PairsAscending(events[..|events| - 1]);
    }
  }

  /** How many events lie at or below a cursor. */
  function Position(events: seq<Event>, cursor: int): (n: nat)
    ensures n <= |events|
  {
    if events == [] then 0
    else if events[|events| - 1].id <= cursor then |events|
    else Position(events[..|events| - 1], cursor)
  }

  function UpTo(events: seq<Event>, cursor: int): seq<Event> {
    events[..Position(events, cursor)]
  }

  /** The page query: the lowest ids in (cursor, target], at most a thousand. */
  function Page(events: seq<Event>, cursor: int, target: int): seq<Event> {
    var from, to := Position(events, cursor), Position(events, target);
    if to <= from then [] else if to - from <= EVENT_PAGE_SIZE then events[from..to]
      else events[from..from + EVENT_PAGE_SIZE]
  }

  lemma {:induction false} PositionSplits(events: seq<Event>, cursor: int)
    requires AscendingIds(events)
    ensures forall i | 0 <= i < |events| :: events[i].id <= cursor <==> i < Position(events, cursor)
  {
    AscendingPairs(events);
    if events != [] && events[|events| - 1].id > cursor {
      PositionSplits(events[..|events| - 1], cursor);
    }
  }

  lemma SliceAscending(events: seq<Event>, from: nat, to: nat)
    requires AscendingIds(events) && from <= to <= |events|
    ensures AscendingIds(events[from..to])
  {
    AscendingPairs(events);
    var s := events[from..to];
    forall i | 0 <= i < |s| ensures s[i] == events[from + i] {}
    PairsAscending(s);
  }

  /** A cursor set to the id of an event stands right behind that event. */
  lemma PositionOfId(events: seq<Event>, i: nat)
    requires AscendingIds(events) && i < |events|
    ensures Position(events, events[i].id) == i + 1
  {
    AscendingPairs(events);
    PositionSplits(events, events[i].id);
  }

  /** `page` is what follows the cursor, and `next` is where the cursor stands after it. */
  ghost predicate Continues(events: seq<Event>, cursor: int, page: seq<Event>, next: int) {
    && page != [] && events != []
    && UpTo(events, next) == UpTo(events, cursor) + page
    && cursor < next <= events[|events| - 1].id
    && MaxId(page) == page[|page| - 1].id == next
  }

  lemma IdBeyond(events: seq<Event>, cursor: int, i: nat)
    requires AscendingIds(events) && Position(events, cursor) <= i < |events|
    ensures cursor < events[i].id <= events[|events| - 1].id
  {
    PositionSplits(events, cursor);
    AscendingPairs(events);
  }

  lemma SliceContinues(events: seq<Event>, cursor: int, to: nat, page: seq<Event>)
    requires AscendingIds(events) && Position(events, cursor) < to <= |events|
    requires page == events[Position(events, cursor)..to]
    ensures Continues(events, cursor, page, events[to - 1].id)
  {
    hide AscendingIds, MaxId;
    var from := Position(events, cursor);
    assert page[|page| - 1] == events[to - 1];
    SliceAscending(events, from, to);
    MaxIdLast(page);
    IdBeyond(events, cursor, to - 1);
    PositionOfId(events, to - 1);
    assert events[..to] == events[..from] + page;
  }

  /** A non-empty page continues exactly where the cursor stands, up to the target at most. */
  lemma PageContinues(events: seq<Event>, cursor: int, target: int)
    requires AscendingIds(events) && Page(events, cursor, target) != []
    ensures var page := Page(events, cursor, target);
      Continues(events, cursor, page, MaxId(page)) && cursor < MaxId(page) <= target
  {
    var from := Position(events, cursor);
    var to := from + |Page(events, cursor, target)|;
    assert Page(events, cursor, target) == events[from..to];
    SliceContinues(events, cursor, to, events[from..to]);
    PositionSplits(events, target);
  }

  lemma {:induction false} MaxIdLast(page: seq<Event>)
    requires AscendingIds(page) && page != []
    ensures MaxId(page) == page[|page| - 1].id
  {
    AscendingPairs(page);
    var rest := page[..|page| - 1];
    if rest != [] {
      MaxIdLast(rest);
      assert rest[|rest| - 1].id < page[|page| - 1].id;
    }
  }

  ghost predicate OverviewExact(c: ActivityGrain.Calendar, events: seq<Event>, cursor: int,
      hourly: Table<OverviewKey>, daily: Table<OverviewKey>) {
    hourly == Hourly(UpTo(events, cursor)) && daily == Daily(c, UpTo(events, cursor))
  }

  ghost predicate ActivityExact(c: ActivityGrain.Calendar, events: seq<Event>, cursor: int,
      activity: Table<ActivityKey>) {
    DailyPart(activity) == DailyActivity(c, UpTo(events, cursor))
  }

  /** The pages merged so far are the events up to the cursor, and the table holds the rows of all of them. */
  ghost predicate LatencyExact(c: ActivityGrain.Calendar, events: seq<Event>, cursor: int, table: LatencyTable.Rows,
                               pages: seq<LatencyTable.Page>) {
    LatencyTable.AllEvents(pages) == UpTo(events, cursor) && LatencyTable.Holds(c, pages, table)
  }

  /** Every table is what one pass over the events up to its own cursor would build. */
  ghost predicate Exact(s: Store) {
    && ActivityGrain.ValidCalendar(s.calendar)
    && AscendingIds(s.events)
    && OverviewExact(s.calendar, s.events, s.overviewCursor, s.hourly, s.daily)
    && ActivityExact(s.calendar, s.events, s.activityCursor, s.activity)
    && LatencyExact(s.calendar, s.events, s.latencyCursor, s.latencyTable, s.latencyPages)
  }

  ghost predicate Bounded(s: Store) {
    && 0 <= s.overviewCursor && 0 <= s.activityCursor && 0 <= s.latencyCursor
    && (s.overviewCursor > 0 || s.activityCursor > 0 || s.latencyCursor > 0 ==> s.events != [])
    && (s.events != [] ==> var last := s.events[|s.events| - 1].id;
          s.overviewCursor <= last && s.activityCursor <= last && s.latencyCursor <= last)
  }

  predicate CaughtUp(s: Store, target: int) {
    s.overviewCursor >= target && s.activityCursor >= target && s.latencyCursor >= target
  }

  /** A cursor after a turn: where it was, or at the end of the page that starts there. */
  ghost predicate Moved(events: seq<Event>, before: int, after: int, target: int) {
    after == before || (before < target && Page(events, before, target) != []
      && after == MaxId(Page(events, before, target)))
  }

  datatype TurnResult = TurnResult(processed: bool, deferred: bool, reached: bool, failed: bool)

  /** How far a rollup turn moves the cursors, whatever fails in it. */
  ghost predicate Progress(s: Store, s': Store, target: int, r: TurnResult) {
    && Moved(s.events, s.overviewCursor, s'.overviewCursor, target)
    && Moved(s.events, s.activityCursor, s'.activityCursor, target)
    && Moved(s.events, s.latencyCursor, s'.latencyCursor, target)
    && (r.processed <==>
      s'.overviewCursor != s.overviewCursor || s'.activityCursor != s.activityCursor
      || s'.latencyCursor != s.latencyCursor)
    && (r.reached ==> !r.deferred && CaughtUp(s', target))
    && (!r.failed && !r.deferred && CaughtUp(s', target) ==> r.reached)
    && (!r.failed && !r.deferred ==> Advanced(s.overviewCursor, s'.overviewCursor, target)
                                     && Advanced(s.activityCursor, s'.activityCursor, target)
                                     && Advanced(s.latencyCursor, s'.latencyCursor, target))
  }

  /** What any rollup turn does to the store. */
  ghost predicate TurnContract(s: Store, s': Store, target: int, r: TurnResult) {
    && s'.calendar == s.calendar && s'.events == s.events
    && Exact(s') && Bounded(s')
    && Progress(s, s', target, r)
  }

  /** A turn that neither failed nor stepped aside moves every cursor that lags. */
  predicate Advanced(before: int, after: int, target: int) {
    before < target ==> before < after
  }

  lemma CursorsNeverRetreat(s: Store, s': Store, target: int, r: TurnResult)
    requires Exact(s) && TurnContract(s, s', target, r)
    ensures s.overviewCursor <= s'.overviewCursor && s.activityCursor <= s'.activityCursor
      && s.latencyCursor <= s'.latencyCursor
  {
    MoveForward(s.events, s.overviewCursor, s'.overviewCursor, target);
    MoveForward(s.events, s.activityCursor, s'.activityCursor, target);
    MoveForward(s.events, s.latencyCursor, s'.latencyCursor, target);
  }

  lemma MoveForward(events: seq<Event>, before: int, after: int, target: int)
    requires AscendingIds(events) && Moved(events, before, after, target)
    ensures before <= after
  {
    if after != before { PageContinues(events, before, target); }
  }

  /** Committing events with fresh higher ids leaves every table exact for its cursor. */
  lemma CommitKeepsExact(s: Store, e: Event)
    requires Exact(s) && Bounded(s) && e.id > 0
    requires s.events != [] ==> s.events[|s.events| - 1].id < e.id
    ensures Exact(s.(events := s.events + [e])) && Bounded(s.(events := s.events + [e]))
  {
    hide UpTo, Hourly, Daily, DailyActivity, DailyPart, ActivityGrain.ValidCalendar;
    UpToBefore(s.events, e, s.overviewCursor);
    UpToBefore(s.events, e, s.activityCursor);
    UpToBefore(s.events, e, s.latencyCursor);
  }

  lemma UpToBefore(events: seq<Event>, e: Event, cursor: int)
    requires cursor < e.id
    ensures UpTo(events + [e], cursor) == UpTo(events, cursor)
  {
    assert (events + [e])[..|events|] == events;
    assert (events + [e])[..Position(events, cursor)] == events[..Position(events, cursor)];
  }

  // ----- page writes -----

  lemma OverviewPageExact(c: ActivityGrain.Calendar, events: seq<Event>, cursor: int, page: seq<Event>, next: int,
                          hourly: Table<OverviewKey>, daily: Table<OverviewKey>,
                          hourlyRows: seq<Row<OverviewKey>>, dailyRows: seq<Row<OverviewKey>>)
    requires Continues(events, cursor, page, next) && OverviewExact(c, events, cursor, hourly, daily)
    requires Lists(hourlyRows, Hourly(page), OverviewLess) && Lists(dailyRows, Daily(c, page), OverviewLess)
    ensures OverviewExact(c, events, next, AddRows(hourly, hourlyRows), AddRows(daily, dailyRows))
  {
    OverviewOrder();
    AddListed(hourly, hourlyRows, Hourly(page), OverviewLess);
    AddListed(daily, dailyRows, Daily(c, page), OverviewLess);
    TallyConcat(UpTo(events, cursor), page, HourKeys(), OverviewWeight);
    TallyConcat(UpTo(events, cursor), page, DayKeys(c), OverviewWeight);
  }

  lemma ActivityPageExact(c: ActivityGrain.Calendar, events: seq<Event>, cursor: int, page: seq<Event>, next: int,
                          now: int, activity: Table<ActivityKey>, rows: seq<Row<ActivityKey>>)
    requires ActivityGrain.ValidCalendar(c) && Lists(rows, Activity(c, now, page), ActivityLess)
    requires Continues(events, cursor, page, next) && ActivityExact(c, events, cursor, activity)
    ensures ActivityExact(c, events, next, AddRows(activity, rows))
  {
    ActivityOrder();
    AddListed(activity, rows, Activity(c, now, page), ActivityLess);
    DailyActivityAnyTime(c, now, page);
    DailyPartJoin(activity, Activity(c, now, page));
    TallyConcat(UpTo(events, cursor), page, DailyActivityKeys(c), ActivityWeight);
  }

  lemma NothingMerged(c: ActivityGrain.Calendar)
    ensures LatencyTable.AllEvents([]) == [] && LatencyTable.Holds(c, [], map[])
  {
  }

  lemma {:induction false} AscendingNumbered(events: seq<Event>)
    requires AscendingIds(events)
    ensures LatencyTable.Numbered(events)
  {
    AscendingPairs(events);
  }

  /** What has been merged and the next page are numbered, alone and together. */
  lemma PageNumbered(events: seq<Event>, cursor: int, page: seq<Event>, next: int)
    requires AscendingIds(events) && Continues(events, cursor, page, next)
    ensures LatencyTable.Numbered(page) && LatencyTable.Numbered(UpTo(events, cursor) + page)
  {
    hide AscendingIds;
    var all := UpTo(events, next);
    AscendingNumbered(events);
    forall i | 0 <= i < |all| ensures all[i] == events[i] {}
    forall i | 0 <= i < |page| ensures page[i] == all[|UpTo(events, cursor)| + i] {}
  }

  lemma LatencyPageExact(c: ActivityGrain.Calendar, events: seq<Event>, cursor: int, page: seq<Event>, next: int,
      now: int,
                         table: LatencyTable.Rows, pages: seq<LatencyTable.Page>, merged: LatencyTable.Rows)
    requires Continues(events, cursor, page, next) && LatencyExact(c, events, cursor, table, pages)
    requires LatencyTable.Holds(c, pages + [LatencyTable.Page(page, now)], merged)
    ensures LatencyExact(c, events, next, merged, pages + [LatencyTable.Page(page, now)])
  {
    hide LatencyTable.Holds;
    LatencyTable.AllEventsNext(pages, LatencyTable.Page(page, now));
  }

  /**
   Of every bucket that no page was too late for, the table holds, byte for byte, the row of all its samples
   up to the cursor, and no row if there are none.
   */
  lemma LatencyRowExact(s: Store, key: LatencyTable.LatencyKey)
    requires Exact(s) && forall i | 0 <= i < |s.latencyPages| ::
      LatencyTable.Retained(s.calendar, s.latencyPages[i].now, key)
    ensures var samples := LatencyTable.RequestsOf(s.calendar, key, UpTo(s.events, s.latencyCursor));
      && (key in s.latencyTable <==> samples != [])
      && (key in s.latencyTable ==> LatencyRows.IsRow(s.latencyTable[key], samples))
  {
    hide LatencyTable.Contents, LatencyTable.RequestsOf, LatencyTable.Retained, AscendingIds, OverviewExact,
      ActivityExact;
    LatencyTable.RetainedThroughout(s.calendar, key, s.latencyPages);
    assert LatencyTable.HoldsAt(s.calendar, s.latencyPages, s.latencyTable, key);
  }

  /** What the inbox check answers: nothing waiting, work waiting, or an error. */
  datatype Inbox = Clear | Waiting | Unreadable

  /** The environment's answers during one turn, in the order the turn asks for them. */
  datatype Answers = Answers(
    snapshotOk: bool,
    sharedLoadOk: bool,
    overviewLoadOk: bool,
    activityLoadOk: bool,
    latencyLoadOk: bool,
    activityBuildOk: bool,
    latencyBuildOk: bool,
    overviewInbox: Inbox,
    activityInbox: Inbox,
    latencyInbox: Inbox,
    overviewApplyOk: bool,
    activityApplyOk: bool,
    latencyApplyOk: bool)

  /** The store and every inbox check answer, and nothing waits. */
  predicate AllClear(a: Answers) {
    && a.snapshotOk && a.sharedLoadOk && a.overviewLoadOk && a.activityLoadOk && a.latencyLoadOk
    && a.overviewInbox.Clear? && a.activityInbox.Clear? && a.latencyInbox.Clear?
  }

  predicate SomethingFails(a: Answers) {
    || !a.snapshotOk || !a.sharedLoadOk || !a.overviewLoadOk || !a.activityLoadOk || !a.latencyLoadOk
    || !a.activityBuildOk || !a.latencyBuildOk || !a.overviewApplyOk || !a.activityApplyOk || !a.latencyApplyOk
    || a.overviewInbox.Unreadable? || a.activityInbox.Unreadable? || a.latencyInbox.Unreadable?
  }

  /** Below the target there is a page for the cursor. */
  predicate Reachable(events: seq<Event>, cursor: int, target: int) {
    cursor < target ==> Page(events, cursor, target) != []
  }

  /** Where a table's cursor stands after a turn in which its own page could be built and written, or not. */
  predicate Lands(events: seq<Event>, before: int, after: int, target: int, written: bool) {
    if before < target && written
    then Page(events, before, target) != [] && after == MaxId(Page(events, before, target)) else after == before
  }

  /** With nothing in the way each table moves exactly if its own page is written, whatever becomes of the others. */
  predicate EachOnItsOwn(s: Store, s': Store, target: int, a: Answers, r: TurnResult) {
    && Lands(s.events, s.overviewCursor, s'.overviewCursor, target, a.overviewApplyOk)
    && Lands(s.events, s.activityCursor, s'.activityCursor, target, a.activityBuildOk && a.activityApplyOk)
    && Lands(s.events, s.latencyCursor, s'.latencyCursor, target, a.latencyBuildOk && a.latencyApplyOk)
    && !r.deferred
    && (r.failed <==>
      || (s.overviewCursor < target && !a.overviewApplyOk)
      || (s.activityCursor < target && !(a.activityBuildOk && a.activityApplyOk))
      || (s.latencyCursor < target && !(a.latencyBuildOk && a.latencyApplyOk)))
  }

  /** How a turn follows the environment's answers. */
  predicate Follows(s: Store, s': Store, target: int, a: Answers, r: TurnResult) {
    && (AllClear(a) && Reachable(s.events, s.overviewCursor, target) && Reachable(s.events, s.activityCursor, target)
          && Reachable(s.events, s.latencyCursor, target) ==>
        EachOnItsOwn(s, s', target, a, r))
    && (r.failed && Reachable(s.events, s.overviewCursor, target) && Reachable(s.events, s.activityCursor, target)
          && Reachable(s.events, s.latencyCursor, target) ==>
        SomethingFails(a))
    && (r.deferred ==> a.overviewInbox.Waiting? || a.activityInbox.Waiting? || a.latencyInbox.Waiting?)
    && (s'.overviewCursor != s.overviewCursor ==> a.overviewInbox.Clear? && a.overviewApplyOk)
    && (s'.activityCursor != s.activityCursor ==>
        a.activityInbox.Clear? && a.activityBuildOk && a.activityApplyOk)
    && (s'.latencyCursor != s.latencyCursor ==> a.latencyInbox.Clear? && a.latencyBuildOk && a.latencyApplyOk)
    && (s.overviewCursor < target && a.sharedLoadOk && a.overviewLoadOk && !a.overviewInbox.Clear?
          && Reachable(s.events, s.overviewCursor, target) ==>
        s'.overviewCursor == s.overviewCursor && s'.activityCursor == s.activityCursor
        && s'.latencyCursor == s.latencyCursor)
    && (s.activityCursor < target && a.sharedLoadOk && a.activityLoadOk && a.activityBuildOk
          && !a.activityInbox.Clear? && Reachable(s.events, s.activityCursor, target) ==>
        s'.activityCursor == s.activityCursor && s'.latencyCursor == s.latencyCursor)
  }

  // ----- what becomes of a turn, table after table -----

  predicate SharedLatencyOutcome(cursor: int, next: int, after: int, a: Answers, failed: bool, r: TurnResult) {
    var written := a.latencyBuildOk && a.latencyApplyOk;
    && after == (if a.latencyInbox.Clear? && written then next else cursor)
    && r.deferred == a.latencyInbox.Waiting?
    && r.failed == (failed || a.latencyInbox.Unreadable? || (a.latencyInbox.Clear? && !written))
  }

  predicate SharedActivityOutcome(cursor: int, next: int, activityAfter: int, latencyAfter: int, a: Answers,
      failed: bool, r: TurnResult) {
    var written := a.activityBuildOk && a.activityApplyOk;
    && (a.activityInbox.Clear? ==>
          && activityAfter == (if written then next else cursor)
          && SharedLatencyOutcome(cursor, next, latencyAfter, a, failed || !written, r))
    && (!a.activityInbox.Clear? ==>
          && activityAfter == latencyAfter == cursor && r.deferred == a.activityInbox.Waiting?
          && r.failed == (failed || a.activityInbox.Unreadable?))
  }

  predicate SharedOutcome(cursor: int, next: int, s': Store, a: Answers, r: TurnResult) {
    && (a.overviewInbox.Clear? ==>
          && s'.overviewCursor == (if a.overviewApplyOk then next else cursor)
          && SharedActivityOutcome(cursor, next, s'.activityCursor, s'.latencyCursor, a, !a.overviewApplyOk, r))
    && (!a.overviewInbox.Clear? ==>
          && s'.overviewCursor == s'.activityCursor == s'.latencyCursor == cursor
          && r.deferred == a.overviewInbox.Waiting? && r.failed == a.overviewInbox.Unreadable?)
  }

  /** A table's own page can be written as far as its inbox check. */
  predicate Asks(events: seq<Event>, cursor: int, target: int, ready: bool) {
    cursor < target && ready && Page(events, cursor, target) != []
  }

  predicate OwnLatencyOutcome(events: seq<Event>, before: int, after: int, target: int, a: Answers, failed: bool,
      r: TurnResult) {
    var asks := Asks(events, before, target, a.latencyLoadOk && a.latencyBuildOk);
    && (asks ==>
          && after ==
            (if a.latencyInbox.Clear? && a.latencyApplyOk then MaxId(Page(events, before, target)) else before)
          && r.deferred == a.latencyInbox.Waiting?
          && r.failed == (failed || a.latencyInbox.Unreadable? || (a.latencyInbox.Clear? && !a.latencyApplyOk)))
    && (!asks ==> after == before && !r.deferred && r.failed == (failed || before < target))
  }

  predicate OwnActivityOutcome(s: Store, s': Store, target: int, a: Answers, failed: bool, r: TurnResult) {
    var asks := Asks(s.events, s.activityCursor, target, a.activityLoadOk && a.activityBuildOk);
    && (!asks ==>
          && s'.activityCursor == s.activityCursor
          && OwnLatencyOutcome(s.events, s.latencyCursor, s'.latencyCursor, target, a,
                               failed || s.activityCursor < target, r))
    && (asks && a.activityInbox.Clear? ==>
          && s'.activityCursor ==
            (if a.activityApplyOk then MaxId(Page(s.events, s.activityCursor, target)) else s.activityCursor)
          && OwnLatencyOutcome(s.events, s.latencyCursor, s'.latencyCursor, target, a, failed || !a.activityApplyOk, r))
    && (asks && !a.activityInbox.Clear? ==>
          && s'.activityCursor == s.activityCursor && s'.latencyCursor == s.latencyCursor
          && r.deferred == a.activityInbox.Waiting? && r.failed == (failed || a.activityInbox.Unreadable?))
  }

  predicate OwnOutcome(s: Store, s': Store, target: int, a: Answers, r: TurnResult) {
    var asks := Asks(s.events, s.overviewCursor, target, a.overviewLoadOk);
    && (!asks ==>
          && s'.overviewCursor == s.overviewCursor
          && OwnActivityOutcome(s, s', target, a, s.overviewCursor < target, r))
    && (asks && a.overviewInbox.Clear? ==>
          && s'.overviewCursor ==
            (if a.overviewApplyOk then MaxId(Page(s.events, s.overviewCursor, target)) else s.overviewCursor)
          && OwnActivityOutcome(s, s', target, a, !a.overviewApplyOk, r))
    && (asks && !a.overviewInbox.Clear? ==>
          && s'.overviewCursor == s.overviewCursor && s'.activityCursor == s.activityCursor
          && s'.latencyCursor == s.latencyCursor
          && r.deferred == a.overviewInbox.Waiting? && r.failed == a.overviewInbox.Unreadable?)
  }

  predicate Processed(s: Store, s': Store, r: TurnResult) {
    r.processed == (s'.overviewCursor != s.overviewCursor || s'.activityCursor != s.activityCursor
                    || s'.latencyCursor != s.latencyCursor)
  }

  lemma SharedFollows(s: Store, s': Store, target: int, a: Answers, r: TurnResult)
    requires AscendingIds(s.events) && s.overviewCursor == s.activityCursor == s.latencyCursor < target
    requires a.sharedLoadOk && Page(s.events, s.overviewCursor, target) != []
    requires SharedOutcome(s.overviewCursor, MaxId(Page(s.events, s.overviewCursor, target)), s', a, r)
    requires Processed(s, s', r)
    requires r.reached == (!r.failed && !r.deferred && MaxId(Page(s.events, s.overviewCursor, target)) >= target)
    ensures Progress(s, s', target, r) && Follows(s, s', target, a, r)
  {
    hide AscendingIds, Page, MaxId, Continues;
    PageContinues(s.events, s.overviewCursor, target);
  }

  lemma OwnProgress(s: Store, s': Store, target: int, a: Answers, r: TurnResult)
    requires AscendingIds(s.events) && OwnOutcome(s, s', target, a, r) && Processed(s, s', r)
    requires r.reached ==> !r.deferred && CaughtUp(s', target)
    requires !r.deferred && CaughtUp(s', target) ==> r.reached
    ensures Progress(s, s', target, r)
  {
    hide AscendingIds, Page, MaxId, Continues;
    LandsAhead(s.events, s.overviewCursor, target);
    LandsAhead(s.events, s.activityCursor, target);
    LandsAhead(s.events, s.latencyCursor, target);
  }

  lemma LandsAhead(events: seq<Event>, cursor: int, target: int)
    requires AscendingIds(events)
    ensures Page(events, cursor, target) != [] ==> cursor < MaxId(Page(events, cursor, target)) <= target
  {
    if Page(events, cursor, target) != [] { PageContinues(events, cursor, target); }
  }

  lemma OwnFollows(s: Store, s': Store, target: int, a: Answers, r: TurnResult)
    requires OwnOutcome(s, s', target, a, r)
    ensures Follows(s, s', target, a, r)
  {
    hide Page, MaxId;
  }

  class RollupStore {
    const calendar: ActivityGrain.Calendar
    var events: seq<Event>
    var overviewCursor: int
    var activityCursor: int
    var latencyCursor: int
    var hourly: Table<OverviewKey>
    var daily: Table<OverviewKey>
    var activity: Table<ActivityKey>
    var latencyTable: LatencyTable.Rows
    ghost var latencyPages: seq<LatencyTable.Page>

    ghost function Snapshot(): Store
      reads this
    {
      Store(calendar, events, overviewCursor, activityCursor, latencyCursor, hourly, daily, activity, latencyTable,
        latencyPages)
    }

    ghost predicate Sound()
      reads this
    {
      Exact(Snapshot()) && Bounded(Snapshot())
    }

    constructor (calendar: ActivityGrain.Calendar)
      requires ActivityGrain.ValidCalendar(calendar)
      ensures Sound() && CaughtUp(Snapshot(), 0) && events == []
    {
      this.calendar := calendar;
      events := [];
      overviewCursor, activityCursor, latencyCursor := 0, 0, 0;
      hourly, daily, activity, latencyTable := map[], map[], map[], map[];
      latencyPages := [];
      new;
      NothingMerged(calendar);
    }

    method ApplyOverviewPage(expected: int, next: int, hourlyRows: seq<Row<OverviewKey>>,
        dailyRows: seq<Row<OverviewKey>>, ok: bool)
      returns (applied: bool)
      modifies this`overviewCursor, this`hourly, this`daily
      ensures applied == (ok && expected == old(overviewCursor))
      ensures Snapshot() == if applied then old(Snapshot()).(overviewCursor := next,
        hourly := AddRows(old(hourly), hourlyRows), daily := AddRows(old(daily), dailyRows)) else old(Snapshot())
    {
      applied := ok && expected == overviewCursor;
      if applied {
        hourly := AddRows(hourly, hourlyRows);
        daily := AddRows(daily, dailyRows);
        overviewCursor := next;
      }
    }

    method ApplyActivityPage(expected: int, next: int, rows: seq<Row<ActivityKey>>, ok: bool) returns (applied: bool)
      modifies this`activityCursor, this`activity
      ensures applied == (ok && expected == old(activityCursor))
      ensures Snapshot() == if applied then old(Snapshot()).(activityCursor := next,
        activity := AddRows(old(activity), rows)) else old(Snapshot())
    {
      applied := ok && expected == activityCursor;
      if applied {
        activity := AddRows(activity, rows);
        activityCursor := next;
      }
    }

    method ApplyLatencyPage(expected: int, next: int, table: LatencyTable.Rows, ghost page: LatencyTable.Page,
        ok: bool) returns (applied: bool)
      modifies this`latencyCursor, this`latencyTable, this`latencyPages
      ensures applied == (ok && expected == old(latencyCursor))
      ensures Snapshot() == if applied then old(Snapshot()).(latencyCursor := next, latencyTable := table,
        latencyPages := old(latencyPages) + [page])
                            else old(Snapshot())
    {
      applied := ok && expected == latencyCursor;
      if applied {
        latencyTable := table;
        latencyPages := latencyPages + [page];
        latencyCursor := next;
      }
    }

    /** Builds and writes one overview page; only this table and its cursor can change. */
    method OverviewPage(page: seq<Event>, cursor: int, ok: bool) returns (applied: bool)
      requires Sound() && cursor == overviewCursor && Continues(events, cursor, page, MaxId(page))
      modifies this`overviewCursor, this`hourly, this`daily
      ensures Sound() && applied == ok
      ensures overviewCursor == if applied then MaxId(page) else old(overviewCursor)
    {
      hide Tally, AscendingIds, OverviewExact, ActivityExact, LatencyExact, Page, MaxId;
      var hourlyRows, dailyRows, nextCursor := BuildOverviewRows(calendar, page);
      OverviewPageExact(calendar, events, cursor, page, nextCursor, hourly, daily, hourlyRows, dailyRows);
      applied := ApplyOverviewPage(cursor, nextCursor, hourlyRows, dailyRows, ok);
    }

    method ActivityPage(page: seq<Event>, cursor: int, now: int, ok: bool) returns (applied: bool)
      requires Sound() && cursor == activityCursor && Continues(events, cursor, page, MaxId(page))
      modifies this`activityCursor, this`activity
      ensures Sound() && applied == ok
      ensures activityCursor == if applied then MaxId(page) else old(activityCursor)
    {
      hide Tally, AscendingIds, OverviewExact, ActivityExact, LatencyExact, AddRows, Lists, Activity, EndsKnown;
      var rows, ends := BuildActivityRows(calendar, now, page);
      var nextCursor := page[|page| - 1].id;
      ActivityPageExact(calendar, events, cursor, page, nextCursor, now, activity, rows);
      applied := ApplyActivityPage(cursor, nextCursor, rows, ok);
    }

    /** Groups, encodes and merges one latency page; rows and cursor are written together. */
    method LatencyPage(page: seq<Event>, cursor: int, now: int, ok: bool) returns (applied: bool)
      requires Sound() && cursor == latencyCursor && Continues(events, cursor, page, MaxId(page))
      modifies this`latencyCursor, this`latencyTable, this`latencyPages
      ensures Sound() && applied == ok
      ensures latencyCursor == if applied then MaxId(page) else old(latencyCursor)
    {
      hide Tally, AscendingIds, OverviewExact, ActivityExact, Page, MaxId, LatencyTable.Holds;
      PageNumbered(events, cursor, page, MaxId(page));
      var rows := LatencyTable.BuildLatencyRows(calendar, page, now);
      ghost var built := LatencyTable.Page(page, now);
      var table := LatencyTable.MergePage(calendar, latencyPages, latencyTable, built, rows);
      LatencyPageExact(calendar, events, cursor, page, MaxId(page), now, latencyTable, latencyPages, table);
      var nextCursor := page[|page| - 1].id;
      applied := ApplyLatencyPage(cursor, nextCursor, table, built, ok);
    }

    /** The end of a shared page: the latency table, then the verdict on the whole turn. */
    method SharedLatency(page: seq<Event>, cursor: int, target: int, now: int, a: Answers, processedSoFar: bool,
        failedSoFar: bool) returns (r: TurnResult)
      requires Sound() && cursor == latencyCursor && Continues(events, cursor, page, MaxId(page))
      modifies this`latencyCursor, this`latencyTable, this`latencyPages
      ensures Sound()
      ensures SharedLatencyOutcome(cursor, MaxId(page), latencyCursor, a, failedSoFar, r)
      ensures r.processed == (processedSoFar || latencyCursor != cursor)
      ensures r.reached == (!r.failed && !r.deferred && MaxId(page) >= target)
    {
      hide Tally, AscendingIds, OverviewExact, ActivityExact, LatencyExact, Page, MaxId;
      if !a.latencyInbox.Clear? {
        return TurnResult(processedSoFar, a.latencyInbox.Waiting?, false, failedSoFar || a.latencyInbox.Unreadable?);
      }
      var processed, failed := processedSoFar, failedSoFar;
      if !a.latencyBuildOk {
        failed := true;
      } else {
        var applied := LatencyPage(page, cursor, now, a.latencyApplyOk);
        if applied { processed := true; } else { failed := true; }
      }
      if failed {
        return TurnResult(processed, false, false, true);
      }
      r := TurnResult(processed, false, MaxId(page) >= target, false);
    }

    /** The middle of a shared page: the activity table, then the rest. */
    method SharedActivity(page: seq<Event>, cursor: int, target: int, now: int, a: Answers, processedSoFar: bool,
        failedSoFar: bool) returns (r: TurnResult)
      requires Sound() && cursor == activityCursor == latencyCursor && Continues(events, cursor, page, MaxId(page))
      modifies this`activityCursor, this`activity, this`latencyCursor, this`latencyTable, this`latencyPages
      ensures Sound()
      ensures SharedActivityOutcome(cursor, MaxId(page), activityCursor, latencyCursor, a, failedSoFar, r)
      ensures r.processed == (processedSoFar || activityCursor != cursor || latencyCursor != cursor)
      ensures r.reached == (!r.failed && !r.deferred && MaxId(page) >= target)
    {
      hide Tally, AscendingIds, OverviewExact, ActivityExact, LatencyExact, Page, MaxId;
      if !a.activityInbox.Clear? {
        return TurnResult(processedSoFar, a.activityInbox.Waiting?, false, failedSoFar || a.activityInbox.Unreadable?);
      }
      var processed, failed := processedSoFar, failedSoFar;
      if !a.activityBuildOk {
        failed := true;
      } else {
        var applied := ActivityPage(page, cursor, now, a.activityApplyOk);
        if applied { processed := true; } else { failed := true; }
      }
      r := SharedLatency(page, cursor, target, now, a, processed, failed);
    }

    /** All three tables stand at one cursor: one page feeds them all, each in its own transaction. */
    method RunSharedRollupsPage(cursor: int, target: int, now: int, a: Answers) returns (r: TurnResult)
      requires Sound() && cursor == overviewCursor == activityCursor == latencyCursor < target
      modifies this
      ensures Sound() && events == old(events)
      ensures Progress(old(Snapshot()), Snapshot(), target, r) && Follows(old(Snapshot()), Snapshot(), target, a, r)
    {
      hide Tally, AscendingIds, OverviewExact, ActivityExact, LatencyExact, Continues, Page, MaxId;
      if !a.sharedLoadOk {
        return TurnResult(false, false, false, true);
      }
      var page := Page(events, cursor, target);
      if |page| == 0 {
        return TurnResult(false, false, false, true);
      }
      PageContinues(events, cursor, target);
      ghost var before := Snapshot();
      r := SharedOverview(page, cursor, target, now, a);
      SharedFollows(before, Snapshot(), target, a, r);
    }

    method SharedOverview(page: seq<Event>, cursor: int, target: int, now: int, a: Answers) returns (r: TurnResult)
      requires Sound() && cursor == overviewCursor == activityCursor == latencyCursor
      requires Continues(events, cursor, page, MaxId(page))
      modifies this`overviewCursor, this`hourly, this`daily, this`activityCursor, this`activity, this`latencyCursor,
        this`latencyTable, this`latencyPages
      ensures Sound()
      ensures SharedOutcome(cursor, MaxId(page), Snapshot(), a, r) && Processed(old(Snapshot()), Snapshot(), r)
      ensures r.reached == (!r.failed && !r.deferred && MaxId(page) >= target)
    {
      hide Tally, AscendingIds, OverviewExact, ActivityExact, LatencyExact, Page, MaxId;
      if !a.overviewInbox.Clear? {
        return TurnResult(false, a.overviewInbox.Waiting?, false, a.overviewInbox.Unreadable?);
      }
      var applied := OverviewPage(page, cursor, a.overviewApplyOk);
      r := SharedActivity(page, cursor, target, now, a, applied, !applied);
    }

    /** The tables stand apart: each loads and writes its own page. */
    method FallbackLatency(target: int, now: int, a: Answers, processedSoFar: bool, failedSoFar: bool)
        returns (r: TurnResult)
      requires Sound()
      modifies this`latencyCursor, this`latencyTable, this`latencyPages
      ensures Sound()
      ensures OwnLatencyOutcome(events, old(latencyCursor), latencyCursor, target, a, failedSoFar, r)
      ensures r.processed == (processedSoFar || latencyCursor != old(latencyCursor))
      ensures r.reached == (!r.deferred && CaughtUp(Snapshot(), target))
    {
      hide Tally, AscendingIds, OverviewExact, ActivityExact, LatencyExact, Page, MaxId;
      var processed, failed := processedSoFar, failedSoFar;
      if latencyCursor < target {
        var page := Page(events, latencyCursor, target);
        if !a.latencyLoadOk || |page| == 0 || !a.latencyBuildOk {
          failed := true;
        } else {
          if !a.latencyInbox.Clear? {
            return TurnResult(processed, a.latencyInbox.Waiting?, false, failed || a.latencyInbox.Unreadable?);
          }
          PageContinues(events, latencyCursor, target);
          var applied := LatencyPage(page, latencyCursor, now, a.latencyApplyOk);
          if applied { processed := true; } else { failed := true; }
        }
      }
      var reached := overviewCursor >= target && activityCursor >= target && latencyCursor >= target;
      r := TurnResult(processed, false, reached, failed);
    }

    method FallbackActivity(target: int, now: int, a: Answers, processedSoFar: bool, failedSoFar: bool)
        returns (r: TurnResult)
      requires Sound()
      modifies this`activityCursor, this`activity, this`latencyCursor, this`latencyTable, this`latencyPages
      ensures Sound()
      ensures OwnActivityOutcome(old(Snapshot()), Snapshot(), target, a, failedSoFar, r)
      ensures r.processed == (processedSoFar || activityCursor != old(activityCursor)
        || latencyCursor != old(latencyCursor))
      ensures r.reached ==> !r.deferred && CaughtUp(Snapshot(), target)
      ensures !r.deferred && CaughtUp(Snapshot(), target) ==> r.reached
    {
      hide Tally, AscendingIds, OverviewExact, ActivityExact, LatencyExact, Page, MaxId;
      var processed, failed := processedSoFar, failedSoFar;
      if activityCursor < target {
        var page := Page(events, activityCursor, target);
        if !a.activityLoadOk || |page| == 0 || !a.activityBuildOk {
          failed := true;
        } else {
          if !a.activityInbox.Clear? {
            return TurnResult(processed, a.activityInbox.Waiting?, false, failed || a.activityInbox.Unreadable?);
          }
          PageContinues(events, activityCursor, target);
          var applied := ActivityPage(page, activityCursor, now, a.activityApplyOk);
          if applied { processed := true; } else { failed := true; }
        }
      }
      r := FallbackLatency(target, now, a, processed, failed);
    }

    method RunFallbackRollupsPages(target: int, now: int, a: Answers) returns (r: TurnResult)
      requires Sound()
      modifies this
      ensures Sound() && events == old(events)
      ensures Progress(old(Snapshot()), Snapshot(), target, r) && Follows(old(Snapshot()), Snapshot(), target, a, r)
    {
      hide OwnOutcome, Progress, Follows, Processed;
      ghost var before := Snapshot();
      r := FallbackOverview(target, now, a);
      OwnProgress(before, Snapshot(), target, a, r);
      OwnFollows(before, Snapshot(), target, a, r);
    }

    method FallbackOverview(target: int, now: int, a: Answers) returns (r: TurnResult)
      requires Sound()
      modifies this`overviewCursor, this`hourly, this`daily, this`activityCursor, this`activity, this`latencyCursor,
        this`latencyTable, this`latencyPages
      ensures Sound()
      ensures OwnOutcome(old(Snapshot()), Snapshot(), target, a, r) && Processed(old(Snapshot()), Snapshot(), r)
      ensures r.reached ==> !r.deferred && CaughtUp(Snapshot(), target)
      ensures !r.deferred && CaughtUp(Snapshot(), target) ==> r.reached
    {
      hide Tally, AscendingIds, OverviewExact, ActivityExact, LatencyExact, Page, MaxId;
      var processed, failed := false, false;
      if overviewCursor < target {
        var page := Page(events, overviewCursor, target);
        if !a.overviewLoadOk || |page| == 0 {
          failed := true;
        } else {
          if !a.overviewInbox.Clear? {
            return TurnResult(processed, a.overviewInbox.Waiting?, false, a.overviewInbox.Unreadable?);
          }
          PageContinues(events, overviewCursor, target);
          var applied := OverviewPage(page, overviewCursor, a.overviewApplyOk);
          if applied { processed := true; } else { failed := true; }
        }
      }
      r := FallbackActivity(target, now, a, processed, failed);
    }

    method RunRollupsTurn(activeRound: bool, target: int, now: int, a: Answers) returns (r: TurnResult)
      requires Sound() && (!activeRound ==> target == 0)
      modifies this
      ensures Sound() && events == old(events)
      ensures Progress(old(Snapshot()), Snapshot(), target, r) && Follows(old(Snapshot()), Snapshot(), target, a, r)
    {
      if !activeRound {
        return TurnResult(false, false, true, false);
      }
      if !a.snapshotOk {
        return TurnResult(false, false, false, true);
      }
      if overviewCursor >= target && activityCursor >= target && latencyCursor >= target {
        return TurnResult(false, false, true, false);
      }
      if overviewCursor == activityCursor && activityCursor == latencyCursor {
        r := RunSharedRollupsPage(overviewCursor, target, now, a);
        return;
      }
      r := RunFallbackRollupsPages(target, now, a);
    }
  }
}
