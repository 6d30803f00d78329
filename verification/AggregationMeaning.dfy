/**
 What the aggregated tables mean, said of the committed events' own fields: in any reachable state for the
 events up to a table's cursor, and once the runner waits for all of them.
 */
module AggregationMeaning {
  import opened AggregationSafety
  import opened AggregationStore
  import opened LatencyMeaning
  import opened UsageRows
  import opened UsageRowsMeaning
  import ActivityGrain
  import AggregationRunner
  import LatencyTable

  /** The events up to a cursor are those with ids up to it. */
  lemma UpToMeaning(events: seq<Event>, cursor: int, e: Event)
    requires AscendingIds(events)
    ensures e in UpTo(events, cursor) <==> e in events && e.id <= cursor
  {
    hide AscendingIds, Position;
    PositionSplits(events, cursor);
    if e in events && e.id <= cursor {
      var i :| 0 <= i < |events| && events[i] == e;
      assert UpTo(events, cursor)[i] == e;
    }
  }

  /** Where an event stands decides whether it is on the page. */
  lemma OnPage(events: seq<Event>, cursor: int, target: int, e: Event)
    requires AscendingIds(events)
    ensures e in Page(events, cursor, target) <==>
      exists i :: Position(events, cursor) <= i < Position(events, cursor) + |Page(events, cursor, target)|
                  && i < Position(events, target) && events[i] == e
  {
    hide AscendingIds, Position;
    var from, page := Position(events, cursor), Page(events, cursor, target);
    if e in page {
      var i :| 0 <= i < |page| && page[i] == e;
      assert events[from + i] == e;
    }
    if i :| from <= i < from + |page| && i < Position(events, target) && events[i] == e {
      assert page[i - from] == e;
    }
  }

  /** A page holds the lowest ids behind the cursor and up to the target: all of them, or a thousand. */
  lemma PageMeaning(events: seq<Event>, cursor: int, target: int, e: Event)
    requires AscendingIds(events)
    ensures var page := Page(events, cursor, target);
      && |page| <= 1000
      && (e in page ==> e in events && cursor < e.id <= target)
      && (e in events && cursor < e.id <= target && e !in page ==>
            |page| == 1000 && forall f | f in page :: f.id < e.id)
  {
    hide AscendingIds, Position, Page;
    PositionSplits(events, cursor);
    PositionSplits(events, target);
    OnPage(events, cursor, target, e);
    PageSize(events, cursor, target);
    if e in events && cursor < e.id <= target && e !in Page(events, cursor, target) {
      var i :| 0 <= i < |events| && events[i] == e;
      forall f | f in Page(events, cursor, target) ensures f.id < e.id {
        OnPage(events, cursor, target, f);
        AscendingPairs(events);
      }
    }
  }

  lemma PageSize(events: seq<Event>, cursor: int, target: int)
    ensures var from, to, n := Position(events, cursor), Position(events, target), |Page(events, cursor, target)|;
      n <= 1000 && (n < 1000 ==> to <= from + n)
  {
    hide Position;
  }

  /** A page of identities: at most 25, the lowest ids behind the cursor, and fewer only at the end. */
  lemma IdentityPageMeaning(ids: set<int>, after: int, page: set<int>, batch: AggregationRunner.IdentityBatch, id: int)
    requires AggregationRunner.PageOf(ids, after, page, batch)
    ensures |page| <= 25 && (batch.reachedEnd <==> |page| < 25)
    ensures id in page <==> id in ids && after < id && (batch.reachedEnd || id <= batch.last)
    ensures batch.last == after || batch.last in page
  {
  }

  /** Every hourly and daily row counts the events of its bucket and dimensions up to the cursor. */
  lemma OverviewMeaning(s: Store, k: OverviewKey)
    requires Exact(s)
    ensures var events := UpTo(s.events, s.overviewCursor);
      && (k in s.hourly <==> NumberOf(events, InHour(k)) > 0)
      && (k in s.hourly ==> CountsRequests(s.hourly[k], events, InHour(k)))
      && (k in s.daily <==> NumberOf(events, InDay(s.calendar, k)) > 0)
      && (k in s.daily ==> CountsRequests(s.daily[k], events, InDay(s.calendar, k)))
  {
    hide UpTo, Hourly, Daily, CountsRequests, NumberOf, InHour, InDay, ActivityGrain.ValidCalendar, AscendingIds,
      ActivityExact, LatencyExact;
    HourlyMeaning(UpTo(s.events, s.overviewCursor), k);
    DailyMeaning(s.calendar, UpTo(s.events, s.overviewCursor), k);
  }

  /** The permanent activity rows count the events of their day and group up to the cursor. */
  lemma DailyActivityMeaning(c: ActivityGrain.Calendar, events: seq<Event>, k: ActivityKey)
    requires ActivityGrain.ValidCalendar(c) && k.grain.Daily?
    ensures k in DailyActivity(c, events) <==> NumberOf(events, InActivity(c, 0, k)) > 0
    ensures k in DailyActivity(c, events) ==> CountsActivity(DailyActivity(c, events)[k], events, InActivity(c, 0, k))
  {
    hide Activity, DailyActivity, CountsActivity, NumberOf, InActivity, ActivityGrain.ValidCalendar;
    DailyActivityAnyTime(c, 0, events);
    ActivityMeaning(c, 0, events, k);
    assert k in DailyPart(Activity(c, 0, events)) <==> k in Activity(c, 0, events);
  }

  lemma StoredActivityMeaning(s: Store, k: ActivityKey)
    requires Exact(s) && k.grain.Daily?
    ensures var events := UpTo(s.events, s.activityCursor);
      && (k in s.activity <==> NumberOf(events, InActivity(s.calendar, 0, k)) > 0)
      && (k in s.activity ==> CountsActivity(s.activity[k], events, InActivity(s.calendar, 0, k)))
  {
    hide UpTo, DailyActivity, CountsActivity, NumberOf, InActivity, ActivityGrain.ValidCalendar, AscendingIds,
      OverviewExact, LatencyExact;
    DailyActivityMeaning(s.calendar, UpTo(s.events, s.activityCursor), k);
    assert k in DailyPart(s.activity) <==> k in s.activity;
  }

  /** Latency rows summarize the measured events of their period and group, if no page was too late for them. */
  lemma StoredLatencyMeaning(s: Store, key: LatencyTable.LatencyKey)
    requires Exact(s) && forall i | 0 <= i < |s.latencyPages| :: StillBuilt(s.calendar, key, s.latencyPages[i].now)
    ensures var events := UpTo(s.events, s.latencyCursor);
      && (key in s.latencyTable <==> NumberOf(events, Measured(s.calendar, key)) > 0)
      && (key in s.latencyTable ==> Summarizes(s.latencyTable[key], events, Measured(s.calendar, key)))
  {
    hide UpTo, NumberOf, Measured, Summarizes, ActivityGrain.ValidCalendar, AscendingIds, OverviewExact, ActivityExact,
      LatencyTable.Holds, LatencyTable.Numbered, StillBuilt;
    AscendingPairs(s.events);
    NumberedPrefix(s.events, s.latencyCursor);
    TableMeaning(s.calendar, s.latencyPages, s.latencyTable, key);
  }

  lemma NumberedPrefix(events: seq<Event>, cursor: int)
    requires forall i | 0 <= i < |events| :: events[i].id > 0
    requires forall i, j | 0 <= i < j < |events| :: events[i].id < events[j].id
    ensures LatencyTable.Numbered(UpTo(events, cursor))
  {
  }

  /** Every table says of all committed events what it means to say. */
  ghost predicate TablesMean(s: Store)
    requires ActivityGrain.ValidCalendar(s.calendar)
  {
    && (forall k :: k in s.hourly <==> NumberOf(s.events, InHour(k)) > 0)
    && (forall k | k in s.hourly :: CountsRequests(s.hourly[k], s.events, InHour(k)))
    && (forall k :: k in s.daily <==> NumberOf(s.events, InDay(s.calendar, k)) > 0)
    && (forall k | k in s.daily :: CountsRequests(s.daily[k], s.events, InDay(s.calendar, k)))
    && (forall k: ActivityKey | k.grain.Daily? ::
          k in s.activity <==> NumberOf(s.events, InActivity(s.calendar, 0, k)) > 0)
    && (forall k | k in s.activity && k.grain.Daily? ::
          CountsActivity(s.activity[k], s.events, InActivity(s.calendar, 0, k)))
    && (forall key | InTime(s, key) :: key in s.latencyTable <==> NumberOf(s.events, Measured(s.calendar, key)) > 0)
    && (forall key | InTime(s, key) && key in s.latencyTable ::
          Summarizes(s.latencyTable[key], s.events, Measured(s.calendar, key)))
  }

  /** No page was built too late for the period. */
  ghost predicate InTime(s: Store, key: LatencyTable.LatencyKey) {
    forall i | 0 <= i < |s.latencyPages| :: StillBuilt(s.calendar, key, s.latencyPages[i].now)
  }

  /** With every committed event notified, a runner that waits leaves tables that say this of all events. */
  lemma WaitingMeaning(w: World, actions: seq<Action>)
    requires Initial(w) && Possible(w, actions) && AggregationSafety.Waiting(After(w, actions))
    requires Ids(After(w, actions).store.events) <= After(w, actions).owed
    ensures ActivityGrain.ValidCalendar(After(w, actions).store.calendar) && TablesMean(After(w, actions).store)
  {
    hide Initial, Possible, After, AggregationSafety.Waiting, Ids, TablesMean, ActivityGrain.ValidCalendar, Hourly,
      Daily, DailyActivity, DailyPart, LatencyTable.Holds, LatencyTable.AllEvents, Exact;
    var s := After(w, actions).store;
    WaitingTables(w, actions);
    assert LatencyTable.Numbered(s.events) by { ExactNow(w, actions); ExactAscending(s); }
    TablesOfAll(s);
  }

  lemma ExactNow(w: World, actions: seq<Action>)
    requires Initial(w) && Possible(w, actions)
    ensures Exact(After(w, actions).store)
  {
    hide Initial, Possible, After, Exact;
    Safety(w, actions);
  }

  lemma ExactAscending(s: Store)
    requires Exact(s)
    ensures LatencyTable.Numbered(s.events)
  {
    AscendingPairs(s.events);
  }

  lemma TablesOfAll(s: Store)
    requires ActivityGrain.ValidCalendar(s.calendar) && LatencyTable.Numbered(s.events)
    requires s.hourly == Hourly(s.events) && s.daily == Daily(s.calendar, s.events)
    requires DailyPart(s.activity) == DailyActivity(s.calendar, s.events)
    requires LatencyTable.AllEvents(s.latencyPages) == s.events
    requires LatencyTable.Holds(s.calendar, s.latencyPages, s.latencyTable)
    ensures TablesMean(s)
  {
    hide ActivityGrain.ValidCalendar, LatencyTable.Numbered, Hourly, Daily, DailyActivity, NumberOf, InHour, InDay,
      InActivity, Measured, Summarizes, CountsRequests, CountsActivity, LatencyTable.Holds, LatencyTable.AllEvents,
      StillBuilt;
    forall k ensures k in s.hourly <==> NumberOf(s.events, InHour(k)) > 0
             ensures k in s.hourly ==> CountsRequests(s.hourly[k], s.events, InHour(k)) {
      HourlyMeaning(s.events, k);
    }
    forall k ensures k in s.daily <==> NumberOf(s.events, InDay(s.calendar, k)) > 0
             ensures k in s.daily ==> CountsRequests(s.daily[k], s.events, InDay(s.calendar, k)) {
      DailyMeaning(s.calendar, s.events, k);
    }
    forall k: ActivityKey | k.grain.Daily?
      ensures k in s.activity <==> NumberOf(s.events, InActivity(s.calendar, 0, k)) > 0
      ensures k in s.activity ==> CountsActivity(s.activity[k], s.events, InActivity(s.calendar, 0, k)) {
      DailyActivityMeaning(s.calendar, s.events, k);
      assert k in DailyPart(s.activity) <==> k in s.activity;
    }
    forall key | InTime(s, key)
      ensures key in s.latencyTable <==> NumberOf(s.events, Measured(s.calendar, key)) > 0
      ensures key in s.latencyTable ==> Summarizes(s.latencyTable[key], s.events, Measured(s.calendar, key)) {
      TableMeaning(s.calendar, s.latencyPages, s.latencyTable, key);
    }
  }
}
