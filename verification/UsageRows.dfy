/**
 The sparse rows that usage events are folded into: overview rows per hour and local day, activity rows
 per grain. A table of rows is a map from the row's unique key to its counters.
 */
module UsageRows {
  import opened Wrappers
  import opened UsageDimensions
  import ActivityGrain
  import Sorting
  import Text

  datatype Event = Event(
    id: Int64,
    timestamp: int,
    apiGroupKey: string,
    model: string,
    authIndex: string,
    modelAlias: Option<string>,
    serviceTier: string,
    responseServiceTier: string,
    reasoningEffort: string,
    endpoint: string,
    executorType: string,
    failed: bool,
    inputTokens: int,
    outputTokens: int,
    reasoningTokens: int,
    cachedTokens: int,
    cacheReadTokens: int,
    cacheCreationTokens: int,
    totalTokens: int,
    generate: Option<bool>,
    ttft: Option<Int64>,
    latency: Int64)

  datatype Counters = Counters(
    requests: int,
    successes: int,
    failures: int,
    input: int,
    output: int,
    reasoning: int,
    cached: int,
    cacheRead: int,
    cacheCreation: int,
    total: int)

  const ZERO := Counters(0, 0, 0, 0, 0, 0, 0, 0, 0, 0)

  function Plus(a: Counters, b: Counters): Counters {
    Counters(a.requests + b.requests, a.successes + b.successes, a.failures + b.failures, a.input + b.input,
             a.output + b.output, a.reasoning + b.reasoning, a.cached + b.cached, a.cacheRead + b.cacheRead,
             a.cacheCreation + b.cacheCreation, a.total + b.total)
  }

  /** What one event adds to an overview row. */
  function OverviewWeight(e: Event): Counters {
    Counters(1, if e.failed then 0 else 1, if e.failed then 1 else 0, e.inputTokens, e.outputTokens,
             e.reasoningTokens, e.cachedTokens, e.cacheReadTokens, e.cacheCreationTokens, e.totalTokens)
  }

  /** Activity rows keep neither a request count nor cached tokens. */
  function ActivityWeight(e: Event): Counters {
    OverviewWeight(e).(requests := 0, cached := 0)
  }

  // ----- tables -----

  type Table<!K> = map<K, Counters>

  function Bump<K>(t: Table<K>, key: K, weight: Counters): Table<K> {
    t[key := Plus(if key in t then t[key] else ZERO, weight)]
  }

  function BumpAll<K>(t: Table<K>, keys: seq<K>, weight: Counters): Table<K> {
    if keys == [] then t else Bump(BumpAll(t, keys[..|keys| - 1], weight), keys[|keys| - 1], weight)
  }

  /** The fold of a list of events: each adds its weight under each of its keys. */
  function Tally<K>(events: seq<Event>, keys: Event -> seq<K>, weigh: Event -> Counters): Table<K> {
    if events == [] then map[]
    else
      var last := events[|events| - 1];
      BumpAll(Tally(events[..|events| - 1], keys, weigh), keys(last), weigh(last))
  }

  /** Adding one table onto another, as the store's upsert does. */
  function Join<K>(t: Table<K>, u: Table<K>): Table<K> {
    map k | k in t.Keys + u.Keys ::
      if k in t && k in u then Plus(t[k], u[k]) else if k in t then t[k] else u[k]
  }

  lemma PlusAssociates(a: Counters, b: Counters, c: Counters)
    ensures Plus(Plus(a, b), c) == Plus(a, Plus(b, c))
    ensures Plus(ZERO, c) == c
  {
  }

  lemma BumpJoin<K(!new)>(t: Table<K>, u: Table<K>, key: K, weight: Counters)
    ensures Bump(Join(t, u), key, weight) == Join(t, Bump(u, key, weight))
  {
    var left := Bump(Join(t, u), key, weight);
    var right := Join(t, Bump(u, key, weight));
    assert left.Keys == right.Keys;
    forall k | k in left ensures left[k] == right[k] {
      if k == key {
        PlusAssociates(if k in t then t[k] else ZERO, if k in u then u[k] else ZERO, weight);
        PlusAssociates(ZERO, ZERO, weight);
      }
    }
  }

  lemma {:induction false} BumpAllJoin<K(!new)>(t: Table<K>, u: Table<K>, keys: seq<K>, weight: Counters)
    ensures BumpAll(Join(t, u), keys, weight) == Join(t, BumpAll(u, keys, weight))
  {
    if keys != [] {
      BumpAllJoin(t, u, keys[..|keys| - 1], weight);
      BumpJoin(t, BumpAll(u, keys[..|keys| - 1], weight), keys[|keys| - 1], weight);
    }
  }

  /** Folding two stretches of events separately and joining is folding them in one pass. */
  lemma {:induction false} TallyConcat<K(!new)>(a: seq<Event>, b: seq<Event>, keys: Event -> seq<K>,
      weigh: Event -> Counters)
    ensures Tally(a + b, keys, weigh) == Join(Tally(a, keys, weigh), Tally(b, keys, weigh))
  {
    if b == [] {
      assert a + b == a;
    } else {
      var n := |b| - 1;
      assert (a + b)[..|a + b| - 1] == a + b[..n];
      TallyConcat(a, b[..n], keys, weigh);
      BumpAllJoin(Tally(a, keys, weigh), Tally(b[..n], keys, weigh), keys(b[n]), weigh(b[n]));
    }
  }

  // ----- rows -----

  datatype Row<K> = Row(key: K, counters: Counters)

  function AddRows<K>(stored: Table<K>, rows: seq<Row<K>>): Table<K> {
    if rows == [] then stored
    else Bump(AddRows(stored, rows[..|rows| - 1]), rows[|rows| - 1].key, rows[|rows| - 1].counters)
  }

  ghost predicate Lists<K(!new)>(rows: seq<Row<K>>, t: Table<K>, less: (K, K) -> bool) {
    && (forall i, j | 0 <= i < j < |rows| :: less(rows[i].key, rows[j].key))
    && (forall i | 0 <= i < |rows| :: rows[i].key in t && rows[i].counters == t[rows[i].key])
    && (forall k | k in t :: exists i :: 0 <= i < |rows| && rows[i].key == k)
  }

  ghost predicate HasKey<K(!new)>(rows: seq<Row<K>>, k: K) {
    exists i :: 0 <= i < |rows| && rows[i].key == k
  }

  /** Appending the next row of a listing leaves the counters of every other key alone. */
  lemma {:induction false} AddRowsElsewhere<K(!new)>(stored: Table<K>, rows: seq<Row<K>>, k: K)
    requires !HasKey(rows, k)
    ensures var r := AddRows(stored, rows); (k in r <==> k in stored) && (k in r ==> r[k] == stored[k])
  {
    if rows != [] {
      var n := |rows| - 1;
      assert rows[n].key != k;
      forall i | 0 <= i < n ensures rows[..n][i].key != k { assert rows[i].key != k; }
      AddRowsElsewhere(stored, rows[..n], k);
    }
  }

  lemma {:induction false} AddRowsAt<K(!new)>(stored: Table<K>, rows: seq<Row<K>>, less: (K, K) -> bool, i: nat)
    requires Sorting.StrictTotalOrder(less) && i < |rows|
    requires forall i, j | 0 <= i < j < |rows| :: less(rows[i].key, rows[j].key)
    ensures var r := AddRows(stored, rows);
      var k := rows[i].key;
      k in r && r[k] == Plus(if k in stored then stored[k] else ZERO, rows[i].counters)
  {
    var n := |rows| - 1;
    var k := rows[i].key;
    if i < n {
      AddRowsAt(stored, rows[..n], less, i);
      assert less(k, rows[n].key);
    } else {
      forall j | 0 <= j < n ensures rows[..n][j].key != k { assert less(rows[j].key, k); }
      AddRowsElsewhere(stored, rows[..n], k);
    }
  }

  /** Writing the listing of a table onto the store joins the table to it. */
  lemma AddListed<K(!new)>(stored: Table<K>, rows: seq<Row<K>>, t: Table<K>, less: (K, K) -> bool)
    requires Sorting.StrictTotalOrder(less) && Lists(rows, t, less)
    ensures AddRows(stored, rows) == Join(stored, t)
  {
    hide AddRows, Lists, Sorting.StrictTotalOrder;
    var r := AddRows(stored, rows);
    var joined := Join(stored, t);
    forall k ensures k in r <==> k in joined {
      AddListedAt(stored, rows, t, less, k);
    }
    forall k | k in r ensures r[k] == joined[k] {
      AddListedAt(stored, rows, t, less, k);
    }
  }

  lemma AddListedAt<K(!new)>(stored: Table<K>, rows: seq<Row<K>>, t: Table<K>, less: (K, K) -> bool, k: K)
    requires Sorting.StrictTotalOrder(less) && Lists(rows, t, less)
    ensures var r := AddRows(stored, rows);
      && (k in r <==> k in stored || k in t)
      && (k in r ==> r[k] == Join(stored, t)[k])
  {
    if k in t {
      var i :| 0 <= i < |rows| && rows[i].key == k;
      AddRowsAt(stored, rows, less, i);
      PlusAssociates(ZERO, ZERO, t[k]);
    } else {
      forall i | 0 <= i < |rows| ensures rows[i].key != k { assert rows[i].key in t; }
      AddRowsElsewhere(stored, rows, k);
    }
  }

  /** Lists a table in key order, whatever order its map is read in. */
  method ListRows<K(!new, ==)>(t: Table<K>, less: (K, K) -> bool) returns (rows: seq<Row<K>>)
    requires Sorting.StrictTotalOrder(less)
    ensures Lists(rows, t, less)
  {
    hide Sorting.StrictTotalOrder, Lists;
    var sorted := Sorting.ListAscending(t.Keys, less);
    rows := [];
    for i := 0 to |sorted|
      invariant |rows| == i
      invariant forall j | 0 <= j < i :: sorted[j] in t && rows[j] == Row(sorted[j], t[sorted[j]])
    {
      assert sorted[i] in sorted;
      rows := rows + [Row(sorted[i], t[sorted[i]])];
    }
    ListedInOrder(t, sorted, rows, less);
  }

  lemma ListedInOrder<K(!new)>(t: Table<K>, sorted: seq<K>, rows: seq<Row<K>>, less: (K, K) -> bool)
    requires Sorting.StrictlySorted(sorted, less) && (forall k :: k in sorted <==> k in t) && |rows| == |sorted|
    requires forall j | 0 <= j < |sorted| :: sorted[j] in t && rows[j] == Row(sorted[j], t[sorted[j]])
    ensures Lists(rows, t, less)
  {
    forall k | k in t ensures exists i :: 0 <= i < |rows| && rows[i].key == k {
      var i :| 0 <= i < |sorted| && sorted[i] == k;
      assert rows[i].key == k;
    }
  }

  // ----- overview -----

  datatype OverviewKey = OverviewKey(bucketStart: int, dimensions: Dimensions)

  function DimensionsOf(e: Event): Dimensions {
    Canonical(Dimensions(e.apiGroupKey, e.model, e.authIndex, if e.modelAlias.Some? then e.modelAlias.value else "",
                         e.serviceTier, e.responseServiceTier, e.reasoningEffort, e.endpoint, e.executorType))
  }

  const HOUR := 3600 * ActivityGrain.SECOND
  /** The zero instant that `Truncate` counts hours from lies a whole number of hours before the epoch. */
  function HourStart(t: int): int {
    t - t % HOUR
  }

  function DayStart(c: ActivityGrain.Calendar, t: int): int {
    c.midnight(c.dayOf(ActivityGrain.Unix(t))) * ActivityGrain.SECOND
  }

  function HourKey(e: Event): OverviewKey {
    OverviewKey(HourStart(e.timestamp), DimensionsOf(e))
  }

  function DayKey(c: ActivityGrain.Calendar, e: Event): OverviewKey {
    OverviewKey(DayStart(c, e.timestamp), DimensionsOf(e))
  }

  function HourKeys(): Event -> seq<OverviewKey> {
    e => [HourKey(e)]
  }

  function DayKeys(c: ActivityGrain.Calendar): Event -> seq<OverviewKey> {
    e => [DayKey(c, e)]
  }

  function Hourly(events: seq<Event>): Table<OverviewKey> {
    Tally(events, HourKeys(), OverviewWeight)
  }

  function Daily(c: ActivityGrain.Calendar, events: seq<Event>): Table<OverviewKey> {
    Tally(events, DayKeys(c), OverviewWeight)
  }

  function MaxId(events: seq<Event>): int {
    if events == [] then 0
    else
      var m := MaxId(events[..|events| - 1]);
      if events[|events| - 1].id > m then events[|events| - 1].id else m
  }

  predicate ValuesLess(a: seq<string>, b: seq<string>)
    requires |a| == |b|
  {
    a != [] && (if a[0] != b[0] then Text.Less(a[0], b[0]) else ValuesLess(a[1..], b[1..]))
  }

  predicate OverviewLess(a: OverviewKey, b: OverviewKey) {
    if a.bucketStart != b.bucketStart then a.bucketStart < b.bucketStart
    else ValuesLess(a.dimensions.Values(), b.dimensions.Values())
  }

  lemma {:induction false} ValuesTotal(a: seq<string>, b: seq<string>)
    requires |a| == |b|
    ensures ValuesLess(a, b) || a == b || ValuesLess(b, a)
    ensures !ValuesLess(a, a)
  {
    if a != [] {
      Text.LessTotal(a[0], b[0]);
      ValuesTotal(a[1..], b[1..]);
      assert a == [a[0]] + a[1..] && b == [b[0]] + b[1..];
    }
  }

  lemma {:induction false} ValuesTransitive(a: seq<string>, b: seq<string>, c: seq<string>)
    requires |a| == |b| == |c| && ValuesLess(a, b) && ValuesLess(b, c)
    ensures ValuesLess(a, c)
  {
    if a[0] == b[0] && b[0] == c[0] {
      ValuesTransitive(a[1..], b[1..], c[1..]);
    } else if a[0] != b[0] && b[0] != c[0] {
      Text.LessTransitive(a[0], b[0], c[0]);
      Text.LessTotal(a[0], b[0]);
    }
  }

  lemma OverviewOrder()
    ensures Sorting.StrictTotalOrder(OverviewLess)
  {
    forall a: OverviewKey, b: OverviewKey
      ensures !OverviewLess(a, a) && (OverviewLess(a, b) || a == b || OverviewLess(b, a))
    {
      ValuesTotal(a.dimensions.Values(), b.dimensions.Values());
      ValuesTotal(a.dimensions.Values(), a.dimensions.Values());
      if a.dimensions.Values() == b.dimensions.Values() { SameValues(a.dimensions, b.dimensions); }
    }
    forall a, b, c | OverviewLess(a, b) && OverviewLess(b, c) ensures OverviewLess(a, c) {
      if a.bucketStart == b.bucketStart == c.bucketStart {
        ValuesTransitive(a.dimensions.Values(), b.dimensions.Values(), c.dimensions.Values());
      }
    }
  }

  lemma SameValues(a: Dimensions, b: Dimensions)
    requires a.Values() == b.Values()
    ensures a == b
  {
    assert forall i | 0 <= i < 9 :: a.Values()[i] == b.Values()[i];
    assert a.Values()[0] == a.apiGroupKey && a.Values()[1] == a.model && a.Values()[2] == a.authIndex;
    assert a.Values()[3] == a.modelAlias && a.Values()[4] == a.serviceTier && a.Values()[5] == a.responseServiceTier;
    assert a.Values()[6] == a.reasoningEffort && a.Values()[7] == a.endpoint && a.Values()[8] == a.executorType;
  }

  /** One pass over a page of events into hourly and daily rows, and the page's greatest id. */
  method BuildOverviewRows(c: ActivityGrain.Calendar, events: seq<Event>)
    returns (hourlyRows: seq<Row<OverviewKey>>, dailyRows: seq<Row<OverviewKey>>, maxEventId: int)
    ensures Lists(hourlyRows, Hourly(events), OverviewLess)
    ensures Lists(dailyRows, Daily(c, events), OverviewLess)
    ensures maxEventId == MaxId(events)
  {
    var hourly: Table<OverviewKey> := map[];
    var daily: Table<OverviewKey> := map[];
    maxEventId := 0;
    for i := 0 to |events|
      invariant hourly == Hourly(events[..i])
      invariant daily == Daily(c, events[..i])
      invariant maxEventId == MaxId(events[..i])
    {
      assert events[..i + 1][..i] == events[..i];
      var event := events[i];
      if event.id > maxEventId {
        maxEventId := event.id;
      }
      var hourKey := HourKey(event);
      var dayKey := DayKey(c, event);
      SingleKey(hourly, hourKey, OverviewWeight(event));
      SingleKey(daily, dayKey, OverviewWeight(event));
      hourly := hourly[hourKey := Plus(if hourKey in hourly then hourly[hourKey] else ZERO, OverviewWeight(event))];
      daily := daily[dayKey := Plus(if dayKey in daily then daily[dayKey] else ZERO, OverviewWeight(event))];
    }
    assert events[..|events|] == events;
    OverviewOrder();
    hourlyRows := ListRows(hourly, OverviewLess);
    dailyRows := ListRows(daily, OverviewLess);
  }

  lemma SingleKey<K>(t: Table<K>, key: K, weight: Counters)
    ensures BumpAll(t, [key], weight) == Bump(t, key, weight)
  {
    assert [key][..0] == [];
  }

  // ----- activity -----

  datatype ActivityKey = ActivityKey(grain: ActivityGrain.Grain, bucketStart: int, apiGroupKey: string)

  const GRAINS: seq<ActivityGrain.Grain> := [ActivityGrain.Short, ActivityGrain.Medium, ActivityGrain.Long,
    ActivityGrain.Daily]

  const DAY := 24 * HOUR

  /** How far back each grain is kept; daily rows are kept for good. */
  function Retention(grain: ActivityGrain.Grain): Option<int> {
    match grain
    case Short => Some(3 * DAY)
    case Medium => Some(8 * DAY)
    case Long => Some(31 * DAY)
    case _ => None
  }

  predicate Retained(grain: ActivityGrain.Grain, timestamp: int, now: int) {
    Retention(grain).None? || timestamp >= now - Retention(grain).value
  }

  ghost function GrainKeys(c: ActivityGrain.Calendar, now: int, e: Event,
      grains: seq<ActivityGrain.Grain>): seq<ActivityKey>
    requires ActivityGrain.ValidCalendar(c) && ActivityGrain.Unsupported !in grains
  {
    if grains == [] then []
    else
      var rest := GrainKeys(c, now, e, grains[..|grains| - 1]);
      var grain := grains[|grains| - 1];
      if Retained(grain, e.timestamp, now) then
        rest + [ActivityKey(grain, ActivityGrain.BucketOf(c, grain, e.timestamp).value.start,
          Text.Required(e.apiGroupKey))]
      else rest
  }

  ghost function ActivityKeys(c: ActivityGrain.Calendar, now: int): Event -> seq<ActivityKey>
    requires ActivityGrain.ValidCalendar(c)
  {
    e => GrainKeys(c, now, e, GRAINS)
  }

  ghost function Activity(c: ActivityGrain.Calendar, now: int, events: seq<Event>): Table<ActivityKey>
    requires ActivityGrain.ValidCalendar(c)
  {
    Tally(events, ActivityKeys(c, now), ActivityWeight)
  }

  /** The permanent rows: one key per event, whatever the time of the run. */
  function DailyActivityKey(c: ActivityGrain.Calendar, e: Event): ActivityKey {
    ActivityKey(ActivityGrain.Daily, DayStart(c, e.timestamp), Text.Required(e.apiGroupKey))
  }

  function DailyActivityKeys(c: ActivityGrain.Calendar): Event -> seq<ActivityKey> {
    e => [DailyActivityKey(c, e)]
  }

  function DailyActivity(c: ActivityGrain.Calendar, events: seq<Event>): Table<ActivityKey> {
    Tally(events, DailyActivityKeys(c), ActivityWeight)
  }

  function DailyPart(t: Table<ActivityKey>): Table<ActivityKey> {
    map k | k in t && k.grain.Daily? :: t[k]
  }

  lemma DailyPartJoin(t: Table<ActivityKey>, u: Table<ActivityKey>)
    ensures DailyPart(Join(t, u)) == Join(DailyPart(t), DailyPart(u))
  {
  }

  function Dailies(keys: seq<ActivityKey>): seq<ActivityKey> {
    Sorting.Filter(keys, IsDaily())
  }

  function IsDaily(): ActivityKey -> bool {
    (k: ActivityKey) => k.grain.Daily?
  }

  lemma DailyPartBump(t: Table<ActivityKey>, key: ActivityKey, weight: Counters)
    ensures DailyPart(Bump(t, key, weight)) == if key.grain.Daily? then Bump(DailyPart(t), key, weight)
      else DailyPart(t)
  {
    var left := DailyPart(Bump(t, key, weight));
    var right := if key.grain.Daily? then Bump(DailyPart(t), key, weight) else DailyPart(t);
    assert left.Keys == right.Keys;
  }

  lemma {:induction false} DailyPartBumpAll(t: Table<ActivityKey>, keys: seq<ActivityKey>, weight: Counters)
    ensures DailyPart(BumpAll(t, keys, weight)) == BumpAll(DailyPart(t), Dailies(keys), weight)
  {
    if keys != [] {
      var n := |keys| - 1;
      DailyPartBumpAll(t, keys[..n], weight);
      DailyPartBump(BumpAll(t, keys[..n], weight), keys[n], weight);
      Sorting.FilterAppend(keys[..n], [keys[n]], IsDaily());
      assert keys == keys[..n] + [keys[n]];
      assert [keys[n]][1..] == [];
      var d := Dailies(keys[..n]);
      if keys[n].grain.Daily? {
        assert Dailies(keys) == d + [keys[n]];
        assert (d + [keys[n]])[..|d|] == d;
      } else {
        assert Dailies(keys) == d + [] == d;
      }
    }
  }

  lemma GrainKeysDaily(c: ActivityGrain.Calendar, now: int, e: Event)
    requires ActivityGrain.ValidCalendar(c)
    ensures Dailies(GrainKeys(c, now, e, GRAINS)) == [DailyActivityKey(c, e)]
  {
    var g := GRAINS;
    var daily := DailyActivityKey(c, e);
    assert g[..3] == [ActivityGrain.Short, ActivityGrain.Medium, ActivityGrain.Long];
    var others := GrainKeys(c, now, e, g[..3]);
    NoDailies(c, now, e, g[..3]);
    assert GrainKeys(c, now, e, g) == others + [daily];
    Sorting.FilterAppend(others, [daily], IsDaily());
    assert [daily][1..] == [];
    NoneSelected(others);
  }

  lemma {:induction false} NoDailies(c: ActivityGrain.Calendar, now: int, e: Event, grains: seq<ActivityGrain.Grain>)
    requires ActivityGrain.ValidCalendar(c) && ActivityGrain.Unsupported !in grains && ActivityGrain.Daily !in grains
    ensures forall k | k in GrainKeys(c, now, e, grains) :: !k.grain.Daily?
  {
    if grains != [] {
      assert grains[|grains| - 1] in grains;
      NoDailies(c, now, e, grains[..|grains| - 1]);
    }
  }

  lemma {:induction false} NoneSelected(keys: seq<ActivityKey>)
    requires forall k | k in keys :: !k.grain.Daily?
    ensures Dailies(keys) == []
  {
    if keys != [] {
      NoneSelected(keys[1..]);
    }
  }

  /** The permanent part of a page's activity rows does not depend on when the page is built. */
  lemma {:induction false} DailyActivityAnyTime(c: ActivityGrain.Calendar, now: int, events: seq<Event>)
    requires ActivityGrain.ValidCalendar(c)
    ensures DailyPart(Activity(c, now, events)) == DailyActivity(c, events)
  {
    if events != [] {
      var n := |events| - 1;
      DailyActivityAnyTime(c, now, events[..n]);
      DailyPartBumpAll(Activity(c, now, events[..n]), ActivityKeys(c, now)(events[n]), ActivityWeight(events[n]));
      GrainKeysDaily(c, now, events[n]);
    }
  }

  /** Row order: grains by their names, then time, then group. */
  function GrainName(grain: ActivityGrain.Grain): string {
    match grain
    case Short => "short"
    case Medium => "medium"
    case Long => "long"
    case Daily => "daily"
    case Unsupported => ""
  }

  predicate ActivityLess(a: ActivityKey, b: ActivityKey) {
    if a.grain != b.grain then Text.Less(GrainName(a.grain), GrainName(b.grain))
    else if a.bucketStart != b.bucketStart then a.bucketStart < b.bucketStart
    else Text.Less(a.apiGroupKey, b.apiGroupKey)
  }

  lemma GrainsNamed(g: ActivityGrain.Grain, h: ActivityGrain.Grain)
    ensures GrainName(g) == GrainName(h) <==> g == h
  {
    assert |GrainName(g)| != |GrainName(h)| || GrainName(g) == "" || GrainName(g)[0] != GrainName(h)[0] || g == h;
  }

  lemma ActivityOrder()
    ensures Sorting.StrictTotalOrder(ActivityLess)
  {
    hide GrainName;
    forall a: ActivityKey, b: ActivityKey
      ensures !ActivityLess(a, a) && (ActivityLess(a, b) || a == b || ActivityLess(b, a))
    {
      GrainsNamed(a.grain, b.grain);
      Text.LessTotal(GrainName(a.grain), GrainName(b.grain));
      Text.LessTotal(a.apiGroupKey, b.apiGroupKey);
      Text.LessTotal(a.apiGroupKey, a.apiGroupKey);
    }
    forall a, b, c | ActivityLess(a, b) && ActivityLess(b, c) ensures ActivityLess(a, c) {
      ActivityTransitive(a, b, c);
    }
  }

  lemma ActivityTransitive(a: ActivityKey, b: ActivityKey, c: ActivityKey)
    requires ActivityLess(a, b) && ActivityLess(b, c)
    ensures ActivityLess(a, c)
  {
    hide GrainName;
    if a.grain != b.grain && b.grain != c.grain {
      Text.LessTransitive(GrainName(a.grain), GrainName(b.grain), GrainName(c.grain));
      Text.LessTotal(GrainName(a.grain), GrainName(b.grain));
    }
    if Text.Less(a.apiGroupKey, b.apiGroupKey) && Text.Less(b.apiGroupKey, c.apiGroupKey) {
      Text.LessTransitive(a.apiGroupKey, b.apiGroupKey, c.apiGroupKey);
    }
  }

  /** Where every row's bucket ends, recorded when the row is first needed. */
  ghost predicate EndsKnown(c: ActivityGrain.Calendar, rows: Table<ActivityKey>, ends: map<ActivityKey, int>)
    requires ActivityGrain.ValidCalendar(c)
  {
    ends.Keys == rows.Keys && forall k | k in ends :: EndIs(c, k, ends[k])
  }

  ghost predicate EndIs(c: ActivityGrain.Calendar, k: ActivityKey, end: int)
    requires ActivityGrain.ValidCalendar(c)
  {
    ActivityGrain.BucketOf(c, k.grain, k.bucketStart) == Some(ActivityGrain.Bucket(k.bucketStart, end))
  }

  /** One page of events into the activity rows of all four grains, in row order, each with the end of its bucket. */
  method BuildActivityRows(c: ActivityGrain.Calendar, now: int, events: seq<Event>)
      returns (rows: seq<Row<ActivityKey>>, ends: map<ActivityKey, int>)
    requires ActivityGrain.ValidCalendar(c)
    ensures Lists(rows, Activity(c, now, events), ActivityLess)
    ensures EndsKnown(c, Activity(c, now, events), ends)
  {
    hide EndIs, ActivityGrain.ValidCalendar;
    var table: Table<ActivityKey> := map[];
    ends := map[];
    for i := 0 to |events|
      invariant table == Activity(c, now, events[..i]) && EndsKnown(c, table, ends)
    {
      assert events[..i + 1][..i] == events[..i];
      table, ends := AddActivity(c, now, events[i], table, ends);
    }
    assert events[..|events|] == events;
    ActivityOrder();
    rows := ListRows(table, ActivityLess);
  }

  lemma GrainKeysNext(c: ActivityGrain.Calendar, now: int, e: Event, grains: seq<ActivityGrain.Grain>,
      grain: ActivityGrain.Grain, before: Table<ActivityKey>)
    requires ActivityGrain.ValidCalendar(c) && ActivityGrain.Unsupported !in grains && !grain.Unsupported?
    ensures BumpAll(before, GrainKeys(c, now, e, grains + [grain]), ActivityWeight(e))
            == var rows := BumpAll(before, GrainKeys(c, now, e, grains), ActivityWeight(e));
               if Retained(grain, e.timestamp, now)
               then Bump(rows, ActivityKey(grain, ActivityGrain.BucketOf(c, grain, e.timestamp).value.start,
                 Text.Required(e.apiGroupKey)), ActivityWeight(e))
               else rows
  {
    assert (grains + [grain])[..|grains|] == grains;
    var keys := GrainKeys(c, now, e, grains);
    if Retained(grain, e.timestamp, now) {
      var key := ActivityKey(grain, ActivityGrain.BucketOf(c, grain, e.timestamp).value.start,
        Text.Required(e.apiGroupKey));
      assert (keys + [key])[..|keys|] == keys;
    }
  }

  /** One event under each grain that still retains it. */
  method AddActivity(c: ActivityGrain.Calendar, now: int, event: Event, before: Table<ActivityKey>,
      endsBefore: map<ActivityKey, int>)
    returns (rows: Table<ActivityKey>, ends: map<ActivityKey, int>)
    requires ActivityGrain.ValidCalendar(c) && EndsKnown(c, before, endsBefore)
    ensures rows == BumpAll(before, ActivityKeys(c, now)(event), ActivityWeight(event)) && EndsKnown(c, rows, ends)
  {
    hide ActivityGrain.BucketOf, ActivityGrain.ValidCalendar, ActivityGrain.Holds, BumpAll, EndIs;
    rows, ends := before, endsBefore;
    var grains := GRAINS;
    var apiGroupKey := Text.Required(event.apiGroupKey);
    GrainKeysNone(c, now, event, before);
    for g := 0 to |grains|
      invariant ActivityGrain.Unsupported !in grains
      invariant rows == BumpAll(before, GrainKeys(c, now, event, grains[..g]), ActivityWeight(event))
      invariant EndsKnown(c, rows, ends)
    {
      var grain := grains[g];
      assert grains[..g + 1] == grains[..g] + [grain];
      assert grain in grains;
      GrainKeysNext(c, now, event, grains[..g], grain, before);
      if Retention(grain).Some? && event.timestamp < now - Retention(grain).value {
        continue;
      }
      var bucket := ActivityGrain.BucketForTimestamp(c, grain, event.timestamp);
      var key := ActivityKey(grain, bucket.value.start, apiGroupKey);
      EndFound(c, grain, event.timestamp, apiGroupKey);
      if key !in rows {
        ends := ends[key := bucket.value.end];
        rows := rows[key := Plus(ZERO, ActivityWeight(event))];
      } else {
        rows := rows[key := Plus(rows[key], ActivityWeight(event))];
      }
    }
    assert grains[..|grains|] == GRAINS;
  }

  lemma EndFound(c: ActivityGrain.Calendar, grain: ActivityGrain.Grain, timestamp: int, apiGroupKey: string)
    requires ActivityGrain.ValidCalendar(c) && !grain.Unsupported?
    ensures var b := ActivityGrain.BucketOf(c, grain, timestamp).value; EndIs(c,
      ActivityKey(grain, b.start, apiGroupKey), b.end)
  {
    ActivityGrain.BucketOwns(c, grain, timestamp, timestamp);
  }

  lemma GrainKeysNone(c: ActivityGrain.Calendar, now: int, e: Event, before: Table<ActivityKey>)
    requires ActivityGrain.ValidCalendar(c)
    ensures BumpAll(before, GrainKeys(c, now, e, []), ActivityWeight(e)) == before
  {
  }
}
