/**
 What the counters of usage rows mean, said of the events' own fields: which events a row stands for, and that
 each of its counters is the number of them, or the sum of one of their fields.
 */
module UsageRowsMeaning {
  import opened UsageRows
  import opened UsageDimensions
  import opened Wrappers
  import ActivityGrain
  import Text

  // ----- counting and summing -----

  function NumberOf(events: seq<Event>, p: Event -> bool): nat {
    if events == [] then 0 else NumberOf(events[..|events| - 1], p) + if p(events[|events| - 1]) then 1 else 0
  }

  function SumOf(events: seq<Event>, p: Event -> bool, field: Event -> int): int {
    if events == [] then 0
    else SumOf(events[..|events| - 1], p, field) + if p(events[|events| - 1]) then field(events[|events| - 1]) else 0
  }

  function Both(p: Event -> bool, q: Event -> bool): Event -> bool {
    e => p(e) && q(e)
  }

  /** Every counter of an overview row, over the events that belong to it. */
  predicate CountsRequests(c: Counters, events: seq<Event>, p: Event -> bool) {
    && c.requests == NumberOf(events, p)
    && c.failures == NumberOf(events, Both(p, (e: Event) => e.failed))
    && c.successes == NumberOf(events, Both(p, (e: Event) => !e.failed))
    && c.input == SumOf(events, p, (e: Event) => e.inputTokens)
    && c.output == SumOf(events, p, (e: Event) => e.outputTokens)
    && c.reasoning == SumOf(events, p, (e: Event) => e.reasoningTokens)
    && c.cached == SumOf(events, p, (e: Event) => e.cachedTokens)
    && c.cacheRead == SumOf(events, p, (e: Event) => e.cacheReadTokens)
    && c.cacheCreation == SumOf(events, p, (e: Event) => e.cacheCreationTokens)
    && c.total == SumOf(events, p, (e: Event) => e.totalTokens)
  }

  /** The same of an activity row, which keeps neither a request count nor cached tokens. */
  predicate CountsActivity(c: Counters, events: seq<Event>, p: Event -> bool) {
    && c.requests == 0 && c.cached == 0
    && c.failures == NumberOf(events, Both(p, (e: Event) => e.failed))
    && c.successes == NumberOf(events, Both(p, (e: Event) => !e.failed))
    && c.input == SumOf(events, p, (e: Event) => e.inputTokens)
    && c.output == SumOf(events, p, (e: Event) => e.outputTokens)
    && c.reasoning == SumOf(events, p, (e: Event) => e.reasoningTokens)
    && c.cacheRead == SumOf(events, p, (e: Event) => e.cacheReadTokens)
    && c.cacheCreation == SumOf(events, p, (e: Event) => e.cacheCreationTokens)
    && c.total == SumOf(events, p, (e: Event) => e.totalTokens)
  }

  // ----- a fold is a count -----

  /** An event's keys hold a key once if it belongs to it, and else not at all. */
  ghost predicate Belonging<K(!new)>(keys: Event -> seq<K>, k: K, p: Event -> bool) {
    forall e :: multiset(keys(e))[k] == if p(e) then 1 else 0
  }

  lemma {:induction false} BumpAllAt<K(!new)>(t: Table<K>, keys: seq<K>, weight: Counters, k: K)
    requires multiset(keys)[k] <= 1
    ensures multiset(keys)[k] == 0 ==>
      (k in BumpAll(t, keys, weight) <==> k in t) && (k in t ==> BumpAll(t, keys, weight)[k] == t[k])
    ensures multiset(keys)[k] == 1 ==>
      k in BumpAll(t, keys, weight) && BumpAll(t, keys, weight)[k] == Plus(if k in t then t[k] else ZERO, weight)
  {
    hide Plus;
    if keys != [] {
      var n := |keys| - 1;
      assert keys == keys[..n] + [keys[n]];
      BumpAllAt(t, keys[..n], weight, k);
    }
  }

  lemma {:induction false} TallyAt<K(!new)>(events: seq<Event>, keys: Event -> seq<K>, weigh: Event -> Counters, k: K,
                                            p: Event -> bool)
    requires Belonging(keys, k, p)
    ensures k in Tally(events, keys, weigh) <==> NumberOf(events, p) > 0
    ensures k in Tally(events, keys, weigh) ==> Tally(events, keys, weigh)[k] == Weighed(events, weigh, p)
    ensures NumberOf(events, p) == 0 ==> Weighed(events, weigh, p) == ZERO
  {
    hide Plus, BumpAll;
    if events != [] {
      var n := |events| - 1;
      TallyAt(events[..n], keys, weigh, k, p);
      BumpAllAt(Tally(events[..n], keys, weigh), keys(events[n]), weigh(events[n]), k);
    }
  }

  /** The weights of the events that belong, added up. */
  function Weighed(events: seq<Event>, weigh: Event -> Counters, p: Event -> bool): Counters {
    if events == [] then ZERO
    else
      var before, last := Weighed(events[..|events| - 1], weigh, p), events[|events| - 1];
      if p(last) then Plus(before, weigh(last)) else before
  }

  lemma {:induction false} OverviewWeighed(events: seq<Event>, p: Event -> bool)
    ensures CountsRequests(Weighed(events, OverviewWeight, p), events, p)
  {
    if events != [] { OverviewWeighed(events[..|events| - 1], p); }
  }

  lemma {:induction false} ActivityWeighed(events: seq<Event>, p: Event -> bool)
    ensures CountsActivity(Weighed(events, ActivityWeight, p), events, p)
  {
    if events != [] { ActivityWeighed(events[..|events| - 1], p); }
  }

  // ----- overview -----

  /** A blank required value goes under one name; everything is trimmed. */
  function Named(value: string): string {
    if Text.TrimSpace(value) == "" then "unknown" else Text.TrimSpace(value)
  }

  predicate HasDimensions(e: Event, d: Dimensions) {
    && d.apiGroupKey == Named(e.apiGroupKey)
    && d.model == Named(e.model)
    && d.authIndex == Text.TrimSpace(e.authIndex)
    && d.modelAlias == (if e.modelAlias.Some? then Text.TrimSpace(e.modelAlias.value) else "")
    && d.serviceTier == Text.TrimSpace(e.serviceTier)
    && d.responseServiceTier == Text.TrimSpace(e.responseServiceTier)
    && d.reasoningEffort == Text.TrimSpace(e.reasoningEffort)
    && d.endpoint == Text.TrimSpace(e.endpoint)
    && d.executorType == Text.TrimSpace(e.executorType)
  }

  /** Hours are an hour apart, counted from the epoch. */
  function InHour(k: OverviewKey): Event -> bool {
    (e: Event) => k.bucketStart % 3_600_000_000_000 == 0
                  && k.bucketStart <= e.timestamp < k.bucketStart + 3_600_000_000_000 && HasDimensions(e, k.dimensions)
  }

  /** The local day of an event, from its midnight to the next. */
  ghost function InDay(c: ActivityGrain.Calendar, k: OverviewKey): Event -> bool {
    (e: Event) => OnDay(c, k.bucketStart, e.timestamp) && HasDimensions(e, k.dimensions)
  }

  ghost predicate OnDay(c: ActivityGrain.Calendar, start: int, timestamp: int) {
    exists d :: start == c.midnight(d) * 1_000_000_000 && start <= timestamp < c.midnight(d + 1) * 1_000_000_000
  }

  lemma DimensionsAre(e: Event, d: Dimensions)
    ensures DimensionsOf(e) == d <==> HasDimensions(e, d)
  {
    assert Text.TrimSpace("") == "";
  }

  lemma HourIs(start: int, t: int)
    ensures HourStart(t) == start <==> start % 3_600_000_000_000 == 0 && start <= t < start + 3_600_000_000_000
  {
    if start % 3_600_000_000_000 == 0 && start <= t < start + 3_600_000_000_000 {
      assert t == start + (t - start);
      assert t % 3_600_000_000_000 == t - start;
    }
  }

  lemma DayIs(c: ActivityGrain.Calendar, start: int, t: int)
    requires ActivityGrain.ValidCalendar(c)
    ensures DayStart(c, t) == start <==> OnDay(c, start, t)
  {
    ActivityGrain.DailyHolds(c, c.dayOf(ActivityGrain.Unix(t)), t);
    if d :| start == c.midnight(d) * 1_000_000_000 && start <= t < c.midnight(d + 1) * 1_000_000_000 {
      ActivityGrain.DailyHolds(c, d, t);
    }
  }

  /**
   An hourly row exists exactly where an event of that hour has those dimensions, and each of its counters is
   the number of those events, or the sum of one of their fields.
   */
  lemma HourlyMeaning(events: seq<Event>, k: OverviewKey)
    ensures k in Hourly(events) <==> NumberOf(events, InHour(k)) > 0
    ensures k in Hourly(events) ==> CountsRequests(Hourly(events)[k], events, InHour(k))
  {
    hide CountsRequests, HasDimensions;
    forall e ensures multiset(HourKeys()(e))[k] == if InHour(k)(e) then 1 else 0 {
      DimensionsAre(e, k.dimensions);
      HourIs(k.bucketStart, e.timestamp);
    }
    TallyAt(events, HourKeys(), OverviewWeight, k, InHour(k));
    OverviewWeighed(events, InHour(k));
  }

  lemma DailyMeaning(c: ActivityGrain.Calendar, events: seq<Event>, k: OverviewKey)
    requires ActivityGrain.ValidCalendar(c)
    ensures k in Daily(c, events) <==> NumberOf(events, InDay(c, k)) > 0
    ensures k in Daily(c, events) ==> CountsRequests(Daily(c, events)[k], events, InDay(c, k))
  {
    hide CountsRequests, HasDimensions, OnDay, ActivityGrain.ValidCalendar;
    forall e ensures multiset(DayKeys(c)(e))[k] == if InDay(c, k)(e) then 1 else 0 {
      DimensionsAre(e, k.dimensions);
      DayIs(c, k.bucketStart, e.timestamp);
    }
    TallyAt(events, DayKeys(c), OverviewWeight, k, InDay(c, k));
    OverviewWeighed(events, InDay(c, k));
  }

  // ----- activity -----

  /** Short rows are kept for three days, medium ones for eight, long ones for 31, daily ones for good. */
  predicate StillKept(grain: ActivityGrain.Grain, timestamp: int, now: int) {
    match grain
    case Short => timestamp >= now - 259_200_000_000_000
    case Medium => timestamp >= now - 691_200_000_000_000
    case Long => timestamp >= now - 2_678_400_000_000_000
    case Daily => true
    case Unsupported => false
  }

  /** The event lies in the bucket that starts there, of the grain's own division of time. */
  ghost predicate InBucket(c: ActivityGrain.Calendar, grain: ActivityGrain.Grain, start: int, timestamp: int)
    requires ActivityGrain.ValidCalendar(c)
  {
    && ActivityGrain.BucketOf(c, grain, start).Some? && ActivityGrain.BucketOf(c, grain, start).value.start == start
    && start <= timestamp < ActivityGrain.BucketOf(c, grain, start).value.end
  }

  ghost function InActivity(c: ActivityGrain.Calendar, now: int, k: ActivityKey): Event -> bool
    requires ActivityGrain.ValidCalendar(c)
  {
    (e: Event) => InBucket(c, k.grain, k.bucketStart, e.timestamp) && StillKept(k.grain, e.timestamp, now)
                  && k.apiGroupKey == Named(e.apiGroupKey)
  }

  lemma BucketIs(c: ActivityGrain.Calendar, grain: ActivityGrain.Grain, start: int, t: int)
    requires ActivityGrain.ValidCalendar(c) && !grain.Unsupported?
    ensures ActivityGrain.BucketOf(c, grain, t).value.start == start <==> InBucket(c, grain, start, t)
  {
    hide ActivityGrain.BucketOf, ActivityGrain.ValidCalendar;
    ActivityGrain.BucketOwns(c, grain, t, t);
    ActivityGrain.BucketOwns(c, grain, start, t);
  }

  lemma {:induction false} GrainKeysHold(c: ActivityGrain.Calendar, now: int, e: Event,
                                         grains: seq<ActivityGrain.Grain>, k: ActivityKey)
    requires ActivityGrain.ValidCalendar(c) && ActivityGrain.Unsupported !in grains
    requires forall i, j | 0 <= i < j < |grains| :: grains[i] != grains[j]
    ensures multiset(GrainKeys(c, now, e, grains))[k] == if k.grain in grains && InActivity(c, now, k)(e) then 1 else 0
  {
    hide ActivityGrain.BucketOf, ActivityGrain.ValidCalendar, InBucket;
    if grains != [] {
      var n := |grains| - 1;
      var grain, rest := grains[n], grains[..n];
      GrainKeysHold(c, now, e, rest, k);
      assert grain in grains && grain !in rest;
      assert forall g :: g in grains <==> g in rest || g == grain;
      BucketIs(c, grain, k.bucketStart, e.timestamp);
    }
  }

  lemma ActivityMeaning(c: ActivityGrain.Calendar, now: int, events: seq<Event>, k: ActivityKey)
    requires ActivityGrain.ValidCalendar(c)
    ensures k in Activity(c, now, events) <==> NumberOf(events, InActivity(c, now, k)) > 0
    ensures k in Activity(c, now, events) ==> CountsActivity(Activity(c, now, events)[k], events, InActivity(c, now, k))
  {
    hide CountsActivity, InBucket, GrainKeys;
    forall e ensures multiset(ActivityKeys(c, now)(e))[k] == if InActivity(c, now, k)(e) then 1 else 0 {
      AllGrains(k.grain);
      GrainKeysHold(c, now, e, GRAINS, k);
    }
    TallyAt(events, ActivityKeys(c, now), ActivityWeight, k, InActivity(c, now, k));
    ActivityWeighed(events, InActivity(c, now, k));
  }

  lemma AllGrains(grain: ActivityGrain.Grain)
    ensures grain in GRAINS <==> !grain.Unsupported?
  {
    assert GRAINS[0] == ActivityGrain.Short && GRAINS[1] == ActivityGrain.Medium && GRAINS[2] == ActivityGrain.Long;
    assert GRAINS[3] == ActivityGrain.Daily;
  }

  // ----- the order in which rows are written -----

  /** Equal up to a place, and there the lesser string. */
  predicate DecidedAt(a: seq<string>, b: seq<string>, n: nat)
    requires |a| == |b|
  {
    n < |a| && (forall k | 0 <= k < n :: a[k] == b[k]) && a[n] != b[n] && Text.Less(a[n], b[n])
  }

  lemma {:induction false} DecidedSomewhere(a: seq<string>, b: seq<string>)
    requires |a| == |b|
    ensures ValuesLess(a, b) <==> exists n :: DecidedAt(a, b, n)
  {
    if a != [] {
      DecidedSomewhere(a[1..], b[1..]);
      if a[0] != b[0] {
        Text.LessTotal(a[0], b[0]);
        assert Text.Less(a[0], b[0]) ==> DecidedAt(a, b, 0);
      } else {
        if n: nat :| DecidedAt(a[1..], b[1..], n) { DecidedLater(a, b, n); }
        if n: nat :| DecidedAt(a, b, n) { DecidedLater(a, b, n - 1); }
      }
    }
  }

  lemma DecidedLater(a: seq<string>, b: seq<string>, n: nat)
    requires |a| == |b| > 0 && a[0] == b[0]
    ensures DecidedAt(a, b, n + 1) <==> DecidedAt(a[1..], b[1..], n)
  {
    if DecidedAt(a[1..], b[1..], n) {
      forall k | 0 <= k < n + 1 ensures a[k] == b[k] {
        if k > 0 { assert a[1..][k - 1] == b[1..][k - 1]; }
      }
    }
  }

  function Listed(d: Dimensions): seq<string> {
    [d.apiGroupKey, d.model, d.authIndex, d.modelAlias, d.serviceTier, d.responseServiceTier, d.reasoningEffort,
      d.endpoint, d.executorType]
  }

  /** Overview rows go by bucket, and within a bucket by their dimensions in this order. */
  lemma OverviewOrderMeaning(a: OverviewKey, b: OverviewKey)
    ensures OverviewLess(a, b) <==>
      (|| a.bucketStart < b.bucketStart
       || (a.bucketStart == b.bucketStart && exists n :: DecidedAt(Listed(a.dimensions), Listed(b.dimensions), n)))
  {
    hide ValuesLess, DecidedAt;
    assert a.dimensions.Values() == Listed(a.dimensions) && b.dimensions.Values() == Listed(b.dimensions);
    DecidedSomewhere(a.dimensions.Values(), b.dimensions.Values());
  }

  function GrainPlace(grain: ActivityGrain.Grain): nat {
    match grain
    case Unsupported => 0
    case Daily => 1
    case Long => 2
    case Medium => 3
    case Short => 4
  }

  /** Activity rows go by the names of their grains, then by bucket, then by group. */
  lemma ActivityOrderMeaning(a: ActivityKey, b: ActivityKey)
    ensures ActivityLess(a, b) <==>
      (|| GrainPlace(a.grain) < GrainPlace(b.grain)
       || (a.grain == b.grain && a.bucketStart < b.bucketStart)
       || (a.grain == b.grain && a.bucketStart == b.bucketStart && Text.Less(a.apiGroupKey, b.apiGroupKey)))
  {
  }
}
