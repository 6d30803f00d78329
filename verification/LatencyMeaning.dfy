/**
 What a latency row means, said of the events' own fields: which events are its samples, and that its count,
 maxima, sketches and sample points are theirs.
 */
module LatencyMeaning {
  import opened LatencyTable
  import opened LatencyRows
  import opened LatencySample
  import opened LatencySketch
  import opened SampleCodec
  import opened SampleSets
  import opened SketchCodec
  import opened UsageRowsMeaning
  import opened Wrappers
  import ActivityGrain
  import SplitMix

  // ----- in the events' own terms -----

  function TTFT(): Event -> int {
    (e: Event) => if e.ttft.Some? then e.ttft.value else 0
  }

  function Latency(): Event -> int {
    (e: Event) => e.latency
  }

  /** The event lies in the local hour or local day that starts there. */
  ghost predicate InPeriod(c: ActivityGrain.Calendar, key: LatencyKey, timestamp: int) {
    match key.bucketType
    case Hour => c.hourStart(timestamp) == key.start
    case Day => OnDay(c, key.start, timestamp)
  }

  /** A successful generating request of the group and period, with both delays. */
  ghost function Measured(c: ActivityGrain.Calendar, key: LatencyKey): Event -> bool {
    (e: Event) =>
      !e.failed && e.generate == Some(true) && e.ttft.Some? && e.ttft.value >= 1 && e.latency >= 1
      && InPeriod(c, key, e.timestamp) && key.apiGroupKey == Named(e.apiGroupKey)
  }

  /** Rows of an hour are still built for three days, those of a day for 365 days with today. */
  predicate StillBuilt(c: ActivityGrain.Calendar, key: LatencyKey, now: int) {
    match key.bucketType
    case Hour => key.start >= c.hourStart(now - 259_200_000_000_000)
    case Day => key.start >= c.midnight(c.dayOf(ActivityGrain.Unix(now)) - 364) * 1_000_000_000
  }

  function Gamma(k: nat): real {
    if k == 0 then 1.0 else 101.0 / 99.0 * Gamma(k - 1)
  }

  /** Bin k holds what lies above the power k - 1 of gamma and up to its power k. */
  predicate InBin(v: int, k: int) {
    v >= 1 && k >= 0 && v as real <= Gamma(k) && (k > 0 ==> Gamma(k - 1) < v as real)
  }

  lemma {:induction false} GammaIs(k: nat)
    ensures Gamma(k) == Power(k)
  {
    if k > 0 { GammaIs(k - 1); }
  }

  function WithDelayIn(delay: Event -> int, k: int): Event -> bool {
    (e: Event) => InBin(delay(e), k)
  }

  ghost predicate LargestDelay(largest: int, events: seq<Event>, p: Event -> bool, delay: Event -> int) {
    && (forall e | e in events && p(e) :: delay(e) <= largest)
    && exists e :: e in events && p(e) && delay(e) == largest
  }

  ghost predicate CountsDelays(bins: Bins, events: seq<Event>, p: Event -> bool, delay: Event -> int) {
    forall k ::
      && (k in bins <==> NumberOf(events, Both(p, WithDelayIn(delay, k))) > 0)
      && (k in bins ==> bins[k] == NumberOf(events, Both(p, WithDelayIn(delay, k))))
  }

  ghost predicate PointIs(point: Point, e: Event) {
    && e.id >= 0 && point.eventID == e.id && point.priority == SplitMix.SplitMix64(e.id)
    && point.ttft == TTFT()(e) && point.latency == e.latency
  }

  /** The points of some events: of at most 2500 all, of more the 2500 with the least hashed ids. */
  ghost predicate SamplesEvents(points: Points, events: seq<Event>, p: Event -> bool) {
    && (forall id | id in points :: exists e :: e in events && p(e) && e.id == id && PointIs(points[id], e))
    && |points| == (if NumberOf(events, p) < 2500 then NumberOf(events, p) else 2500)
    && forall e, id | e in events && p(e) && e.id !in points && id in points :: Earlier(points[id].priority, e)
  }

  predicate Earlier(priority: int, e: Event) {
    e.id >= 0 && priority < SplitMix.SplitMix64(e.id)
  }

  ghost predicate Summarizes(row: Row, events: seq<Event>, p: Event -> bool) {
    && row.formatVersion == 1
    && row.sampleCount == NumberOf(events, p)
    && LargestDelay(row.maxTTFT, events, p, TTFT())
    && LargestDelay(row.maxLatency, events, p, Latency())
    && DecodeSketch(row.ttftSketch).Some? && CountsDelays(DecodeSketch(row.ttftSketch).value, events, p, TTFT())
    && DecodeSketch(row.latencySketch).Some?
    && CountsDelays(DecodeSketch(row.latencySketch).value, events, p, Latency())
    && DecodeSample(row.samplePoints).Some? && SamplesEvents(DecodeSample(row.samplePoints).value, events, p)
  }

  // ----- the samples of a key -----

  lemma MeasuredIs(c: ActivityGrain.Calendar, key: LatencyKey, e: Event)
    requires ActivityGrain.ValidCalendar(c)
    ensures Sampled(e) && key == KeyOf(c, e, key.bucketType) <==> Measured(c, key)(e)
  {
    hide OnDay, ActivityGrain.ValidCalendar;
    DayIs(c, key.start, e.timestamp);
  }

  lemma StillBuiltIs(c: ActivityGrain.Calendar, key: LatencyKey, now: int)
    ensures Retained(c, now, key) <==> StillBuilt(c, key, now)
  {
  }

  /** What the last event adds to the samples. */
  lemma LastMeasured(c: ActivityGrain.Calendar, key: LatencyKey, events: seq<Event>)
    requires ActivityGrain.ValidCalendar(c) && events != []
    ensures var before, e := RequestsOf(c, key, events[..|events| - 1]), events[|events| - 1];
      if Measured(c, key)(e) then Sampled(e) && RequestsOf(c, key, events) == before + [RequestOf(e)]
      else RequestsOf(c, key, events) == before
  {
    hide KeyOf, ActivityGrain.ValidCalendar, InPeriod;
    MeasuredIs(c, key, events[|events| - 1]);
  }

  lemma {:induction false} HowMany(c: ActivityGrain.Calendar, key: LatencyKey, events: seq<Event>)
    requires ActivityGrain.ValidCalendar(c)
    ensures |RequestsOf(c, key, events)| == NumberOf(events, Measured(c, key))
  {
    hide Sampled, KeyOf, ActivityGrain.ValidCalendar, InPeriod;
    if events != [] {
      var n := |events| - 1;
      HowMany(c, key, events[..n]);
      LastMeasured(c, key, events);
    }
  }

  lemma BinIs(v: Millis, k: int)
    ensures Key(v) == k <==> InBin(v, k)
  {
    hide Power, Gamma;
    GammaIs(Key(v));
    if k >= 0 { GammaIs(k); }
    if k > 0 { GammaIs(k - 1); }
    if Key(v) > 0 { GammaIs(Key(v) - 1); }
    if InBin(v, k) && k < Key(v) { PowerMonotone(k, Key(v) - 1); }
    if InBin(v, k) && Key(v) < k { PowerMonotone(Key(v), k - 1); }
  }

  /** What a bin is read as: the harmonic middle of its bounds, rounded, and kept within positive 64-bit numbers. */
  lemma RepresentativeMeaning(k: int)
    ensures k < 0 ==> Representative(k) == 1
    ensures k >= 0 ==> var middle := (99.0 / 100.0 * Gamma(k) + 0.5).Floor;
      Representative(k) == if middle < 1 then 1 else if middle > MAX_INT64 then MAX_INT64 else middle
  {
    hide Power, Gamma;
    if k >= 0 {
      GammaIs(k);
      assert 2.0 * Power(k) / (GAMMA + 1.0) == 99.0 / 100.0 * Power(k);
    } else {
      PowerGrows(-k);
      Reciprocal(Power(-k));
      assert 2.0 * PowerOf(k) / (GAMMA + 1.0) == 99.0 / 100.0 * PowerOf(k);
    }
  }

  lemma Reciprocal(x: real)
    requires x >= 1.0
    ensures 0.0 < 1.0 / x <= 1.0
  {
  }

  lemma ListsNext(requests: seq<Request>, r: Request)
    ensures TTFTs(requests + [r]) == TTFTs(requests) + [r.ttft]
    ensures Latencies(requests + [r]) == Latencies(requests) + [r.latency]
    ensures Offers(requests + [r]) == LatencySample.Added(Offers(requests), NewPoint(r.id, r.ttft, r.latency))
  {
    assert (requests + [r])[..|requests|] == requests;
  }

  lemma CountNext(values: seq<Millis>, v: Millis, p: Millis -> bool)
    ensures Count(values + [v], p) == Count(values, p) + if p(v) then 1 else 0
  {
    assert (values + [v])[..|values|] == values;
  }

  lemma LargestNext(values: seq<Millis>, v: Millis)
    ensures Largest(values + [v]) == if v > Largest(values) then v else Largest(values)
  {
    assert (values + [v])[..|values|] == values;
  }

  lemma {:induction false} DelayCounts(c: ActivityGrain.Calendar, key: LatencyKey, events: seq<Event>, k: int)
    requires ActivityGrain.ValidCalendar(c)
    ensures var p, requests := Measured(c, key), RequestsOf(c, key, events);
      && Count(TTFTs(requests), HasKey(k)) == NumberOf(events, Both(p, WithDelayIn(TTFT(), k)))
      && Count(Latencies(requests), HasKey(k)) == NumberOf(events, Both(p, WithDelayIn(Latency(), k)))
  {
    hide KeyOf, ActivityGrain.ValidCalendar, InPeriod, Key, InBin, TTFTs, Latencies, Offers, Count;
    if events == [] {
      NothingCounted(HasKey(k));
    } else {
      var n := |events| - 1;
      var e, before := events[n], RequestsOf(c, key, events[..n]);
      DelayCounts(c, key, events[..n], k);
      LastMeasured(c, key, events);
      if Measured(c, key)(e) {
        ListsNext(before, RequestOf(e));
        CountNext(TTFTs(before), e.ttft.value, HasKey(k));
        CountNext(Latencies(before), e.latency, HasKey(k));
        BinIs(e.ttft.value, k);
        BinIs(e.latency, k);
      }
    }
  }

  lemma NothingCounted(p: Millis -> bool)
    ensures Count(TTFTs([]), p) == Count(Latencies([]), p) == 0
  {
  }

  lemma SketchMeaning(c: ActivityGrain.Calendar, key: LatencyKey, events: seq<Event>)
    requires ActivityGrain.ValidCalendar(c)
    ensures CountsDelays(BinsOf(TTFTs(RequestsOf(c, key, events))), events, Measured(c, key), TTFT())
    ensures CountsDelays(BinsOf(Latencies(RequestsOf(c, key, events))), events, Measured(c, key), Latency())
  {
    hide RequestsOf, TTFTs, Latencies, BinsOf, InBin, Count, ActivityGrain.ValidCalendar, InPeriod, NumberOf;
    var ttfts, latencies := TTFTs(RequestsOf(c, key, events)), Latencies(RequestsOf(c, key, events));
    forall k ensures At(BinsOf(ttfts), k) == NumberOf(events, Both(Measured(c, key), WithDelayIn(TTFT(), k)))
                     && (k in BinsOf(ttfts) <==> At(BinsOf(ttfts), k) > 0) {
      DelayCounts(c, key, events, k);
      BinsOfCount(ttfts, k);
    }
    forall k ensures At(BinsOf(latencies), k) == NumberOf(events, Both(Measured(c, key), WithDelayIn(Latency(), k)))
                     && (k in BinsOf(latencies) <==> At(BinsOf(latencies), k) > 0) {
      DelayCounts(c, key, events, k);
      BinsOfCount(latencies, k);
    }
  }

  /** The largest delay so far is one of an event's, once there is any. */
  ghost predicate LargestSoFar(largest: int, events: seq<Event>, p: Event -> bool, delay: Event -> int) {
    && (forall e | e in events && p(e) :: delay(e) <= largest)
    && (largest == 0 || exists e :: e in events && p(e) && delay(e) == largest)
  }

  lemma SoFarNext(events: seq<Event>, p: Event -> bool, delay: Event -> int, before: int, e: Event)
    requires LargestSoFar(before, events, p, delay)
    ensures LargestSoFar(if p(e) && delay(e) > before then delay(e) else before, events + [e], p, delay)
  {
    var after := if p(e) && delay(e) > before then delay(e) else before;
    assert e in events + [e];
    if after != 0 && after == before {
      var f :| f in events && p(f) && delay(f) == before;
      assert f in events + [e];
    }
  }

  lemma {:induction false} DelaysSoFar(c: ActivityGrain.Calendar, key: LatencyKey, events: seq<Event>)
    requires ActivityGrain.ValidCalendar(c)
    ensures LargestSoFar(Largest(TTFTs(RequestsOf(c, key, events))), events, Measured(c, key), TTFT())
    ensures LargestSoFar(Largest(Latencies(RequestsOf(c, key, events))), events, Measured(c, key), Latency())
  {
    hide KeyOf, ActivityGrain.ValidCalendar, InPeriod, TTFTs, Latencies, Offers, Largest, LargestSoFar;
    if events == [] {
      NothingSoFar(Measured(c, key));
    } else {
      var n := |events| - 1;
      var e, before := events[n], RequestsOf(c, key, events[..n]);
      DelaysSoFar(c, key, events[..n]);
      LastMeasured(c, key, events);
      assert events == events[..n] + [e];
      SoFarNext(events[..n], Measured(c, key), TTFT(), Largest(TTFTs(before)), e);
      SoFarNext(events[..n], Measured(c, key), Latency(), Largest(Latencies(before)), e);
      if Measured(c, key)(e) {
        ListsNext(before, RequestOf(e));
        LargestNext(TTFTs(before), e.ttft.value);
        LargestNext(Latencies(before), e.latency);
      }
    }
  }

  lemma NothingSoFar(p: Event -> bool)
    ensures LargestSoFar(Largest(TTFTs([])), [], p, TTFT()) && LargestSoFar(Largest(Latencies([])), [], p, Latency())
  {
  }

  lemma {:induction false} SomeBelongs(events: seq<Event>, p: Event -> bool)
    ensures NumberOf(events, p) > 0 <==> exists e :: e in events && p(e)
  {
    if events != [] {
      var n := |events| - 1;
      SomeBelongs(events[..n], p);
      assert events == events[..n] + [events[n]];
    }
  }

  lemma LargestMeaning(largest: int, events: seq<Event>, p: Event -> bool, delay: Event -> int)
    requires LargestSoFar(largest, events, p, delay) && NumberOf(events, p) > 0
    requires forall e | p(e) :: delay(e) >= 1
    ensures LargestDelay(largest, events, p, delay)
  {
    SomeBelongs(events, p);
  }

  // ----- the sample -----

  ghost predicate PointOfSome(events: seq<Event>, p: Event -> bool, point: Point) {
    exists e :: e in events && p(e) && PointIs(point, e)
  }

  lemma PointOfLast(events: seq<Event>, p: Event -> bool, point: Point)
    requires events != []
    ensures var front, e := events[..|events| - 1], events[|events| - 1];
      PointOfSome(events, p, point) <==> PointOfSome(front, p, point) || (p(e) && PointIs(point, e))
  {
    hide PointIs;
    var n := |events| - 1;
    assert events == events[..n] + [events[n]];
  }

  lemma PointIsNew(point: Point, e: Event)
    requires Sampled(e) && e.id > 0
    ensures point == NewPoint(e.id, e.ttft.value, e.latency) <==> PointIs(point, e)
  {
    hide SplitMix.SplitMix64;
  }

  lemma {:induction false} OfferedAre(c: ActivityGrain.Calendar, key: LatencyKey, events: seq<Event>, point: Point)
    requires ActivityGrain.ValidCalendar(c) && Numbered(events)
    ensures point in Offered(Offers(RequestsOf(c, key, events))) <==> PointOfSome(events, Measured(c, key), point)
  {
    hide ActivityGrain.ValidCalendar, RequestsOf, Measured, Offers, Offered, PointOfSome, PointIs, NewPoint, Sampled;
    if events == [] {
      NoneOffered(c, key, point);
    } else {
      var n := |events| - 1;
      var e := events[n];
      OfferedAre(c, key, events[..n], point);
      LastMeasured(c, key, events);
      PointOfLast(events, Measured(c, key), point);
      if Measured(c, key)(e) {
        OneMoreOffered(RequestsOf(c, key, events[..n]), RequestOf(e), point);
        PointIsNew(point, e);
      }
    }
  }

  lemma OneMoreOffered(requests: seq<Request>, r: Request, point: Point)
    ensures point in Offered(Offers(requests + [r]))
       <==> point in Offered(Offers(requests)) || point == NewPoint(r.id, r.ttft, r.latency)
  {
    hide NewPoint;
    ListsNext(requests, r);
  }

  lemma NoneOffered(c: ActivityGrain.Calendar, key: LatencyKey, point: Point)
    ensures point !in Offered(Offers(RequestsOf(c, key, []))) && !PointOfSome([], Measured(c, key), point)
  {
  }

  lemma NoOffers()
    ensures Offers([]) == LatencySample.Nothing
  {
  }

  /** Each event has its own id, so as many are offered as belong. */
  lemma {:induction false} OfferedCount(c: ActivityGrain.Calendar, key: LatencyKey, events: seq<Event>)
    requires ActivityGrain.ValidCalendar(c) && Numbered(events)
    ensures |Ids(Offered(Offers(RequestsOf(c, key, events))))| == NumberOf(events, Measured(c, key))
  {
    hide KeyOf, ActivityGrain.ValidCalendar, InPeriod, Offers, TTFTs, Latencies, SplitMix.SplitMix64, PointOfSome;
    if events == [] {
      NoOffers();
    } else {
      var n := |events| - 1;
      var e, before := events[n], RequestsOf(c, key, events[..n]);
      OfferedCount(c, key, events[..n]);
      LastMeasured(c, key, events);
      if Measured(c, key)(e) {
        ListsNext(before, RequestOf(e));
        var points := Offered(Offers(before));
        IdsNext(points, NewPoint(e.id, e.ttft.value, e.latency));
        forall point | point in points ensures point.eventID != e.id {
          OfferedAre(c, key, events[..n], point);
          EarlierIds(events, Measured(c, key), point);
        }
      }
    }
  }

  lemma IdsNext(points: set<Point>, point: Point)
    ensures Ids(points + {point}) == Ids(points) + {point.eventID}
  {
  }

  lemma EarlierIds(events: seq<Event>, p: Event -> bool, point: Point)
    requires Numbered(events) && events != [] && PointOfSome(events[..|events| - 1], p, point)
    ensures point.eventID < events[|events| - 1].id
  {
    var e :| e in events[..|events| - 1] && p(e) && PointIs(point, e);
    var i :| 0 <= i < |events| - 1 && events[..|events| - 1][i] == e;
    assert events[i] == e;
  }

  lemma SampleMeaning(c: ActivityGrain.Calendar, key: LatencyKey, events: seq<Event>)
    requires ActivityGrain.ValidCalendar(c) && Numbered(events)
    ensures Kept(Offers(RequestsOf(c, key, events))).Some?
    ensures SamplesEvents(Kept(Offers(RequestsOf(c, key, events))).value, events, Measured(c, key))
  {
    hide ActivityGrain.ValidCalendar, RequestsOf, Measured, Offers, Offered, Kept, Consistent, Numbered, From;
    var p, requests := Measured(c, key), RequestsOf(c, key, events);
    var points := Offered(Offers(requests));
    RequestsFrom(c, key, events);
    SamplesConsistent(requests, events);
    KeptAreBottom(Offers(requests));
    OfferedCount(c, key, events);
    forall point ensures point in points <==> PointOfSome(events, p, point) { OfferedAre(c, key, events, point); }
    BottomSamples(Kept(Offers(requests)).value, points, events, p);
  }

  lemma BottomSamples(kept: Points, points: set<Point>, events: seq<Event>, p: Event -> bool)
    requires HoldsOf(kept, points) && IsBottom(Ids(points), kept.Keys) && Numbered(events)
    requires forall point :: point in points <==> PointOfSome(events, p, point)
    requires |Ids(points)| == NumberOf(events, p)
    ensures SamplesEvents(kept, events, p)
  {
    hide SplitMix.SplitMix64, IsBottom;
    KeptSize(kept, Ids(points));
    forall e, id | e in events && p(e) && e.id !in kept && id in kept ensures Earlier(kept[id].priority, e) {
      var point := Point(e.id, SplitMix.SplitMix64(e.id), TTFT()(e), e.latency);
      assert PointIs(point, e);
      assert point in points;
      KeptBelow(kept, points, id, point, events, p);
    }
  }

  lemma KeptSize(kept: Points, ids: set<int>)
    requires IsBottom(ids, kept.Keys)
    ensures |kept| == if |ids| < 2500 then |ids| else 2500
  {
    assert |kept.Keys| == |kept|;
  }

  /** A kept point has the lesser priority; two events never share one. */
  lemma KeptBelow(kept: Points, points: set<Point>, id: int, point: Point, events: seq<Event>, p: Event -> bool)
    requires HoldsOf(kept, points) && IsBottom(Ids(points), kept.Keys) && id in kept && point in points
    requires point.eventID !in kept
    requires PointOfSome(events, p, point) && PointOfSome(events, p, kept[id])
    ensures kept[id].priority < point.priority
  {
    hide SplitMix.SplitMix64;
    assert IdBefore(id, point.eventID);
    if kept[id].priority == point.priority {
      SplitMix.SplitMix64Injective(id, point.eventID);
    }
  }

  // ----- rows -----

  /** The row of a key's samples summarizes the events that were measured there, and there is one if any was. */
  lemma RowMeaning(c: ActivityGrain.Calendar, key: LatencyKey, events: seq<Event>, row: Row)
    requires ActivityGrain.ValidCalendar(c) && Numbered(events)
    ensures RequestsOf(c, key, events) != [] <==> NumberOf(events, Measured(c, key)) > 0
    ensures IsRow(row, RequestsOf(c, key, events)) && RequestsOf(c, key, events) != []
      ==> Summarizes(row, events, Measured(c, key))
  {
    hide ActivityGrain.ValidCalendar, RequestsOf, Offers, Kept, Numbered, BinsOf, TTFTs, Latencies, DecodeSketch,
      DecodeSample, CountsDelays, SamplesEvents, EncodeSketch, EncodeSample, LargestDelay, LargestSoFar, InPeriod;
    HowMany(c, key, events);
    if IsRow(row, RequestsOf(c, key, events)) && RequestsOf(c, key, events) != [] {
      RowDecodes(row, RequestsOf(c, key, events));
      SketchMeaning(c, key, events);
      SampleMeaning(c, key, events);
      DelaysSoFar(c, key, events);
      LargestMeaning(row.maxTTFT, events, Measured(c, key), TTFT());
      LargestMeaning(row.maxLatency, events, Measured(c, key), Latency());
    }
  }

  /** So the table of some pages holds, for a period no page was too late for, the row of all its events. */
  lemma TableMeaning(c: ActivityGrain.Calendar, pages: seq<Page>, table: Rows, key: LatencyKey)
    requires ActivityGrain.ValidCalendar(c) && Numbered(AllEvents(pages)) && Holds(c, pages, table)
    requires forall i | 0 <= i < |pages| :: StillBuilt(c, key, pages[i].now)
    ensures var events := AllEvents(pages);
      && (key in table <==> NumberOf(events, Measured(c, key)) > 0)
      && (key in table ==> Summarizes(table[key], events, Measured(c, key)))
  {
    hide ActivityGrain.ValidCalendar, RequestsOf, Contents, Numbered, IsRow, Summarizes, NumberOf, Measured, Retained,
      AllEvents, StillBuilt;
    forall i | 0 <= i < |pages| ensures Retained(c, pages[i].now, key) { StillBuiltIs(c, key, pages[i].now); }
    RetainedThroughout(c, key, pages);
    assert HoldsAt(c, pages, table, key);
    if key in table {
      RowMeaning(c, key, AllEvents(pages), table[key]);
    } else {
      HowMany(c, key, AllEvents(pages));
    }
  }
}
