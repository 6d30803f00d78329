/**
 The latency table: a row per local hour and per local day of every API group. A page of events is grouped
 and encoded into rows, and those are merged into the table; buckets that are too old by then are left out.
 */
module LatencyTable {
  import opened LatencySample
  import opened LatencyRows
  import opened LatencyStore
  import opened SampleSets
  import opened Wrappers
  import ActivityGrain
  import Text
  import UsageRows

  type Event = UsageRows.Event

  datatype BucketType = Hour | Day

  datatype LatencyKey = LatencyKey(bucketType: BucketType, start: int, apiGroupKey: string)

  type Rows = map<LatencyKey, Row>

  const HOUR_RETENTION := 3 * UsageRows.DAY
  const DAY_RETENTION_DAYS := 365

  /** Failed requests, and those without both delays, are no samples. */
  predicate Sampled(e: Event) {
    !e.failed && e.generate == Some(true) && e.ttft.Some? && e.ttft.value > 0 && e.latency > 0
  }

  function RequestOf(e: Event): Request
    requires Sampled(e)
  {
    Request(e.id, e.ttft.value, e.latency)
  }

  function KeyOf(c: ActivityGrain.Calendar, e: Event, bucketType: BucketType): LatencyKey {
    LatencyKey(bucketType,
               if bucketType.Hour? then c.hourStart(e.timestamp) else UsageRows.DayStart(c, e.timestamp),
               Text.Required(e.apiGroupKey))
  }

  /** The earliest bucket that is still built; the days kept include today. */
  function Cutoff(c: ActivityGrain.Calendar, bucketType: BucketType, now: int): int {
    if bucketType.Hour? then c.hourStart(now - HOUR_RETENTION)
    else c.midnight(c.dayOf(ActivityGrain.Unix(now)) - (DAY_RETENTION_DAYS - 1)) * ActivityGrain.SECOND
  }

  predicate Retained(c: ActivityGrain.Calendar, now: int, key: LatencyKey) {
    key.start >= Cutoff(c, key.bucketType, now)
  }

  // ----- what a row stands for -----

  /** The samples of some events under a key. */
  function RequestsOf(c: ActivityGrain.Calendar, key: LatencyKey, events: seq<Event>): seq<Request> {
    if events == [] then []
    else
      var last := events[|events| - 1];
      RequestsOf(c, key, events[..|events| - 1]) +
      (if Sampled(last) && key == KeyOf(c, last, key.bucketType) then [RequestOf(last)] else [])
  }

  /** A page of events, and when it was built. */
  datatype Page = Page(events: seq<Event>, now: int)

  /** What all pages together contributed to a key. */
  function Contents(c: ActivityGrain.Calendar, key: LatencyKey, pages: seq<Page>): seq<Request> {
    if pages == [] then []
    else
      var last := pages[|pages| - 1];
      Contents(c, key, pages[..|pages| - 1]) + (if Retained(c, last.now, key) then RequestsOf(c, key, last.events)
        else [])
  }

  function AllEvents(pages: seq<Page>): seq<Event> {
    if pages == [] then [] else AllEvents(pages[..|pages| - 1]) + pages[|pages| - 1].events
  }

  ghost predicate HoldsAt(c: ActivityGrain.Calendar, pages: seq<Page>, rows: Rows, key: LatencyKey) {
    && (key in rows <==> Contents(c, key, pages) != [])
    && (key in rows ==> IsRow(rows[key], Contents(c, key, pages)))
  }

  /** Exactly the keys that something was contributed to have a row, and it is the row of all of that. */
  ghost predicate Holds(c: ActivityGrain.Calendar, pages: seq<Page>, rows: Rows) {
    forall key :: HoldsAt(c, pages, rows, key)
  }

  lemma ContentsNext(c: ActivityGrain.Calendar, key: LatencyKey, pages: seq<Page>, page: Page)
    ensures Contents(c, key, [page]) == if Retained(c, page.now, key) then RequestsOf(c, key, page.events) else []
    ensures Contents(c, key, pages + [page]) == Contents(c, key, pages) + Contents(c, key, [page])
  {
    assert (pages + [page])[..|pages|] == pages;
    assert [page][..0] == [];
  }

  lemma AllEventsNext(pages: seq<Page>, page: Page)
    ensures AllEvents(pages + [page]) == AllEvents(pages) + page.events
  {
    assert (pages + [page])[..|pages|] == pages;
  }

  lemma {:induction false} RequestsConcat(c: ActivityGrain.Calendar, key: LatencyKey, a: seq<Event>, b: seq<Event>)
    ensures RequestsOf(c, key, a + b) == RequestsOf(c, key, a) + RequestsOf(c, key, b)
  {
    hide Sampled, KeyOf;
    if b == [] {
      assert a + b == a;
    } else {
      RequestsConcat(c, key, a, b[..|b| - 1]);
      assert (a + b)[..|a + b| - 1] == a + b[..|b| - 1];
    }
  }

  /** Of a bucket that no page was too late for, the row stands for every sample of it. */
  lemma {:induction false} RetainedThroughout(c: ActivityGrain.Calendar, key: LatencyKey, pages: seq<Page>)
    requires forall i | 0 <= i < |pages| :: Retained(c, pages[i].now, key)
    ensures Contents(c, key, pages) == RequestsOf(c, key, AllEvents(pages))
  {
    if pages != [] {
      var n := |pages| - 1;
      RetainedThroughout(c, key, pages[..n]);
      RequestsConcat(c, key, AllEvents(pages[..n]), pages[n].events);
    }
  }

  // ----- samples are consistent -----

  /** Events as the database numbers them. */
  ghost predicate Numbered(events: seq<Event>) {
    && (forall i | 0 <= i < |events| :: events[i].id > 0)
    && (forall i, j | 0 <= i < j < |events| :: events[i].id < events[j].id)
  }

  lemma {:induction false} FewEvents(events: seq<Event>)
    requires Numbered(events)
    ensures |events| <= if events == [] then 0 else events[|events| - 1].id
  {
    if |events| > 1 {
      FewEvents(events[..|events| - 1]);
    }
  }

  /** Every request is the sample of one of the events. */
  ghost predicate From(requests: seq<Request>, events: seq<Event>) {
    |requests| <= |events| && forall r | r in requests :: exists e :: e in events && Sampled(e) && RequestOf(e) == r
  }

  lemma FromConcat(a: seq<Request>, x: seq<Event>, b: seq<Request>, y: seq<Event>)
    requires From(a, x) && From(b, y)
    ensures From(a + b, x + y)
  {
    hide Sampled;
    forall r | r in a + b ensures exists e :: e in x + y && Sampled(e) && RequestOf(e) == r {
      if r in a {
        var e :| e in x && Sampled(e) && RequestOf(e) == r;
        assert e in x + y;
      } else {
        var e :| e in y && Sampled(e) && RequestOf(e) == r;
        assert e in x + y;
      }
    }
  }

  lemma {:induction false} RequestsFrom(c: ActivityGrain.Calendar, key: LatencyKey, events: seq<Event>)
    ensures From(RequestsOf(c, key, events), events)
  {
    hide KeyOf, Sampled;
    if events != [] {
      var n := |events| - 1;
      RequestsFrom(c, key, events[..n]);
      var last: seq<Request> := if Sampled(events[n]) && key == KeyOf(c, events[n], key.bucketType)
        then [RequestOf(events[n])] else [];
      assert events[n] in [events[n]];
      FromConcat(RequestsOf(c, key, events[..n]), events[..n], last, [events[n]]);
      assert events == events[..n] + [events[n]];
    }
  }

  lemma {:induction false} ContentsFrom(c: ActivityGrain.Calendar, key: LatencyKey, pages: seq<Page>)
    ensures From(Contents(c, key, pages), AllEvents(pages))
  {
    hide From, Retained;
    if pages == [] {
      assert From([], []) by { NothingFrom([]); }
    } else {
      var n := |pages| - 1;
      ContentsFrom(c, key, pages[..n]);
      RequestsFrom(c, key, pages[n].events);
      NothingFrom(pages[n].events);
      FromConcat(Contents(c, key, pages[..n]), AllEvents(pages[..n]),
                 if Retained(c, pages[n].now, key) then RequestsOf(c, key, pages[n].events) else [], pages[n].events);
    }
  }

  lemma NothingFrom(events: seq<Event>)
    ensures From([], events)
  {
  }

  lemma {:induction false} OfferedOnly(requests: seq<Request>, p: Point)
    requires p in Offered(Offers(requests))
    ensures exists r :: r in requests && p == NewPoint(r.id, r.ttft, r.latency)
  {
    hide Priority;
    var n := |requests| - 1;
    var r := requests[n];
    if p == NewPoint(r.id, r.ttft, r.latency) {
      assert r in requests;
    } else {
      OfferedOnly(requests[..n], p);
      var s :| s in requests[..n] && p == NewPoint(s.id, s.ttft, s.latency);
      assert s in requests;
    }
  }

  /** Each event is sampled once, so its points never conflict, and there are few enough to count. */
  lemma SamplesConsistent(requests: seq<Request>, events: seq<Event>)
    requires Numbered(events) && From(requests, events)
    ensures Consistent(Offered(Offers(requests))) && |requests| <= MAX_INT64
  {
    hide Offered, Priority, Sampled, Consistent, Numbered, PointOf;
    FewEvents(events);
    forall p | p in Offered(Offers(requests)) ensures exists e :: e in events && PointOf(e, p) {
      OfferedOnly(requests, p);
      var r :| r in requests && p == NewPoint(r.id, r.ttft, r.latency);
      var e :| e in events && Sampled(e) && RequestOf(e) == r;
      SamplePoint(e, p);
    }
    PointsConsistent(Offered(Offers(requests)), events);
  }

  lemma SamplePoint(e: Event, p: Point)
    requires Sampled(e) && p == NewPoint(e.id, RequestOf(e).ttft, RequestOf(e).latency)
    ensures PointOf(e, p)
  {
  }

  lemma PointsConsistent(points: set<Point>, events: seq<Event>)
    requires Numbered(events) && forall p | p in points :: exists e :: e in events && PointOf(e, p)
    ensures Consistent(points)
  {
    hide Genuine, PointOf, Numbered;
    forall p | p in points ensures Genuine(p) {
      var e :| e in events && PointOf(e, p);
      PointGenuine(events, e, p);
    }
    forall p, q | p in points && q in points && p.eventID == q.eventID ensures p == q {
      var e :| e in events && PointOf(e, p);
      var f :| f in events && PointOf(f, q);
      SamePoint(events, e, p, f, q);
    }
  }

  lemma PointGenuine(events: seq<Event>, e: Event, p: Point)
    requires Numbered(events) && e in events && PointOf(e, p)
    ensures Genuine(p)
  {
    hide Priority;
  }

  lemma SamePoint(events: seq<Event>, e: Event, p: Point, f: Event, q: Point)
    requires Numbered(events) && e in events && f in events && PointOf(e, p) && PointOf(f, q) && p.eventID == q.eventID
    ensures p == q
  {
    hide Priority;
    OneEvent(events, e, f);
  }

  ghost predicate PointOf(e: Event, p: Point) {
    Sampled(e) && p == NewPoint(e.id, RequestOf(e).ttft, RequestOf(e).latency)
  }

  lemma OneEvent(events: seq<Event>, e: Event, f: Event)
    requires Numbered(events) && e in events && f in events && e.id == f.id
    ensures e == f
  {
    var i :| 0 <= i < |events| && events[i] == e;
    var j :| 0 <= j < |events| && events[j] == f;
    assert i == j;
  }

  // ----- a page -----

  type Groups = map<LatencyKey, seq<Request>>

  ghost predicate GroupedAt(c: ActivityGrain.Calendar, page: Page, groups: Groups, key: LatencyKey) {
    && (key in groups <==> Contents(c, key, [page]) != [])
    && (key in groups ==> groups[key] == Contents(c, key, [page]))
  }

  ghost predicate Grouped(c: ActivityGrain.Calendar, page: Page, groups: Groups) {
    forall key :: GroupedAt(c, page, groups, key)
  }

  function Joined(groups: Groups, key: LatencyKey, r: Request): Groups {
    groups[key := (if key in groups then groups[key] else []) + [r]]
  }

  /** One event joins the group of its hour and the group of its day, as far as they are retained. */
  lemma GroupedNext(c: ActivityGrain.Calendar, events: seq<Event>, now: int, groups: Groups, e: Event, grown: Groups)
    requires Grouped(c, Page(events, now), groups)
    requires var hour, day := KeyOf(c, e, Hour), KeyOf(c, e, Day);
      var first := if Sampled(e) && Retained(c, now, hour) then Joined(groups, hour, RequestOf(e)) else groups;
      grown == if Sampled(e) && Retained(c, now, day) then Joined(first, day, RequestOf(e)) else first
    ensures Grouped(c, Page(events + [e], now), grown)
  {
    hide Sampled, KeyOf, Retained, RequestsOf, Contents;
    var hour, day := KeyOf(c, e, Hour), KeyOf(c, e, Day);
    KeyTypes(c, e);
    forall key ensures GroupedAt(c, Page(events + [e], now), grown, key) {
      assert GroupedAt(c, Page(events, now), groups, key);
      PageNext(c, key, events, now, e);
      assert key.bucketType.Hour? ==> key != day;
      assert key.bucketType.Day? ==> key != hour;
    }
  }

  /** What one more event adds to what a page contributes to a key. */
  lemma PageNext(c: ActivityGrain.Calendar, key: LatencyKey, events: seq<Event>, now: int, e: Event)
    ensures var before, after := Contents(c, key, [Page(events, now)]), Contents(c, key, [Page(events + [e], now)]);
      after == if Sampled(e) && key == KeyOf(c, e, key.bucketType) && Retained(c, now, key)
        then before + [RequestOf(e)] else before
  {
    hide Sampled, KeyOf, Retained, RequestsOf, Contents;
    ContentsNext(c, key, [], Page(events, now));
    ContentsNext(c, key, [], Page(events + [e], now));
    RequestsNext(c, key, events, e);
    assert RequestsOf(c, key, events) + [] == RequestsOf(c, key, events);
  }

  lemma KeyTypes(c: ActivityGrain.Calendar, e: Event)
    ensures KeyOf(c, e, Hour).bucketType == Hour && KeyOf(c, e, Day).bucketType == Day
  {
  }

  lemma RequestsNext(c: ActivityGrain.Calendar, key: LatencyKey, events: seq<Event>, e: Event)
    ensures RequestsOf(c, key, events + [e])
         == RequestsOf(c, key, events) + (if Sampled(e) && key == KeyOf(c, e, key.bucketType) then [RequestOf(e)]
           else [])
  {
    assert (events + [e])[..|events|] == events;
  }

  method GroupSamples(c: ActivityGrain.Calendar, events: seq<Event>, now: int) returns (groups: Groups)
    ensures Grouped(c, Page(events, now), groups)
  {
    hide Sampled, KeyOf, Retained, Grouped;
    groups := map[];
    NothingGrouped(c, now);
    for i := 0 to |events|
      invariant Grouped(c, Page(events[..i], now), groups)
    {
      assert events[..i + 1] == events[..i] + [events[i]];
      var event := events[i];
      ghost var before := groups;
      if Sampled(event) {
        var hour := KeyOf(c, event, Hour);
        if Retained(c, now, hour) {
          groups := Joined(groups, hour, RequestOf(event));
        }
        var day := KeyOf(c, event, Day);
        if Retained(c, now, day) {
          groups := Joined(groups, day, RequestOf(event));
        }
      }
      GroupedNext(c, events[..i], now, before, event, groups);
    }
    assert events[..|events|] == events;
  }

  lemma NothingGrouped(c: ActivityGrain.Calendar, now: int)
    ensures Grouped(c, Page([], now), map[])
  {
    forall key ensures GroupedAt(c, Page([], now), map[], key) { ContentsNext(c, key, [], Page([], now)); }
  }

  /** The rows of one page; numbered events are never refused. */
  method BuildLatencyRows(c: ActivityGrain.Calendar, events: seq<Event>, now: int) returns (rows: Rows)
    requires Numbered(events)
    ensures Holds(c, [Page(events, now)], rows)
  {
    hide Numbered, IsRow, Consistent, Offered, Contents;
    ghost var page := Page(events, now);
    var groups := GroupSamples(c, events, now);
    rows := map[];
    var rest := groups.Keys;
    while rest != {}
      invariant rest <= groups.Keys && rows.Keys == groups.Keys - rest
      invariant forall key | key in rows :: IsRow(rows[key], groups[key])
      decreases rest
    {
      var key :| key in rest;
      GroupConsistent(c, page, groups, key);
      var row := BuildRow(groups[key]);
      rows := rows[key := row.value];
      rest := rest - {key};
    }
    forall key ensures HoldsAt(c, [page], rows, key) { assert GroupedAt(c, page, groups, key); }
  }

  lemma GroupConsistent(c: ActivityGrain.Calendar, page: Page, groups: Groups, key: LatencyKey)
    requires Numbered(page.events) && Grouped(c, page, groups) && key in groups
    ensures Consistent(Offered(Offers(groups[key]))) && |groups[key]| <= MAX_INT64
  {
    hide Contents, Numbered, From;
    assert GroupedAt(c, page, groups, key);
    ContentsNext(c, key, [], page);
    ContentsFrom(c, key, [page]);
    assert [] + page.events == page.events && [] + [page] == [page];
    assert AllEvents([]) == [];
    SamplesConsistent(groups[key], page.events);
  }

  // ----- merging a page -----

  /** Merging the rows of a page into the table leaves the table of all pages; nothing is refused. */
  method MergePage(c: ActivityGrain.Calendar, ghost pages: seq<Page>, table: Rows, ghost page: Page, rows: Rows)
      returns (merged: Rows)
    requires Holds(c, pages, table) && Holds(c, [page], rows) && Numbered(AllEvents(pages) + page.events)
    ensures Holds(c, pages + [page], merged)
  {
    hide Numbered, Contents, HoldsAt, Holds, Readable, Mergeable, RowMerged, IsRow;
    merged := table;
    var rest := rows.Keys;
    Untouched(c, pages, table, page, rows);
    while rest != {}
      invariant rest <= rows.Keys
      invariant forall key | key in rest ::
        (key in merged <==> key in table) && (key in table ==> merged[key] == table[key])
      invariant forall key | key !in rest :: HoldsAt(c, pages + [page], merged, key)
      decreases rest
    {
      var key :| key in rest;
      ghost var before := merged;
      MergesAt(c, pages, table, page, rows, key);
      var row := MergeLatencyRows(if key in merged then Some(merged[key]) else None, rows[key]);
      merged := merged[key := row.value];
      rest := rest - {key};
      RowHolds(c, pages, table, page, rows, key, row.value, merged);
      forall other | other !in rest && other != key ensures HoldsAt(c, pages + [page], merged, other) {
        SameAt(c, pages + [page], before, merged, other);
      }
    }
    AllHold(c, pages + [page], merged);
  }

  lemma AllHold(c: ActivityGrain.Calendar, pages: seq<Page>, rows: Rows)
    requires forall key | key !in {} :: HoldsAt(c, pages, rows, key)
    ensures Holds(c, pages, rows)
  {
    forall key ensures HoldsAt(c, pages, rows, key) { assert key !in {}; }
  }

  lemma SameAt(c: ActivityGrain.Calendar, pages: seq<Page>, a: Rows, b: Rows, key: LatencyKey)
    requires HoldsAt(c, pages, a, key) && (key in a <==> key in b) && (key in a ==> a[key] == b[key])
    ensures HoldsAt(c, pages, b, key)
  {
  }

  /** Keys without a row in the page are as they were. */
  lemma Untouched(c: ActivityGrain.Calendar, pages: seq<Page>, table: Rows, page: Page, rows: Rows)
    requires Holds(c, pages, table) && Holds(c, [page], rows)
    ensures forall key | key !in rows :: HoldsAt(c, pages + [page], table, key)
  {
    hide Contents, IsRow;
    forall key | key !in rows ensures HoldsAt(c, pages + [page], table, key) {
      assert HoldsAt(c, pages, table, key) && HoldsAt(c, [page], rows, key);
      ContentsNext(c, key, pages, page);
      assert Contents(c, key, pages) + [] == Contents(c, key, pages);
    }
  }

  /** The page's row can be stored under its key, or merged into the row that is there. */
  lemma MergesAt(c: ActivityGrain.Calendar, pages: seq<Page>, table: Rows, page: Page, rows: Rows, key: LatencyKey)
    requires Holds(c, pages, table) && Holds(c, [page], rows) && Numbered(AllEvents(pages) + page.events) && key in rows
    ensures Readable(rows[key])
    ensures key in table ==> Mergeable(table[key], rows[key])
    ensures key in table ==>
      forall row | RowMerged(row, table[key], rows[key]) :: IsRow(row, Contents(c, key, pages + [page]))
    ensures key !in table ==> IsRow(rows[key], Contents(c, key, pages + [page]))
  {
    hide Numbered, Contents, Consistent, Offered, IsRow, RowMerged, Readable, Mergeable;
    assert HoldsAt(c, pages, table, key) && HoldsAt(c, [page], rows, key);
    var mine, theirs := Contents(c, key, pages), Contents(c, key, [page]);
    ContentsNext(c, key, pages, page);
    ContentsFrom(c, key, pages + [page]);
    SamplesConsistent(mine + theirs, AllEvents(pages + [page]));
    OffersConcat(mine, theirs);
    ConsistentWithin(Offered(Offers(theirs)), Offered(Offers(mine + theirs)));
    RequestsReadable(rows[key], theirs);
    if key in table {
      MergedRowExact(table[key], mine, rows[key], theirs);
    } else {
      assert mine + theirs == theirs;
    }
  }

  lemma RowHolds(c: ActivityGrain.Calendar, pages: seq<Page>, table: Rows, page: Page, rows: Rows, key: LatencyKey,
      row: Row, merged: Rows)
    requires Holds(c, [page], rows) && key in rows && key in merged && merged[key] == row
    requires IsRow(row, Contents(c, key, pages + [page]))
    ensures HoldsAt(c, pages + [page], merged, key)
  {
    hide IsRow, Contents;
    assert HoldsAt(c, [page], rows, key);
    ContentsNext(c, key, pages, page);
  }
}
