/** The sample as an object: a map of points, changed in place and trimmed to its least entries. */
module SampleSets {
  import opened LatencySample
  import opened SampleCodec
  import opened Varint
  import opened Wrappers
  import Sorting

  function NewPoint(eventID: int, ttft: int, latency: int): Point {
    Point(eventID, Priority(eventID), ttft, latency)
  }

  class SampleSet {
    var points: Points

    ghost predicate Valid()
      reads this
    {
      ValidSample(points)
    }

    constructor ()
      ensures Valid() && points == map[]
    {
      points := map[];
    }

    /** Fails for values that are not positive, and for an event already kept with another point. */
    method Add(eventID: Int64, ttft: Int64, latency: Int64) returns (ok: bool)
      requires Valid()
      modifies this
      ensures Valid()
      ensures ok <==>
        eventID > 0 && ttft > 0 && latency > 0 && Agree(old(points), map[eventID := NewPoint(eventID, ttft, latency)])
      ensures points == if ok then Trimmed(old(points)[eventID := NewPoint(eventID, ttft, latency)]) else old(points)
    {
      if eventID <= 0 || ttft <= 0 || latency <= 0 {
        return false;
      }
      ok := AddPoint(NewPoint(eventID, ttft, latency));
      if ok {
        Trim();
      }
    }

    method AddPoint(point: Point) returns (ok: bool)
      modifies this
      ensures ok <==> point.eventID !in old(points) || old(points)[point.eventID] == point
      ensures points == if ok then old(points)[point.eventID := point] else old(points)
    {
      if point.eventID in points {
        return points[point.eventID] == point;
      }
      points := points[point.eventID := point];
      ok := true;
    }

    /** Deletes everything behind the first points in priority order. */
    method Trim()
      requires Filed(points)
      modifies this
      ensures points == Trimmed(old(points)) && Valid()
    {
      hide Filed, ValidSample, Sorting.Elements;
      TrimFiled(points);
      if |points| <= MAX_SAMPLE_POINTS {
        return;
      }
      var ids := ListIds();
      DropFrom(ids);
    }

    method DropFrom(ids: seq<int>)
      requires |ids| > MAX_SAMPLE_POINTS
      modifies this
      ensures points == old(points) - Sorting.Elements(ids[MAX_SAMPLE_POINTS..])
    {
      hide Sorting.Elements;
      NothingDropped(points, ids);
      for i := MAX_SAMPLE_POINTS to |ids|
        invariant points == old(points) - Sorting.Elements(ids[MAX_SAMPLE_POINTS..i])
      {
        DropNext(old(points), ids, i);
        points := points - {ids[i]};
      }
      assert ids[MAX_SAMPLE_POINTS..|ids|] == ids[MAX_SAMPLE_POINTS..];
    }

    method ListIds() returns (ids: seq<int>)
      ensures ids == SortedIds(points)
    {
      IdOrder();
      ids := Sorting.ListAscending(points.Keys, IdLess());
    }

    /**
     Adds every point of another set, itself included, then trims once. A conflict stops half-way: what
     was added stays, and nothing is trimmed.
     */
    method Merge(other: SampleSet) returns (ok: bool)
      requires Valid() && other.Valid()
      modifies this
      ensures ok <==> Agree(old(points), old(other.points))
      ensures ok ==> Valid() && points == Trimmed(old(points) + old(other.points))
      ensures !ok ==> PartlyAdded(points, old(points), old(other.points))
    {
      hide Genuine, Agree, Trimmed;
      ok := AddAll(other);
      if ok {
        FiledTogether(old(points), old(other.points));
        Trim();
      }
    }

    /** The point loop of a merge, in any order. */
    method AddAll(other: SampleSet) returns (ok: bool)
      requires Filed(points) && Filed(other.points)
      modifies this
      ensures ok <==> Agree(old(points), old(other.points))
      ensures ok ==> points == old(points) + old(other.points)
      ensures !ok ==> PartlyAdded(points, old(points), old(other.points))
    {
      hide Filed, Genuine, Agree;
      ghost var mine, theirs := points, other.points;
      var rest := other.points.Keys;
      AddedStart(mine, theirs);
      while rest != {}
        invariant rest <= theirs.Keys && Agree(mine, theirs - rest)
        invariant points == mine + (theirs - rest)
        invariant forall id | id in rest :: id in other.points && other.points[id] == theirs[id]
        decreases rest
      {
        SomeId(rest);
        var id :| id in rest;
        AddedStep(mine, theirs, rest, id);
        var added := AddPoint(other.points[id]);
        if !added {
          return false;
        }
        rest := rest - {id};
      }
      assert theirs - rest == theirs;
      ok := true;
    }

    method MarshalBinary() returns (encoded: Bytes)
      requires Valid()
      ensures encoded == EncodeSample(points)
    {
      hide Genuine, SortedIds, EncodeAll, Numbers, Encode, FiledAt;
      SortedFiled(points);
      var ids := ListIds();
      encoded := AppendUvarint([FORMAT_VERSION], |ids|);
      encoded := AppendPoints(encoded, points, ids);
    }
  }

  method AppendPoints(buf: Bytes, m: Points, ids: seq<int>) returns (r: Bytes)
    requires FiledAt(m, ids)
    ensures r == buf + EncodeAll(Numbers(m, ids))
  {
    hide Genuine, EncodeAll, Numbers, FiledAt;
    r := buf;
    NothingAppended(buf, m);
    for i := 0 to |ids|
      invariant FiledAt(m, ids[..i]) && r == buf + EncodeAll(Numbers(m, ids[..i]))
    {
      FiledNext(m, ids, i);
      NextEncoded(m, ids, i);
      r := AppendPoint(r, m[ids[i]]);
    }
    assert ids[..|ids|] == ids;
  }

  method AppendPoint(buf: Bytes, point: Point) returns (r: Bytes)
    requires Genuine(point)
    ensures r == buf + EncodeAll(PointNumbers(point))
  {
    hide Encode, EncodeAll, PointNumbers;
    FourEncoded(point);
    r := AppendUvarint(buf, point.eventID);
    r := AppendUvarint(r, point.priority);
    r := AppendUvarint(r, point.ttft);
    r := AppendUvarint(r, point.latency);
  }

  ghost predicate PartlyAdded(m: Points, mine: Points, theirs: Points) {
    exists left: set<int> :: left <= theirs.Keys && left != {} && m == mine + (theirs - left)
  }

  lemma FiledTogether(mine: Points, theirs: Points)
    requires Filed(mine) && Filed(theirs)
    ensures Filed(mine + theirs)
  {
  }

  lemma TrimFiled(m: Points)
    requires Filed(m)
    ensures ValidSample(Trimmed(m))
  {
    hide Genuine;
    TrimKeepsBottom(m);
    assert |Trimmed(m).Keys| == |Trimmed(m)|;
  }

  lemma NothingDropped(m: Points, ids: seq<int>)
    requires |ids| > MAX_SAMPLE_POINTS
    ensures m == m - Sorting.Elements(ids[MAX_SAMPLE_POINTS..MAX_SAMPLE_POINTS])
  {
  }

  lemma DropNext(m: Points, ids: seq<int>, i: nat)
    requires MAX_SAMPLE_POINTS <= i < |ids|
    ensures m - Sorting.Elements(ids[MAX_SAMPLE_POINTS..i + 1])
      == (m - Sorting.Elements(ids[MAX_SAMPLE_POINTS..i])) - {ids[i]}
  {
    assert ids[MAX_SAMPLE_POINTS..i + 1] == ids[MAX_SAMPLE_POINTS..i] + [ids[i]];
    assert Sorting.Elements(ids[MAX_SAMPLE_POINTS..i + 1]) == Sorting.Elements(ids[MAX_SAMPLE_POINTS..i]) + {ids[i]};
  }

  lemma SomeId(ids: set<int>)
    requires ids != {}
    ensures exists id :: id in ids
  {
    if forall id :: id !in ids { assert false; }
  }

  lemma AddedStart(mine: Points, theirs: Points)
    ensures mine == mine + (theirs - theirs.Keys) && Agree(mine, theirs - theirs.Keys)
  {
    assert theirs - theirs.Keys == map[];
  }

  /** One more point: it conflicts exactly when the two sets disagree on its event. */
  lemma AddedStep(mine: Points, theirs: Points, rest: set<int>, id: int)
    requires Filed(mine) && Filed(theirs) && rest <= theirs.Keys && id in rest && Agree(mine, theirs - rest)
    ensures var m, p := mine + (theirs - rest), theirs[id];
      && p.eventID == id
      && Filed(m)
      && (id in m <==> id in mine) && (id in mine ==> m[id] == mine[id])
      && m[id := p] == mine + (theirs - (rest - {id}))
      && (id !in mine || mine[id] == p ==> Agree(mine, theirs - (rest - {id})))
      && (id in mine && mine[id] != p ==> !Agree(mine, theirs))
  {
    hide Genuine;
    assert theirs - (rest - {id}) == (theirs - rest)[id := theirs[id]];
  }

  lemma FiledNext(m: Points, ids: seq<int>, i: nat)
    requires i < |ids| && FiledAt(m, ids)
    ensures FiledAt(m, ids[..i]) && FiledAt(m, ids[..i + 1]) && ids[i] in m && Genuine(m[ids[i]])
    ensures m[ids[i]].eventID >= 0 && m[ids[i]].ttft >= 0 && m[ids[i]].latency >= 0
  {
  }

  lemma NothingAppended(buf: Bytes, m: Points)
    ensures FiledAt(m, []) && buf == buf + EncodeAll(Numbers(m, []))
  {
  }

  lemma NextEncoded(m: Points, ids: seq<int>, i: nat)
    requires i < |ids| && FiledAt(m, ids) && FiledAt(m, ids[..i]) && FiledAt(m, ids[..i + 1]) && Genuine(m[ids[i]])
    ensures var p := m[ids[i]];
      EncodeAll(Numbers(m, ids[..i + 1])) == EncodeAll(Numbers(m, ids[..i])) + EncodeAll(PointNumbers(p))
  {
    hide Encode, Genuine;
    assert ids[..i + 1][..i] == ids[..i];
    EncodeAllConcat(Numbers(m, ids[..i]), PointNumbers(m[ids[i]]));
  }

  lemma FourEncoded(p: Point)
    requires Genuine(p)
    ensures EncodeAll(PointNumbers(p)) == Encode(p.eventID) + Encode(p.priority) + Encode(p.ttft) + Encode(p.latency)
  {
    EncodeFour(p.eventID, p.priority, p.ttft, p.latency);
  }

  lemma EncodeFour(a: nat, b: nat, c: nat, d: nat)
    ensures EncodeAll([a, b, c, d]) == Encode(a) + Encode(b) + Encode(c) + Encode(d)
  {
    hide Encode, EncodeAll;
    EncodeFirst(a, [b, c, d]);
    EncodeFirst(b, [c, d]);
    EncodeFirst(c, [d]);
    EncodeFirst(d, []);
    EncodeNone();
    assert [a, b, c, d] == [a] + [b, c, d] && [b, c, d] == [b] + [c, d] && [c, d] == [c] + [d] && [d] == [d] + [];
  }

  lemma EncodeNone()
    ensures EncodeAll([]) == []
  {
  }

  lemma EncodeFirst(n: nat, rest: seq<nat>)
    ensures EncodeAll([n] + rest) == Encode(n) + EncodeAll(rest)
  {
    hide Encode;
    assert ([n] + rest)[1..] == rest;
  }

  // ----- decoding -----

  ghost predicate PointsYield(ns: seq<nat>, m: Points) {
    |ns| % 4 == 0 && DecodedPoints(ns) == Some(m)
  }

  ghost predicate PointsRefused(ns: seq<nat>) {
    |ns| % 4 == 0 && DecodedPoints(ns).None?
  }

  /** After some points have been read and accepted. */
  ghost predicate PointsRead(buf: Bytes, count: nat, index: nat, offset: nat, ns: seq<nat>, m: Points) {
    offset <= |buf| && Standing(buf, 4, count, index, offset, ns) && |ns| == 4 * index && PointsYield(ns, m)
  }

  lemma PointUnreadable(buf: Bytes, count: nat, index: nat, offset: nat, ns: seq<nat>, m: Points)
    requires PointsRead(buf, count, index, offset, ns, m) && index < count && DecodeAll(buf[offset..], 4).None?
    ensures DecodeSample(buf).None?
  {
    hide DecodedPoints, Standing, DecodeAll, Frame;
    ItemMissing(buf, 4, count, index, offset, ns);
  }

  lemma PointRejected(buf: Bytes, count: nat, index: nat, offset: nat, ns: seq<nat>, m: Points, four: seq<nat>,
      end: nat)
    requires PointsRead(buf, count, index, offset, ns, m) && index < count
    requires |four| == 4 && NextIs(buf, offset, four, end) && PointsRefused(ns + four)
    ensures DecodeSample(buf).None?
  {
    hide DecodedPoints, Standing, DecodeAll, Frame;
    ItemTaken(buf, 4, count, index, offset, ns, end);
    if Frame(buf, 4).Some? {
      FrameContinues(buf, 4, count, index + 1, end, ns + four);
      FourEach(buf);
      var all := Frame(buf, 4).value;
      if DecodedPoints(all).Some? {
        DecodedPrefix(all, |ns + four|);
        assert false;
      }
    }
  }

  lemma PointTaken(buf: Bytes, count: nat, index: nat, offset: nat, ns: seq<nat>, m: Points, four: seq<nat>, end: nat,
      more: Points)
    requires PointsRead(buf, count, index, offset, ns, m) && index < count
    requires |four| == 4 && NextIs(buf, offset, four, end) && PointsYield(ns + four, more)
    ensures PointsRead(buf, count, index + 1, end, ns + four, more)
  {
    hide Standing, Frame, DecodeAll, PointsYield;
    ItemTaken(buf, 4, count, index, offset, ns, end);
  }

  /** Numbers read one by one are numbers read together. */
  lemma OneMore(buf: Bytes, offset: nat, read: seq<nat>, middle: nat, n: nat, end: nat)
    requires NextIs(buf, offset, read, middle) && NextIs(buf, middle, [n], end)
    ensures NextIs(buf, offset, read + [n], end)
  {
    DecodeAllSplit(buf[offset..], |read|, 1);
  }

  lemma EndOfNumbers(buf: Bytes, offset: nat, n: nat)
    requires offset <= |buf| && DecodeAll(buf[offset..], n).Some?
    ensures var p := DecodeAll(buf[offset..], n).value;
      |p.numbers| == n && |p.rest| <= |buf| && NextIs(buf, offset, p.numbers, |buf| - |p.rest|)
  {
    hide DecodeAll;
    DecodeAllShape(buf[offset..], n);
    var p := DecodeAll(buf[offset..], n).value;
    assert buf[offset..][|buf[offset..]| - |p.rest|..] == buf[|buf| - |p.rest|..];
  }

  lemma PrefixOfNumbers(buf: Bytes, offset: nat, read: seq<nat>, middle: nat, n: nat)
    requires |read| <= n && NextIs(buf, offset, read, middle) && DecodeAll(buf[offset..], n).Some?
    ensures |DecodeAll(buf[offset..], n).value.numbers| == n
      && DecodeAll(buf[offset..], n).value.numbers[..|read|] == read
  {
    hide DecodeAll;
    EndOfNumbers(buf, offset, n);
    DecodeAllSplit(buf[offset..], |read|, n - |read|);
  }

  /** Whatever follows a prefix already read, the whole item starts with it. */
  lemma PrefixFixed(buf: Bytes, offset: nat, read: seq<nat>, middle: nat)
    requires |read| <= 4 && NextIs(buf, offset, read, middle) && DecodeAll(buf[offset..], 4).Some?
    ensures |DecodeAll(buf[offset..], 4).value.numbers| == 4
      && DecodeAll(buf[offset..], 4).value.numbers[..|read|] == read
    ensures exists end: nat :: NextIs(buf, offset, DecodeAll(buf[offset..], 4).value.numbers, end)
  {
    hide DecodeAll, NextIs;
    Within(buf, offset, read, middle);
    PrefixOfNumbers(buf, offset, read, middle, 4);
    EndOfNumbers(buf, offset, 4);
  }

  lemma Within(buf: Bytes, offset: nat, read: seq<nat>, middle: nat)
    requires NextIs(buf, offset, read, middle)
    ensures offset <= middle <= |buf|
  {
  }

  predicate Positive(n: nat) { 1 <= n <= MAX_INT64 }

  /** Some field read so far is outside the positive 64-bit range. */
  predicate BadField(read: seq<nat>) {
    (|read| >= 1 && !Positive(read[0])) || (|read| >= 3 && !Positive(read[2])) || (|read| >= 4 && !Positive(read[3]))
  }

  /** What appending four numbers to accepted ones decodes to. */
  lemma DecodedNext(ns: seq<nat>, m: Points, four: seq<nat>)
    requires PointsYield(ns, m) && |four| == 4
    ensures LastPoint(ns + four) == PointOf(four) && |ns + four| % 4 == 0
    ensures var p := PointOf(four);
      DecodedPoints(ns + four) ==
      if !Genuine(p) || (ns != [] && !PointLess(LastPoint(ns), p)) || p.eventID in m then None
        else Some(m[p.eventID := p])
  {
    hide Genuine, PointLess, PointOf, LastPoint, DecodedPoints;
    var more := ns + four;
    JoinedFour(ns, four);
    DecodedStep(more);
  }

  lemma JoinedFour(ns: seq<nat>, four: seq<nat>)
    requires |ns| % 4 == 0 && |four| == 4
    ensures var more := ns + four;
      |more| >= 4 && |more| % 4 == 0 && more[|more| - 4..] == four && more[..|more| - 4] == ns
        && LastPoint(more) == PointOf(four)
  {
    hide PointOf;
  }

  lemma DecodedStep(ns: seq<nat>)
    requires |ns| % 4 == 0 && |ns| >= 4 && DecodedPoints(ns[..|ns| - 4]).Some?
    ensures var front, p, m := ns[..|ns| - 4], LastPoint(ns), DecodedPoints(ns[..|ns| - 4]).value;
      DecodedPoints(ns) == if !Genuine(p) || (front != [] && !PointLess(LastPoint(front), p)) || p.eventID in m
        then None else Some(m[p.eventID := p])
  {
    hide Genuine, PointLess, LastPoint;
  }

  lemma BadFieldFixed(ns: seq<nat>, m: Points, read: seq<nat>, four: seq<nat>)
    requires PointsYield(ns, m) && BadField(read) && |read| <= |four| == 4 && four[..|read|] == read
    ensures PointsRefused(ns + four)
  {
    hide DecodedPoints, LastPoint, PointLess;
    DecodedNext(ns, m, four);
    assert forall i | 0 <= i < |read| :: four[i] == read[i];
  }

  /** An item whose next field is missing or out of range rejects the data. */
  lemma FieldRejected(buf: Bytes, count: nat, index: nat, offset: nat, ns: seq<nat>, m: Points, read: seq<nat>,
      middle: nat)
    requires PointsRead(buf, count, index, offset, ns, m) && index < count
    requires |read| <= 4 && NextIs(buf, offset, read, middle)
    requires BadField(read) || (|read| < 4 && DecodeAll(buf[middle..], 1).None?)
    ensures DecodeSample(buf).None?
  {
    hide Standing, Frame, DecodedPoints;
    if DecodeAll(buf[offset..], 4).None? {
      PointUnreadable(buf, count, index, offset, ns, m);
    } else {
      PrefixFixed(buf, offset, read, middle);
      var four := DecodeAll(buf[offset..], 4).value.numbers;
      var end: nat :| NextIs(buf, offset, four, end);
      if !BadField(read) {
        DecodeAllSplit(buf[offset..], |read|, 4 - |read|);
        assert false;
      }
      BadFieldFixed(ns, m, read, four);
      PointRejected(buf, count, index, offset, ns, m, four, end);
    }
  }

  /** A complete item: the point it adds, or that it cannot be accepted. */
  lemma NextPoint(ns: seq<nat>, m: Points, four: seq<nat>)
    requires PointsYield(ns, m) && |four| == 4
    ensures var p := PointOf(four);
      && LastPoint(ns + four) == p
      && (!Genuine(p) || (ns != [] && !PointLess(LastPoint(ns), p)) ==> PointsRefused(ns + four))
      && (Genuine(p) && (ns != [] ==> PointLess(LastPoint(ns), p))
        ==> p.eventID !in m && PointsYield(ns + four, m[p.eventID := p]))
  {
    hide DecodedPoints, LastPoint, PointLess, Genuine;
    DecodedNext(ns, m, four);
    var p := PointOf(four);
    if Genuine(p) && (ns != [] ==> PointLess(LastPoint(ns), p)) {
      OrderImpliesNew(ns, m, p);
    }
  }

  /** One more number of an item, if it is there. */
  method ReadField(buf: Bytes, ghost offset: nat, ghost read: seq<nat>, middle: nat) returns (r: Option<nat>, end: nat)
    requires NextIs(buf, offset, read, middle)
    ensures r.None? ==> DecodeAll(buf[middle..], 1).None?
    ensures r.Some? ==> NextIs(buf, offset, read + [r.value], end)
  {
    hide DecodeAll;
    r, end := ReadUvarint(buf, middle);
    if r.Some? {
      OneMore(buf, offset, read, middle, r.value, end);
    }
  }

  lemma NothingYet(buf: Bytes, offset: nat)
    requires offset <= |buf|
    ensures NextIs(buf, offset, [], offset)
  {
  }

  /** Four fields of one point, the positive ones checked as they come. */
  method ReadPoint(buf: Bytes, ghost count: nat, ghost index: nat, offset: nat, ghost ns: seq<nat>, ghost m: Points)
    returns (point: Option<Point>, ghost four: seq<nat>, end: nat)
    requires PointsRead(buf, count, index, offset, ns, m) && index < count
    ensures point.None? ==> DecodeSample(buf).None?
    ensures point.Some? ==>
      |four| == 4 && NextIs(buf, offset, four, end) && !BadField(four) && point.value == PointOf(four)
  {
    hide PointsRead, NextIs, DecodeAll, DecodeSample;
    NothingYetAt(buf, count, index, offset, ns, m);
    point, four, end := None, [], offset;
    var eventID, afterID := ReadField(buf, offset, [], offset);
    if eventID.None? {
      FieldRejected(buf, count, index, offset, ns, m, [], offset);
      return;
    }
    four := [] + [eventID.value];
    if eventID.value == 0 || eventID.value > MAX_INT64 {
      FieldRejected(buf, count, index, offset, ns, m, four, afterID);
      return;
    }
    var priority, afterPriority := ReadField(buf, offset, four, afterID);
    if priority.None? {
      FieldRejected(buf, count, index, offset, ns, m, four, afterID);
      return;
    }
    four := four + [priority.value];
    var ttft, afterTTFT := ReadField(buf, offset, four, afterPriority);
    if ttft.None? {
      FieldRejected(buf, count, index, offset, ns, m, four, afterPriority);
      return;
    }
    four := four + [ttft.value];
    if ttft.value == 0 || ttft.value > MAX_INT64 {
      FieldRejected(buf, count, index, offset, ns, m, four, afterTTFT);
      return;
    }
    var latency, afterLatency := ReadField(buf, offset, four, afterTTFT);
    if latency.None? {
      FieldRejected(buf, count, index, offset, ns, m, four, afterTTFT);
      return;
    }
    four := four + [latency.value];
    if latency.value == 0 || latency.value > MAX_INT64 {
      FieldRejected(buf, count, index, offset, ns, m, four, afterLatency);
      return;
    }
    point := Some(Point(eventID.value, priority.value, ttft.value, latency.value));
    end := afterLatency;
  }

  lemma NothingYetAt(buf: Bytes, count: nat, index: nat, offset: nat, ns: seq<nat>, m: Points)
    requires PointsRead(buf, count, index, offset, ns, m)
    ensures NextIs(buf, offset, [], offset)
  {
    hide Standing, PointsYield;
    NothingYet(buf, offset);
  }

  lemma HeadRead(buf: Bytes, count: nat, offset: nat)
    requires Standing(buf, 4, count, 0, offset, [])
    ensures PointsRead(buf, count, 0, offset, [], map[])
    ensures count > MAX_SAMPLE_POINTS ==> DecodeSample(buf).None?
  {
    if Frame(buf, 4).Some? {
      FrameContinues(buf, 4, count, 0, offset, []);
    }
  }

  lemma FrameDone(buf: Bytes, count: nat, offset: nat, ns: seq<nat>, m: Points)
    requires PointsRead(buf, count, count, offset, ns, m) && count <= MAX_SAMPLE_POINTS
    ensures DecodeSample(buf) == if offset == |buf| then Some(m) else None
  {
    hide Standing, Frame, DecodedPoints;
    FrameEnds(buf, 4, count, offset, ns);
  }

  /** Parses strictly: version, count, ranges, priorities, order, and no byte left over. */
  method UnmarshalSampleSet(encoded: Bytes) returns (samples: SampleSet?)
    ensures samples == null <==> DecodeSample(encoded).None?
    ensures samples != null ==> fresh(samples) && samples.Valid() && samples.points == DecodeSample(encoded).value
  {
    hide Standing, PointsRead, DecodeSample, NextIs, PointsYield, PointsRefused, Genuine, PointLess, LastPoint,
      ValidSample, BadField;
    var head, offset := ReadHead(encoded, 4);
    if head.None? {
      NoFrame(encoded);
      return null;
    }
    var count := head.value;
    HeadRead(encoded, count, offset);
    if count > MAX_SAMPLE_POINTS {
      return null;
    }
    var points: Points, previous := map[], Point(0, 0, 0, 0);
    ghost var ns: seq<nat> := [];
    for index := 0 to count
      invariant offset >= 0 && PointsRead(encoded, count, index, offset, ns, points)
      invariant index > 0 ==> previous == LastPoint(ns)
    {
      var read, four, end := ReadPoint(encoded, count, index, offset, ns, points);
      if read.None? {
        return null;
      }
      var point := read.value;
      ReadFacts(encoded, count, index, offset, ns, points, four);
      if point.priority != Priority(point.eventID) {
        PointRejected(encoded, count, index, offset, ns, points, four, end);
        return null;
      }
      if index > 0 && !PointLess(previous, point) {
        PointRejected(encoded, count, index, offset, ns, points, four, end);
        return null;
      }
      if point.eventID in points {
        assert false;
      }
      PointTaken(encoded, count, index, offset, ns, points, four, end, points[point.eventID := point]);
      ns := ns + four;
      points := points[point.eventID := point];
      previous, offset := point, end;
    }
    FrameDone(encoded, count, offset, ns, points);
    if offset != |encoded| {
      return null;
    }
    samples := new SampleSet();
    samples.points := points;
    AcceptedSampleValid(encoded);
  }

  lemma NoFrame(buf: Bytes)
    ensures Frame(buf, 4).None? ==> DecodeSample(buf).None?
  {
  }

  /** What the tests on a point with positive fields decide. */
  lemma ReadFacts(buf: Bytes, count: nat, index: nat, offset: nat, ns: seq<nat>, m: Points, four: seq<nat>)
    requires PointsRead(buf, count, index, offset, ns, m) && |four| == 4 && !BadField(four)
    ensures var p := PointOf(four);
      && (index == 0 <==> ns == [])
      && LastPoint(ns + four) == p
      && (p.priority != Priority(p.eventID) || (index > 0 && !PointLess(LastPoint(ns), p)) ==> PointsRefused(ns + four))
      && (p.priority == Priority(p.eventID) && (index > 0 ==> PointLess(LastPoint(ns), p)) ==>
            p.eventID !in m && PointsYield(ns + four, m[p.eventID := p]))
  {
    hide Standing, PointsYield, PointsRefused, PointLess, LastPoint;
    NextPoint(ns, m, four);
  }
}
