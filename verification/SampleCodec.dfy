/** The binary form of a sample: its points in priority order, four numbers each. */
module SampleCodec {
  import opened LatencySample
  import opened Varint
  import opened Wrappers
  import Sorting
  import SplitMix

  function PointNumbers(p: Point): seq<nat>
    requires Genuine(p)
  {
    [p.eventID, p.priority, p.ttft, p.latency]
  }

  predicate FiledAt(m: Points, ids: seq<int>) {
    forall i | 0 <= i < |ids| :: ids[i] in m && m[ids[i]].eventID == ids[i] && Genuine(m[ids[i]])
  }

  function Numbers(m: Points, ids: seq<int>): (ns: seq<nat>)
    requires FiledAt(m, ids)
    ensures |ns| == 4 * |ids|
  {
    if ids == [] then []
    else
      var n := |ids| - 1;
      Numbers(m, ids[..n]) + PointNumbers(m[ids[n]])
  }

  lemma SortedFiled(m: Points)
    requires Filed(m)
    ensures FiledAt(m, SortedIds(m))
  {
    var ids := SortedIds(m);
    forall i | 0 <= i < |ids| ensures ids[i] in m { assert ids[i] in ids; }
  }

  ghost function EncodeSample(m: Points): Bytes
    requires ValidSample(m)
  {
    SortedFiled(m);
    EncodeFrame(|m|, Numbers(m, SortedIds(m)))
  }

  function PointOf(ns: seq<nat>): Point
    requires |ns| == 4
  {
    Point(ns[0], ns[1], ns[2], ns[3])
  }

  /** The last point of a list of numbers. */
  function LastPoint(ns: seq<nat>): Point {
    if |ns| >= 4 then PointOf(ns[|ns| - 4..]) else Point(0, 0, 0, 0)
  }

  /** Points must be genuine, strictly ordered and of different events. */
  ghost function DecodedPoints(ns: seq<nat>): Option<Points>
    requires |ns| % 4 == 0
  {
    if ns == [] then Some(map[])
    else
      var front := ns[..|ns| - 4];
      var point := LastPoint(ns);
      match DecodedPoints(front)
      case None => None
      case Some(m) =>
        if !Genuine(point) || (front != [] && !PointLess(LastPoint(front), point)) || point.eventID in m then None
        else Some(m[point.eventID := point])
  }

  ghost function DecodeSample(buf: Bytes): Option<Points> {
    match Frame(buf, 4)
    case None => None
    case Some(ns) => (FourEach(buf); if |ns| > 4 * MAX_SAMPLE_POINTS then None else DecodedPoints(ns))
  }

  lemma FourEach(buf: Bytes)
    requires Frame(buf, 4).Some?
    ensures |Frame(buf, 4).value| % 4 == 0
  {
    FrameShape(buf, 4);
  }

  // ----- accepted points -----

  lemma {:induction false} DecodedShape(ns: seq<nat>)
    requires |ns| % 4 == 0 && DecodedPoints(ns).Some?
    ensures var m := DecodedPoints(ns).value;
      && Filed(m) && 4 * |m| == |ns|
      && forall id | id in m :: !PointLess(LastPoint(ns), m[id])
  {
    hide Genuine;
    if ns != [] {
      DecodedShape(ns[..|ns| - 4]);
    }
  }

  /** A strictly later point is of an event not seen before; the duplicate test never decides. */
  lemma OrderImpliesNew(ns: seq<nat>, m: Points, point: Point)
    requires |ns| % 4 == 0 && DecodedPoints(ns) == Some(m) && Genuine(point)
    requires ns != [] ==> PointLess(LastPoint(ns), point)
    ensures point.eventID !in m
  {
    DecodedShape(ns);
  }

  /** Whatever bytes are accepted, the points are such as a sample can hold. */
  lemma AcceptedSampleValid(buf: Bytes)
    requires DecodeSample(buf).Some?
    ensures ValidSample(DecodeSample(buf).value)
  {
    FourEach(buf);
    DecodedShape(Frame(buf, 4).value);
  }

  lemma {:induction false} DecodedPrefix(ns: seq<nat>, n: nat)
    requires |ns| % 4 == 0 && n % 4 == 0 && n <= |ns| && DecodedPoints(ns).Some?
    ensures DecodedPoints(ns[..n]).Some?
  {
    hide Genuine, PointLess, LastPoint;
    if n == |ns| {
      assert ns[..n] == ns;
    } else {
      var front := ns[..|ns| - 4];
      assert n <= |front|;
      DecodedPrefix(front, n);
      assert front[..n] == ns[..n];
    }
  }

  // ----- round trip -----

  function Only(m: Points, ids: seq<int>): Points {
    map id | id in ids && id in m :: m[id]
  }

  lemma PointBack(p: Point, ns: seq<nat>)
    requires Genuine(p) && |ns| >= 4 && ns[|ns| - 4..] == PointNumbers(p)
    ensures LastPoint(ns) == p
  {
  }

  lemma LastNumbers(m: Points, ids: seq<int>)
    requires ids != [] && FiledAt(m, ids)
    ensures var ns, n := Numbers(m, ids), |ids| - 1;
      FiledAt(m, ids[..n]) && ns[..|ns| - 4] == Numbers(m, ids[..n]) && LastPoint(ns) == m[ids[n]]
  {
    PointBack(m[ids[|ids| - 1]], Numbers(m, ids));
  }

  lemma {:induction false} PointsRoundTrip(m: Points, ids: seq<int>)
    requires FiledAt(m, ids) && Sorting.StrictlySorted(ids, IdLess())
    ensures DecodedPoints(Numbers(m, ids)) == Some(Only(m, ids))
  {
    hide Genuine, PointLess, LastPoint, IdBefore;
    if ids == [] {
      assert Only(m, ids) == map[];
    } else {
      var n := |ids| - 1;
      LastNumbers(m, ids);
      PointsRoundTrip(m, ids[..n]);
      forall i | 0 <= i < n ensures ids[i] != ids[n] {
        assert IdLess()(ids[i], ids[n]);
        IdBeforeIrreflexive(ids[n]);
      }
      if n > 0 {
        LastNumbers(m, ids[..n]);
        assert IdLess()(ids[n - 1], ids[n]);
        NoTies(m[ids[n - 1]], m[ids[n]]);
      }
      OnlyNext(m, ids);
    }
  }

  lemma IdBeforeIrreflexive(id: int)
    ensures !IdBefore(id, id)
  {
  }

  lemma OnlyNext(m: Points, ids: seq<int>)
    requires ids != [] && ids[|ids| - 1] in m && forall i | 0 <= i < |ids| - 1 :: ids[i] != ids[|ids| - 1]
    ensures var n := |ids| - 1;
      ids[n] !in Only(m, ids[..n]) && Only(m, ids) == Only(m, ids[..n])[ids[n] := m[ids[n]]]
  {
    var n := |ids| - 1;
    assert ids == ids[..n] + [ids[n]];
  }

  lemma {:induction false} NumbersWords(m: Points, ids: seq<int>)
    requires FiledAt(m, ids)
    ensures Words(Numbers(m, ids))
  {
    hide Genuine, PointNumbers;
    if ids != [] {
      var n := |ids| - 1;
      NumbersWords(m, ids[..n]);
      PointWords(m[ids[n]]);
    }
  }

  lemma PointWords(p: Point)
    requires Genuine(p)
    ensures Words(PointNumbers(p))
  {
    PriorityFits(p.eventID);
  }

  lemma PriorityFits(id: int)
    ensures Priority(id) < WORD
  {
    if id >= 0 { SplitMix.SplitMix64Fits(id); }
  }

  /** Decoding an encoded sample returns it. */
  lemma SampleRoundTrip(m: Points)
    requires ValidSample(m)
    ensures DecodeSample(EncodeSample(m)) == Some(m)
  {
    hide Genuine, Frame, EncodeFrame, Numbers, DecodedPoints;
    var ids := SortedIds(m);
    SortedFiled(m);
    NumbersWords(m, ids);
    FrameRoundTrip(|m|, 4, Numbers(m, ids));
    PointsRoundTrip(m, ids);
    assert Only(m, ids) == m;
  }

  /** Nothing accepted can be cut short or continued. */
  lemma SampleExactLength(buf: Bytes, cut: nat, more: Bytes)
    requires DecodeSample(buf).Some? && cut < |buf| && more != []
    ensures DecodeSample(buf[..cut]).None? && DecodeSample(buf + more).None?
  {
    FrameNotCut(buf, 4, cut);
    FrameNotExtended(buf, 4, more);
  }

  // ----- encoding again -----

  function PointIds(ns: seq<nat>): (ids: seq<int>)
    requires |ns| % 4 == 0
    ensures 4 * |ids| == |ns|
  {
    if ns == [] then [] else PointIds(ns[..|ns| - 4]) + [LastPoint(ns).eventID]
  }

  lemma {:induction false} NumbersElsewhere(a: Points, b: Points, ids: seq<int>)
    requires FiledAt(a, ids) && FiledAt(b, ids) && forall i | 0 <= i < |ids| :: a[ids[i]] == b[ids[i]]
    ensures Numbers(a, ids) == Numbers(b, ids)
  {
    hide Genuine;
    if ids != [] { NumbersElsewhere(a, b, ids[..|ids| - 1]); }
  }

  /** The numbers of some points, listed by ascending priority. */
  ghost predicate Lists(ns: seq<nat>, m: Points, ids: seq<int>) {
    && Sorting.StrictlySorted(ids, IdLess()) && (forall id :: id in ids <==> id in m)
    && FiledAt(m, ids) && Numbers(m, ids) == ns
  }

  lemma NothingListed()
    ensures Lists([], map[], [])
  {
  }

  lemma LastAccepted(ns: seq<nat>) returns (front: seq<nat>, before: Points)
    requires |ns| % 4 == 0 && ns != [] && DecodedPoints(ns).Some?
    ensures |ns| >= 4 && front == ns[..|ns| - 4] && |front| % 4 == 0 && DecodedPoints(front) == Some(before)
    ensures PointIds(ns) == PointIds(front) + [LastPoint(ns).eventID]
    ensures var point := LastPoint(ns);
      && Genuine(point) && (front != [] ==> PointLess(LastPoint(front), point)) && point.eventID !in before
      && DecodedPoints(ns).value == before[point.eventID := point]
  {
    hide Genuine, PointLess, LastPoint;
    front := ns[..|ns| - 4];
    before := DecodedPoints(front).value;
  }

  lemma LastFour(ns: seq<nat>)
    requires |ns| >= 4 && Genuine(LastPoint(ns))
    ensures ns == ns[..|ns| - 4] + PointNumbers(LastPoint(ns))
  {
    hide Genuine;
    assert ns == ns[..|ns| - 4] + ns[|ns| - 4..];
    assert ns[|ns| - 4..] == PointNumbers(LastPoint(ns)) by { FourNumbers(ns[|ns| - 4..]); }
  }

  lemma FourNumbers(four: seq<nat>)
    requires |four| == 4 && Genuine(PointOf(four))
    ensures PointNumbers(PointOf(four)) == four
  {
    hide Genuine;
  }

  /** Accepted numbers are those of their points in priority order. */
  lemma {:induction false} PointsDetermined(ns: seq<nat>)
    requires |ns| % 4 == 0 && DecodedPoints(ns).Some?
    ensures Lists(ns, DecodedPoints(ns).value, PointIds(ns))
  {
    hide DecodedPoints, PointIds, Lists, Genuine, PointLess, LastPoint, PointNumbers;
    if ns == [] {
      NothingListed();
      assert DecodedPoints([]).value == map[] && PointIds([]) == [] by { NothingDecoded(); }
    } else {
      var front, before := LastAccepted(ns);
      LastFour(ns);
      PointsDetermined(front);
      ListsNext(front, LastPoint(ns));
    }
  }

  lemma NothingDecoded()
    ensures DecodedPoints([]) == Some(map[]) && PointIds([]) == []
  {
  }

  lemma ListsNext(front: seq<nat>, point: Point)
    requires |front| % 4 == 0 && DecodedPoints(front).Some? && Lists(front, DecodedPoints(front).value, PointIds(front))
    requires Genuine(point) && (front != [] ==> PointLess(LastPoint(front), point))
      && point.eventID !in DecodedPoints(front).value
    ensures Lists(front + PointNumbers(point), DecodedPoints(front).value[point.eventID := point],
      PointIds(front) + [point.eventID])
  {
    hide DecodedPoints, PointIds, Genuine, PointLess, IdLess, LastPoint, PointNumbers, Numbers;
    DecodedShape(front);
    var before, ids := DecodedPoints(front).value, PointIds(front);
    forall i | 0 <= i < |ids| ensures IdLess()(ids[i], point.eventID) {
      assert ids[i] in ids && ids[i] in before;
      assert front != [] by { if front == [] { NothingDecoded(); } }
      LaterThanAll(LastPoint(front), before[ids[i]], point);
    }
    PointsNext(before, ids, point);
  }

  lemma LaterThanAll(last: Point, p: Point, q: Point)
    requires Genuine(p) && Genuine(q) && p.eventID != q.eventID && !PointLess(last, p) && PointLess(last, q)
    ensures IdLess()(p.eventID, q.eventID)
  {
    hide Genuine, Priority;
    NoTies(p, q);
    if !PointLess(p, q) { assert false; }
  }

  lemma PointsNext(before: Points, ids: seq<int>, point: Point)
    requires FiledAt(before, ids) && Sorting.StrictlySorted(ids, IdLess()) && Genuine(point)
    requires forall i | 0 <= i < |ids| :: IdLess()(ids[i], point.eventID)
    requires point.eventID !in before && forall id :: id in ids <==> id in before
    ensures Lists(Numbers(before, ids) + PointNumbers(point), before[point.eventID := point], ids + [point.eventID])
  {
    hide Genuine, IdLess, PointNumbers, Numbers;
    var m, all := before[point.eventID := point], ids + [point.eventID];
    assert all[..|ids|] == ids && all[|ids|] == point.eventID;
    forall i | 0 <= i < |ids| ensures ids[i] in before && ids[i] != point.eventID { assert ids[i] in ids; }
    NumbersElsewhere(m, before, ids);
    NumbersLast(m, all);
  }

  lemma NumbersLast(m: Points, ids: seq<int>)
    requires ids != [] && FiledAt(m, ids)
    ensures FiledAt(m, ids[..|ids| - 1]) && Numbers(m, ids)
      == Numbers(m, ids[..|ids| - 1]) + PointNumbers(m[ids[|ids| - 1]])
  {
    hide Genuine, PointNumbers;
  }

  /** Encoding what was decoded gives back the same bytes exactly if no varint was padded. */
  lemma SampleReencodeIff(buf: Bytes)
    requires DecodeSample(buf).Some?
    ensures ValidSample(DecodeSample(buf).value)
    ensures EncodeSample(DecodeSample(buf).value) == buf <==> FrameUnpadded(buf, 4)
  {
    hide Frame, DecodedPoints, PointIds, FrameUnpadded, EncodeFrame, FiledAt, ValidSample, IdLess, SortedIds,
      EncodeSample;
    AcceptedSampleValid(buf);
    FourEach(buf);
    var ns := Frame(buf, 4).value;
    DecodedShape(ns);
    PointsDetermined(ns);
    EncodedAs(ns, DecodeSample(buf).value, PointIds(ns));
    ReencodeFrameIff(buf, 4, |DecodeSample(buf).value|);
  }

  lemma EncodedAs(ns: seq<nat>, m: Points, ids: seq<int>)
    requires ValidSample(m) && Lists(ns, m, ids)
    ensures EncodeSample(m) == EncodeFrame(|m|, ns)
  {
    hide Genuine, IdLess, EncodeFrame, Numbers;
    IdOrder();
    SortedFiled(m);
    Sorting.AscendingUnique(ids, SortedIds(m), IdLess());
  }

  /** They need not be: these bytes decode to the empty sample, which is written shorter. */
  lemma PaddedSample()
    ensures DecodeSample([1, 128, 0]) == DecodeSample([1, 0]) == Some(map[])
  {
    PaddedFrame(4);
  }
}
