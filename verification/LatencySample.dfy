/**
 The bounded latency sample: of all points ever offered, the ones with the least priorities. A priority is
 a hash of the event id, so which points are kept does not depend on order or grouping.
 */
module LatencySample {
  import opened Wrappers
  import Sorting
  import SplitMix

  const MAX_SAMPLE_POINTS: nat := 2500

  datatype Point = Point(eventID: int, priority: nat, ttft: int, latency: int)
  type Points = map<int, Point>

  function Priority(eventID: int): nat {
    if 0 <= eventID then SplitMix.SplitMix64(eventID) else 0
  }

  predicate PointLess(a: Point, b: Point) {
    if a.priority != b.priority then a.priority < b.priority else a.eventID < b.eventID
  }

  predicate IdBefore(a: int, b: int) {
    if Priority(a) != Priority(b) then Priority(a) < Priority(b) else a < b
  }

  function IdLess(): (int, int) -> bool { (a: int, b: int) => IdBefore(a, b) }

  lemma IdOrder()
    ensures Sorting.StrictTotalOrder(IdLess())
  {
  }

  /** A point that Add builds or a decoder accepts. */
  predicate Genuine(p: Point) {
    && 1 <= p.eventID <= MAX_INT64 && 1 <= p.ttft <= MAX_INT64 && 1 <= p.latency <= MAX_INT64
    && p.priority == Priority(p.eventID)
  }

  predicate Filed(m: Points) {
    forall id | id in m :: m[id].eventID == id && Genuine(m[id])
  }

  ghost predicate ValidSample(m: Points) {
    Filed(m) && |m| <= MAX_SAMPLE_POINTS
  }

  /** Two events never tie: their priorities differ, so the id never has to decide. */
  lemma NoTies(p: Point, q: Point)
    requires Genuine(p) && Genuine(q) && p.eventID != q.eventID
    ensures p.priority != q.priority
    ensures PointLess(p, q) <==> p.priority < q.priority
    ensures PointLess(p, q) <==> IdBefore(p.eventID, q.eventID)
  {
    if p.priority == q.priority {
      SplitMix.SplitMix64Injective(p.eventID, q.eventID);
    }
  }

  // ----- the least points of a set -----

  function Least(n: nat): nat {
    if n < MAX_SAMPLE_POINTS then n else MAX_SAMPLE_POINTS
  }

  /** `kept` holds the least ids of `all`, as many as fit. */
  ghost predicate IsBottom(all: set<int>, kept: set<int>) {
    && kept <= all && |kept| == Least(|all|)
    && forall x, y | x in kept && y in all && y !in kept :: IdBefore(x, y)
  }

  lemma BottomUnique(all: set<int>, a: set<int>, b: set<int>)
    requires IsBottom(all, a) && IsBottom(all, b)
    ensures a == b
  {
    hide IdBefore;
    forall x | x in a ensures x in b { BottomInside(all, a, b, x); }
    forall x | x in b ensures x in a { BottomInside(all, b, a, x); }
  }

  lemma BottomInside(all: set<int>, a: set<int>, b: set<int>, x: int)
    requires IsBottom(all, a) && IsBottom(all, b) && x in a
    ensures x in b
  {
    if x !in b {
      var y := ElementOutside(b, a, x);
      assert false;
    }
  }

  /** Of two sets of one size, each has an element the other lacks, or neither has. */
  lemma ElementOutside(a: set<int>, b: set<int>, x: int) returns (y: int)
    requires |a| == |b| && x in b && x !in a
    ensures y in a && y !in b
  {
    if forall z | z in a :: z in b {
      SubsetSmaller(a, b);
      assert false;
    }
    y :| y in a && y !in b;
  }

  lemma {:induction false} SubsetSmaller(a: set<int>, b: set<int>)
    requires a <= b
    ensures |a| <= |b| && (|a| == |b| ==> a == b)
  {
    assert b == a + (b - a);
    assert |b| == |a| + |b - a|;
    if |a| == |b| { assert b - a == {}; }
  }

  /** The bottom of two bottoms together is the bottom of everything. */
  lemma BottomOfUnion(a: set<int>, b: set<int>, ka: set<int>, kb: set<int>, k: set<int>)
    requires IsBottom(a, ka) && IsBottom(b, kb) && IsBottom(ka + kb, k)
    ensures IsBottom(a + b, k)
  {
    BottomSize(a, b, ka, kb);
    forall x, y | x in k && y in a + b && y !in k ensures IdBefore(x, y) {
      if y !in ka + kb {
        if y in a { BottomBelow(a, ka, ka + kb, k, x, y); } else { BottomBelow(b, kb, ka + kb, k, x, y); }
      }
    }
  }

  lemma BottomSize(a: set<int>, b: set<int>, ka: set<int>, kb: set<int>)
    requires IsBottom(a, ka) && IsBottom(b, kb)
    ensures ka + kb <= a + b && Least(|ka + kb|) == Least(|a + b|)
  {
    SubsetSmaller(ka, ka + kb);
    SubsetSmaller(kb, ka + kb);
    SubsetSmaller(ka + kb, a + b);
    SubsetSmaller(a, a + b);
    SubsetSmaller(b, a + b);
    if |ka| < MAX_SAMPLE_POINTS && |kb| < MAX_SAMPLE_POINTS {
      SubsetSmaller(ka, a);
      SubsetSmaller(kb, b);
    }
  }

  /** What a full part dropped lies above everything that is kept in the end. */
  lemma BottomBelow(a: set<int>, ka: set<int>, union: set<int>, k: set<int>, x: int, y: int)
    requires IsBottom(a, ka) && ka <= union && IsBottom(union, k)
    requires x in k && y in a && y !in ka
    ensures IdBefore(x, y)
  {
    if x !in ka {
      SubsetSmaller(ka, a);
      assert |ka| == MAX_SAMPLE_POINTS;
      SubsetSmaller(ka, union);
      var z := ElementOutside(ka, k, x);
      assert IdBefore(x, z) && IdBefore(z, y);
    }
  }

  // ----- trimming -----

  ghost function SortedIds(m: Points): (ids: seq<int>)
    ensures Sorting.StrictlySorted(ids, IdLess()) && |ids| == |m| && forall id :: id in ids <==> id in m
  {
    IdOrder();
    Sorting.Ascending(m.Keys, IdLess())
  }

  ghost function Trimmed(m: Points): Points {
    if |m| <= MAX_SAMPLE_POINTS then m
    else m - Sorting.Elements(SortedIds(m)[MAX_SAMPLE_POINTS..])
  }

  lemma FirstAreBottom(ids: seq<int>)
    requires Sorting.StrictlySorted(ids, IdLess()) && |ids| > MAX_SAMPLE_POINTS
    ensures IsBottom(Sorting.Elements(ids), Sorting.Elements(ids[..MAX_SAMPLE_POINTS]))
    ensures Sorting.Elements(ids) - Sorting.Elements(ids[MAX_SAMPLE_POINTS..])
      == Sorting.Elements(ids[..MAX_SAMPLE_POINTS])
  {
    hide IdBefore;
    IdOrder();
    Sorting.ElementsCount(ids, IdLess());
    Sorting.ElementsCount(ids[..MAX_SAMPLE_POINTS], IdLess());
    SplitsIds(ids, MAX_SAMPLE_POINTS);
  }

  /** Trimming keeps exactly the least ids. */
  lemma TrimKeepsBottom(m: Points)
    ensures IsBottom(m.Keys, Trimmed(m).Keys)
    ensures forall id | id in Trimmed(m) :: id in m && Trimmed(m)[id] == m[id]
  {
    if |m| > MAX_SAMPLE_POINTS {
      hide IsBottom, IdBefore, IdLess;
      var ids := SortedIds(m);
      FirstAreBottom(ids);
      assert Sorting.Elements(ids) == m.Keys;
    } else {
      assert |m.Keys| == |m|;
    }
  }

  lemma SplitsIds(ids: seq<int>, n: nat)
    requires Sorting.StrictlySorted(ids, IdLess()) && n <= |ids|
    ensures forall x, y | x in ids[..n] && y in ids[n..] :: IdBefore(x, y)
    ensures forall x :: x in ids <==> x in ids[..n] || x in ids[n..]
    ensures forall x | x in ids[..n] :: x !in ids[n..]
  {
    assert ids == ids[..n] + ids[n..];
    forall x, y | x in ids[..n] && y in ids[n..] ensures IdBefore(x, y) {
      var i :| 0 <= i < n && ids[..n][i] == x;
      var j :| 0 <= j < |ids| - n && ids[n..][j] == y;
      assert IdLess()(ids[i], ids[n + j]);
    }
  }

  // ----- any order of additions and merges -----

  datatype Offer = Nothing | Added(before: Offer, point: Point) | Merged(left: Offer, right: Offer)

  function Offered(o: Offer): set<Point> {
    match o
    case Nothing => {}
    case Added(before, point) => Offered(before) + {point}
    case Merged(left, right) => Offered(left) + Offered(right)
  }

  predicate Agree(m: Points, other: Points) {
    forall id | id in m && id in other :: m[id] == other[id]
  }

  /** What the set holds in the end, unless one event came with two different points. */
  ghost function Kept(o: Offer): Option<Points> {
    match o
    case Nothing => Some(map[])
    case Added(before, point) =>
      (match Kept(before)
       case Some(m) => if Agree(m, map[point.eventID := point]) then Some(Trimmed(m[point.eventID := point])) else None
       case None => None)
    case Merged(left, right) =>
      match (Kept(left), Kept(right))
      case (Some(l), Some(r)) => if Agree(l, r) then Some(Trimmed(l + r)) else None
      case _ => None
  }

  ghost predicate Consistent(points: set<Point>) {
    && (forall p | p in points :: Genuine(p))
    && forall p, q | p in points && q in points && p.eventID == q.eventID :: p == q
  }

  ghost function Ids(points: set<Point>): set<int> {
    set p | p in points :: p.eventID
  }

  ghost predicate HoldsOf(m: Points, points: set<Point>) {
    forall id | id in m :: m[id] in points && m[id].eventID == id
  }

  /**
   Whatever the order and grouping, the set ends up with exactly the least points of everything offered,
   by priority and event id.
   */
  lemma {:induction false} KeptAreBottom(o: Offer)
    requires Consistent(Offered(o))
    ensures Kept(o).Some? && HoldsOf(Kept(o).value, Offered(o))
    ensures IsBottom(Ids(Offered(o)), Kept(o).value.Keys)
  {
    hide IsBottom, Trimmed, Genuine, HoldsOf;
    match o
    case Nothing => NothingKept();
    case Added(before, point) =>
      KeptAreBottom(before);
      var m, one := Kept(before).value, map[point.eventID := point];
      SingleBottom(point);
      AgreeWhenConsistent(m, one, Offered(before), {point});
      assert m[point.eventID := point] == m + one;
      JoinBottom(m, one, Offered(before), {point});
    case Merged(left, right) =>
      KeptAreBottom(left);
      KeptAreBottom(right);
      AgreeWhenConsistent(Kept(left).value, Kept(right).value, Offered(left), Offered(right));
      JoinBottom(Kept(left).value, Kept(right).value, Offered(left), Offered(right));
  }

  lemma NothingKept()
    ensures var none: Points := map[]; IsBottom(Ids({}), none.Keys) && HoldsOf(none, {})
  {
  }

  lemma SingleBottom(point: Point)
    ensures Ids({point}) == {point.eventID} == map[point.eventID := point].Keys
    ensures IsBottom({point.eventID}, {point.eventID}) && HoldsOf(map[point.eventID := point], {point})
  {
  }

  lemma AgreeWhenConsistent(l: Points, r: Points, a: set<Point>, b: set<Point>)
    requires HoldsOf(l, a) && HoldsOf(r, b) && Consistent(a + b)
    ensures Agree(l, r)
  {
  }

  lemma JoinBottom(l: Points, r: Points, a: set<Point>, b: set<Point>)
    requires HoldsOf(l, a) && HoldsOf(r, b)
    requires IsBottom(Ids(a), l.Keys) && IsBottom(Ids(b), r.Keys)
    ensures HoldsOf(Trimmed(l + r), a + b) && IsBottom(Ids(a + b), Trimmed(l + r).Keys)
  {
    hide IsBottom, Trimmed;
    TrimKeepsBottom(l + r);
    assert (l + r).Keys == l.Keys + r.Keys;
    assert Ids(a + b) == Ids(a) + Ids(b);
    BottomOfUnion(Ids(a), Ids(b), l.Keys, r.Keys, Trimmed(l + r).Keys);
  }

  /** Two histories over the same points leave the same set. */
  lemma HistoriesAgree(o: Offer, p: Offer)
    requires Consistent(Offered(o)) && Offered(o) == Offered(p)
    ensures Kept(o) == Kept(p)
  {
    hide IsBottom, Kept, HoldsOf, Offered, Consistent;
    KeptAreBottom(o);
    KeptAreBottom(p);
    BottomUnique(Ids(Offered(o)), Kept(o).value.Keys, Kept(p).value.Keys);
    SamePoints(Kept(o).value, Kept(p).value, Offered(o));
  }

  lemma SamePoints(m: Points, n: Points, points: set<Point>)
    requires Consistent(points) && HoldsOf(m, points) && HoldsOf(n, points) && m.Keys == n.Keys
    ensures m == n
  {
    forall id | id in m ensures id in n && m[id] == n[id] {
      assert id in n.Keys;
    }
  }
}
