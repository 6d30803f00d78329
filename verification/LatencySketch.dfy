/**
 The mergeable latency sketch: logarithmic bins over positive milliseconds, in exact reals. Bin k holds
 the values above gamma^(k-1) and up to gamma^k.
 */
module LatencySketch {
  import opened Wrappers
  import Sorting

  type Millis = v: int | 1 <= v <= 0x7fff_ffff_ffff_ffff witness 1
  type Bins = map<int, nat>

  const GAMMA: real := 101.0 / 99.0
  const MAX_COUNT: nat := 0xffff_ffff_ffff_ffff

  // ----- keys -----

  function Power(k: nat): real {
    if k == 0 then 1.0 else GAMMA * Power(k - 1)
  }

  lemma {:induction false} PowerGrows(k: nat)
    ensures Power(k) >= 1.0 + 2.0 * k as real / 99.0
  {
    if k > 0 { PowerGrows(k - 1); }
  }

  lemma {:induction false} PowerMonotone(j: nat, k: nat)
    requires j <= k
    ensures Power(j) <= Power(k)
    decreases k
  {
    if j < k {
      PowerMonotone(j, k - 1);
      PowerGrows(k - 1);
    }
  }

  function KeyFrom(v: Millis, k: nat): (r: nat)
    requires k == 0 || Power(k - 1) < v as real
    ensures Power(r) >= v as real && (r > 0 ==> Power(r - 1) < v as real)
    decreases 50 * v - k
  {
    PowerGrows(k);
    if Power(k) >= v as real then k else KeyFrom(v, k + 1)
  }

  /** The least power of gamma that is not below the value. */
  function Key(v: Millis): (r: nat)
    ensures Power(r) >= v as real && (r > 0 ==> Power(r - 1) < v as real)
  {
    KeyFrom(v, 0)
  }

  lemma KeyMonotone(v: Millis, w: Millis)
    ensures Key(v) < Key(w) ==> v < w
  {
    if Key(v) < Key(w) { PowerMonotone(Key(v), Key(w) - 1); }
  }

  lemma {:induction false} PowerAdds(j: nat, k: nat)
    ensures Power(j + k) == Power(j) * Power(k)
    decreases k
  {
    if k > 0 { PowerAdds(j, k - 1); }
  }

  lemma Squared(k: nat, bound: real)
    requires Power(k) >= bound >= 0.0
    ensures Power(2 * k) >= bound * bound
  {
    hide Power;
    PowerAdds(k, k);
    SquareMonotone(Power(k), bound);
  }

  lemma SquareMonotone(x: real, y: real)
    requires x >= y >= 0.0
    ensures x * x >= y * y
  {
    assert x * x >= x * y;
  }

  /** 64-bit milliseconds fall into at most 3201 bins. */
  lemma KeyBounded(v: Millis)
    ensures Key(v) <= 3200
  {
    hide Power;
    PowerGrows(50);
    Squared(50, 2.0);
    Squared(100, 4.0);
    Squared(200, 16.0);
    Squared(400, 256.0);
    Squared(800, 65536.0);
    Squared(1600, 4294967296.0);
    if Key(v) > 3200 { PowerMonotone(3200, Key(v) - 1); }
  }

  // ----- representative values -----

  function PowerOf(k: int): real {
    if k >= 0 then Power(k) else (PowerGrows(-k); 1.0 / Power(-k))
  }

  /** Rounds a positive real to the nearest integer, halves up. */
  function Round(x: real): int {
    (x + 0.5).Floor
  }

  function Representative(key: int): int {
    var representative := Round(2.0 * PowerOf(key) / (GAMMA + 1.0));
    if representative < 1 then 1 else if representative > MAX_INT64 then MAX_INT64 else representative
  }

  ghost predicate WithinOnePercent(r: int, v: Millis) {
    v as real - (v as real / 100.0 + 0.5) <= r as real <= v as real + (v as real / 100.0 + 0.5)
  }

  /** A bin's value is within one percent, plus rounding, of everything in the bin. */
  lemma RepresentativeClose(v: Millis)
    ensures WithinOnePercent(Representative(Key(v)), v)
  {
    var k := Key(v);
    assert v as real <= Power(k);
    if k == 0 {
      assert Power(0) == 1.0;
    } else {
      assert Power(k) == GAMMA * Power(k - 1);
      assert Power(k) < v as real * 101.0 / 99.0;
    }
    assert 2.0 * Power(k) / (GAMMA + 1.0) == Power(k) * 0.99;
  }

  // ----- bins -----

  function At(bins: Bins, key: int): nat {
    if key in bins then bins[key] else 0
  }

  function Bumped(bins: Bins, key: int, n: nat): Bins {
    bins[key := At(bins, key) + n]
  }

  ghost function Total(bins: Bins): nat
    decreases |bins|
  {
    if exists key :: key in bins then
      var key :| key in bins;
      bins[key] + Total(bins - {key})
    else 0
  }

  lemma {:induction false} TotalWithout(bins: Bins, key: int)
    requires key in bins
    ensures Total(bins) == bins[key] + Total(bins - {key})
    decreases |bins|
  {
    var first :| first in bins && Total(bins) == bins[first] + Total(bins - {first});
    if first != key {
      TotalWithout(bins - {first}, key);
      TotalWithout(bins - {key}, first);
      assert bins - {first} - {key} == bins - {key} - {first};
    }
  }

  lemma TotalBumped(bins: Bins, key: int, n: nat)
    ensures Total(Bumped(bins, key, n)) == Total(bins) + n
  {
    var bumped := Bumped(bins, key, n);
    TotalWithout(bumped, key);
    assert bumped - {key} == bins - {key};
    if key in bins {
      TotalWithout(bins, key);
    } else {
      assert bins - {key} == bins;
    }
  }

  lemma AtMostTotal(bins: Bins, key: int)
    ensures At(bins, key) <= Total(bins)
  {
    if key in bins { TotalWithout(bins, key); }
  }

  ghost predicate ValidBins(bins: Bins) {
    && (forall key | key in bins :: -0x8000_0000_0000_0000 <= key <= MAX_INT64 && bins[key] >= 1)
    && Total(bins) <= MAX_COUNT
  }

  /** The bins of a list of values, one value after another. */
  ghost function BinsOf(values: seq<Millis>): Bins {
    if values == [] then map[] else Bumped(BinsOf(values[..|values| - 1]), Key(values[|values| - 1]), 1)
  }

  // ----- counting -----

  function Count(values: seq<Millis>, p: Millis -> bool): (n: nat)
    ensures n <= |values|
  {
    if values == [] then 0
    else Count(values[..|values| - 1], p) + (if p(values[|values| - 1]) then 1 else 0)
  }

  function HasKey(key: int): Millis -> bool { (v: Millis) => Key(v) == key }

  function KeyAtMost(key: int): Millis -> bool { (v: Millis) => Key(v) <= key }

  function Less(w: int): Millis -> bool { (v: Millis) => v < w }

  function AtMost(w: int): Millis -> bool { (v: Millis) => v <= w }

  lemma {:induction false} CountConcat(a: seq<Millis>, b: seq<Millis>, p: Millis -> bool)
    ensures Count(a + b, p) == Count(a, p) + Count(b, p)
  {
    if b == [] {
      assert a + b == a;
    } else {
      CountConcat(a, b[..|b| - 1], p);
      assert (a + b)[..|a + b| - 1] == a + b[..|b| - 1];
    }
  }

  lemma {:induction false} CountImplies(values: seq<Millis>, p: Millis -> bool, q: Millis -> bool)
    requires forall v :: p(v) ==> q(v)
    ensures Count(values, p) <= Count(values, q)
  {
    if values != [] { CountImplies(values[..|values| - 1], p, q); }
  }

  lemma {:induction false} CountOccurs(values: seq<Millis>, p: Millis -> bool, i: nat)
    requires i < |values| && p(values[i])
    ensures Count(values, p) > 0
  {
    if i < |values| - 1 { CountOccurs(values[..|values| - 1], p, i); }
  }

  lemma {:induction false} CountPermuted(a: seq<Millis>, b: seq<Millis>, p: Millis -> bool)
    requires multiset(a) == multiset(b)
    ensures Count(a, p) == Count(b, p)
  {
    if a == [] {
      assert |multiset(b)| == 0;
    } else {
      var n := |a| - 1;
      var x := a[n];
      assert a == a[..n] + [x];
      assert x in multiset(b);
      var j :| 0 <= j < |b| && b[j] == x;
      var rest := b[..j] + b[j + 1..];
      assert b == b[..j] + [x] + b[j + 1..];
      assert multiset(a[..n]) == multiset(a) - multiset{x};
      assert multiset(rest) == multiset(b) - multiset{x};
      CountPermuted(a[..n], rest, p);
      CountConcat(b[..j], b[j + 1..], p);
      CountConcat(b[..j] + [x], b[j + 1..], p);
      CountConcat(b[..j], [x], p);
      CountConcat(a[..n], [x], p);
    }
  }

  /** Bins count keys: nothing else about the values is kept. */
  lemma {:induction false} BinsOfCount(values: seq<Millis>, key: int)
    ensures At(BinsOf(values), key) == Count(values, HasKey(key))
    ensures key in BinsOf(values) <==> Count(values, HasKey(key)) > 0
  {
    if values != [] { BinsOfCount(values[..|values| - 1], key); }
  }

  lemma {:induction false} BinsOfTotal(values: seq<Millis>)
    ensures Total(BinsOf(values)) == |values|
  {
    if values != [] {
      var n := |values| - 1;
      BinsOfTotal(values[..n]);
      TotalBumped(BinsOf(values[..n]), Key(values[n]), 1);
    }
  }

  /** Order and grouping of the same values make no difference. */
  lemma BinsOfPermuted(a: seq<Millis>, b: seq<Millis>)
    requires multiset(a) == multiset(b)
    ensures BinsOf(a) == BinsOf(b)
  {
    forall key ensures (key in BinsOf(a) <==> key in BinsOf(b)) && At(BinsOf(a), key) == At(BinsOf(b), key) {
      BinsOfCount(a, key);
      BinsOfCount(b, key);
      CountPermuted(a, b, HasKey(key));
    }
    SameAt(BinsOf(a), BinsOf(b));
  }

  lemma SameAt(a: Bins, b: Bins)
    requires forall key :: (key in a <==> key in b) && At(a, key) == At(b, key)
    ensures a == b
  {
    assert forall key :: key in a.Keys <==> key in b.Keys;
    assert a.Keys == b.Keys;
    forall key | key in a ensures a[key] == b[key] {
      assert At(a, key) == At(b, key);
    }
  }

  // ----- merging -----

  function MergeBins(a: Bins, b: Bins): Bins {
    map key | key in a.Keys + b.Keys :: At(a, key) + At(b, key)
  }

  lemma {:induction false} MergeTotal(a: Bins, b: Bins)
    ensures Total(MergeBins(a, b)) == Total(a) + Total(b)
    decreases |b|
  {
    hide MergeBins, Bumped;
    if exists key :: key in b {
      var key :| key in b;
      TotalWithout(b, key);
      MergeTotal(a, b - {key});
      TotalBumped(MergeBins(a, b - {key}), key, b[key]);
      MergeOneBin(a, b, key);
    } else {
      MergeNothing(a, b);
    }
  }

  lemma MergeNothing(a: Bins, b: Bins)
    requires forall key :: key !in b
    ensures MergeBins(a, b) == a && b == map[]
  {
    assert forall key :: key in MergeBins(a, b) <==> key in a;
  }

  lemma MergeOneBin(a: Bins, b: Bins, key: int)
    requires key in b
    ensures MergeBins(a, b) == Bumped(MergeBins(a, b - {key}), key, b[key])
  {
    var left, right := MergeBins(a, b), Bumped(MergeBins(a, b - {key}), key, b[key]);
    assert forall k :: k in left <==> k in right;
    forall k | k in left ensures left[k] == right[k] {}
  }

  /** Merging two sketches is the sketch of all their values together. */
  lemma MergeOfValues(a: seq<Millis>, b: seq<Millis>)
    ensures MergeBins(BinsOf(a), BinsOf(b)) == BinsOf(a + b)
  {
    forall key ensures (key in MergeBins(BinsOf(a), BinsOf(b)) <==> key in BinsOf(a + b))
                       && At(MergeBins(BinsOf(a), BinsOf(b)), key) == At(BinsOf(a + b), key)
    {
      BinsOfCount(a, key);
      BinsOfCount(b, key);
      BinsOfCount(a + b, key);
      CountConcat(a, b, HasKey(key));
    }
    SameAt(MergeBins(BinsOf(a), BinsOf(b)), BinsOf(a + b));
  }

  lemma BinsNext(values: seq<Millis>, v: Millis)
    ensures BinsOf(values + [v]) == Bumped(BinsOf(values), Key(v), 1)
  {
    assert (values + [v])[..|values|] == values;
  }

  /** Any way of building a sketch from additions and merges. */
  datatype Build = Fresh | Added(before: Build, value: Millis) | Merged(left: Build, right: Build)

  function Values(b: Build): seq<Millis> {
    match b
    case Fresh => []
    case Added(before, value) => Values(before) + [value]
    case Merged(left, right) => Values(left) + Values(right)
  }

  /** What the build leaves, unless some step reports an overflow. */
  ghost function Built(b: Build): Option<Bins> {
    match b
    case Fresh => Some(map[])
    case Added(before, value) =>
      (match Built(before)
       case Some(bins) => if Total(bins) < MAX_COUNT then Some(Bumped(bins, Key(value), 1)) else None
       case None => None)
    case Merged(left, right) =>
      match (Built(left), Built(right))
      case (Some(l), Some(r)) => if Total(l) + Total(r) <= MAX_COUNT then Some(MergeBins(l, r)) else None
      case _ => None
  }

  lemma NoBins()
    ensures BinsOf([]) == map[]
  {
  }

  /** It succeeds exactly when the values can be counted in 64 bits, and then is the sketch of them all. */
  lemma {:induction false} BuiltFromValues(b: Build)
    ensures Built(b).Some? <==> |Values(b)| <= MAX_COUNT
    ensures Built(b).Some? ==> Built(b).value == BinsOf(Values(b))
  {
    hide Key, Bumped, MergeBins, BinsOf, Total;
    match b
    case Fresh => NoBins();
    case Added(before, value) =>
      BuiltFromValues(before);
      BinsOfTotal(Values(before));
      BinsNext(Values(before), value);
    case Merged(left, right) =>
      BuiltFromValues(left);
      BuiltFromValues(right);
      BinsOfTotal(Values(left));
      BinsOfTotal(Values(right));
      MergeOfValues(Values(left), Values(right));
  }

  /** Two builds over the same values, in any order and grouping, leave the same bins. */
  lemma BuildsAgree(a: Build, b: Build)
    requires multiset(Values(a)) == multiset(Values(b))
    ensures Built(a) == Built(b)
  {
    BuiltFromValues(a);
    BuiltFromValues(b);
    assert |multiset(Values(a))| == |Values(a)| && |multiset(Values(b))| == |Values(b)|;
    BinsOfPermuted(Values(a), Values(b));
  }

  // ----- the 95th percentile -----

  /** The rank in 64-bit arithmetic. */
  function Rank(count: nat): nat {
    (count * 95 + 99) % WORD / 100
  }

  /** The nearest rank: the least whole rank that is at least 95 percent of the count. */
  predicate IsNearestRank(count: nat, rank: int) {
    100 * (rank - 1) < 95 * count <= 100 * rank
  }

  /** The multiplication wraps for huge counts, and then the rank is wrong. */
  lemma RankExact(count: nat)
    requires 1 <= count <= MAX_COUNT
    ensures IsNearestRank(count, Rank(count)) <==> count * 95 + 99 < WORD
    ensures Rank(count) <= count
  {
    var exact := count * 95 + 99;
    if exact >= WORD {
      assert exact % WORD <= exact - WORD;
      assert Rank(count) <= (exact - WORD) / 100;
    } else {
      assert exact % WORD == exact;
    }
  }

  /** Here it does wrap: a sketch of 2^61 values is read at a rank below a tenth of them, in the wrong bin. */
  lemma RankWraps()
    ensures var n, bins := 0x2000_0000_0000_0000, map[0 := 0x1000_0000_0000_0000, 1000 := 0x1000_0000_0000_0000];
      && !IsNearestRank(n, Rank(n)) && 10 * Rank(n) < n
      && ValidBins(bins) && Total(bins) == n && Selects(bins, Rank(n), 0)
      && forall rank | IsNearestRank(n, rank) :: Selects(bins, rank, 1000)
  {
    hide Total, Rank, IsNearestRank;
    TwoBins(0x1000_0000_0000_0000);
    TwoRanks();
  }

  lemma TwoRanks()
    ensures Rank(0x2000_0000_0000_0000) < 0x333_3333_3333_3333
    ensures forall rank | IsNearestRank(0x2000_0000_0000_0000, rank) ::
      0x1000_0000_0000_0000 < rank <= 0x2000_0000_0000_0000
  {
  }

  lemma TwoBins(half: nat)
    requires 0 < half
    ensures var low, bins := map[0 := half], map[0 := half, 1000 := half];
      Total(low) == half && Total(bins) == 2 * half && UpTo(bins, 0) == low && UpTo(bins, 1000) == bins
  {
    var low, bins := map[0 := half], map[0 := half, 1000 := half];
    hide Total;
    assert low == Bumped(map[], 0, half) && bins == Bumped(low, 1000, half);
    NothingUpTo(0);
    TotalBumped(map[], 0, half);
    TotalBumped(low, 1000, half);
  }

  function UpTo(bins: Bins, key: int): Bins {
    map k | k in bins && k <= key :: bins[k]
  }

  ghost function Cumulative(bins: Bins, key: int): nat {
    Total(UpTo(bins, key))
  }

  /** The first bin, in key order, at which the running count reaches the rank. */
  ghost predicate Selects(bins: Bins, rank: int, key: int) {
    && key in bins && Cumulative(bins, key) >= rank
    && forall k | k in bins && k < key :: Cumulative(bins, k) < rank
  }

  lemma {:induction false} CumulativeCounts(values: seq<Millis>, key: int)
    ensures Cumulative(BinsOf(values), key) == Count(values, KeyAtMost(key))
  {
    hide Key, Bumped, UpTo, Total;
    if values == [] {
      NothingUpTo(key);
    } else {
      var n := |values| - 1;
      CumulativeCounts(values[..n], key);
      CumulativeBumped(BinsOf(values[..n]), Key(values[n]), key);
    }
  }

  lemma NothingUpTo(key: int)
    ensures UpTo(map[], key) == map[] && Total(map[]) == 0
  {
  }

  lemma CumulativeBumped(before: Bins, k: int, key: int)
    ensures Cumulative(Bumped(before, k, 1), key) == Cumulative(before, key) + if k <= key then 1 else 0
  {
    hide Total;
    TotalBumped(UpTo(before, key), k, 1);
    if k <= key {
      assert UpTo(Bumped(before, k, 1), key) == Bumped(UpTo(before, key), k, 1);
    } else {
      assert UpTo(Bumped(before, k, 1), key) == UpTo(before, key);
    }
  }

  /** The value at a rank: fewer values lie below it, at least so many do not lie above it. */
  ghost predicate AtRank(values: seq<Millis>, rank: int, v: Millis) {
    v in values && Count(values, Less(v)) < rank <= Count(values, AtMost(v))
  }

  function IntLess(): (int, int) -> bool { (a: int, b: int) => a < b }

  /** Every rank has its value: the one the sorted values hold there. */
  lemma RankHasValue(values: seq<Millis>, rank: nat) returns (v: Millis)
    requires 1 <= rank <= |values|
    ensures AtRank(values, rank, v)
  {
    var sorted := Sorting.Sort(values, MillisLess());
    Sorting.SortSorted(values, MillisLess());
    v := sorted[rank - 1];
    assert v in sorted;
    RankInSorted(sorted, rank);
    CountPermuted(values, sorted, Less(v));
    CountPermuted(values, sorted, AtMost(v));
  }

  lemma RankInSorted(sorted: seq<Millis>, rank: nat)
    requires Sorting.Sorted(sorted, MillisLess()) && 1 <= rank <= |sorted|
    ensures var v := sorted[rank - 1]; Count(sorted, Less(v)) < rank <= Count(sorted, AtMost(v))
  {
    hide Count, Sorting.Sorted;
    SortedPairs(sorted);
    var v := sorted[rank - 1];
    var low, high := sorted[..rank - 1], sorted[rank - 1..];
    assert sorted == low + high;
    CountConcat(low, high, Less(v));
    forall i | 0 <= i < |high| ensures !Less(v)(high[i]) {
      assert high[i] == sorted[rank - 1 + i];
    }
    CountNone(high, Less(v));
    assert sorted == sorted[..rank] + sorted[rank..];
    CountConcat(sorted[..rank], sorted[rank..], AtMost(v));
    CountWhole(sorted[..rank], AtMost(v));
  }

  lemma SortedPairs(sorted: seq<Millis>)
    requires Sorting.Sorted(sorted, MillisLess())
    ensures forall i, j | 0 <= i < j < |sorted| :: sorted[i] <= sorted[j]
  {
    forall i, j | 0 <= i < j < |sorted| ensures sorted[i] <= sorted[j] {
      assert !MillisLess()(sorted[j], sorted[i]);
    }
  }

  function MillisLess(): (Millis, Millis) -> bool { (a: Millis, b: Millis) => a < b }

  lemma {:induction false} CountNone(values: seq<Millis>, p: Millis -> bool)
    requires forall i | 0 <= i < |values| :: !p(values[i])
    ensures Count(values, p) == 0
  {
    if values != [] { CountNone(values[..|values| - 1], p); }
  }

  lemma {:induction false} CountWhole(values: seq<Millis>, p: Millis -> bool)
    requires forall i | 0 <= i < |values| :: p(values[i])
    ensures Count(values, p) == |values|
  {
    if values != [] { CountWhole(values[..|values| - 1], p); }
  }

  /** The selected bin is the bin of the value at that rank, whichever equal value stands there. */
  lemma SelectedBin(values: seq<Millis>, rank: nat, key: int, v: Millis)
    requires Selects(BinsOf(values), rank, key) && AtRank(values, rank, v)
    ensures key == Key(v)
  {
    var i :| 0 <= i < |values| && values[i] == v;
    CountOccurs(values, HasKey(Key(v)), i);
    BinsOfCount(values, Key(v));
    CumulativeCounts(values, Key(v));
    CumulativeCounts(values, key);
    forall w: Millis ensures AtMost(v)(w) ==> KeyAtMost(Key(v))(w) { KeyMonotone(v, w); }
    CountImplies(values, AtMost(v), KeyAtMost(Key(v)));
    if key < Key(v) {
      forall w: Millis ensures KeyAtMost(key)(w) ==> Less(v)(w) { KeyMonotone(w, v); }
      CountImplies(values, KeyAtMost(key), Less(v));
    }
  }

  /**
   The percentile of any sketch of up to about 1.9e17 values: the representative of the bin that holds
   the nearest-rank sample, within one percent plus half a millisecond of it.
   */
  lemma P95Accurate(b: Build, key: int, v: Millis)
    requires Built(b).Some? && |Values(b)| > 0 && |Values(b)| * 95 + 99 < WORD
    requires Selects(Built(b).value, Rank(|Values(b)|), key)
    requires AtRank(Values(b), Rank(|Values(b)|), v)
    ensures IsNearestRank(|Values(b)|, Rank(|Values(b)|))
    ensures key == Key(v) && WithinOnePercent(Representative(key), v)
  {
    BuiltFromValues(b);
    RankExact(|Values(b)|);
    SelectedBin(Values(b), Rank(|Values(b)|), key, v);
    RepresentativeClose(v);
  }
}
