/**
 Activity bucket boundaries. Instants are nanoseconds since the Unix epoch; local days are whatever
 strictly increasing whole-second midnights the project's time zone yields.
 */
module ActivityGrain {
  import opened Wrappers

  const HEATMAP_BLOCKS := 364
  const SECOND := 1_000_000_000
  const MEDIUM_WINDOW_SECONDS := 7 * 24 * 60 * 60
  const LONG_WINDOW_SECONDS := 30 * 24 * 60 * 60

  datatype Grain = Short | Medium | Long | Daily | Unsupported

  /** A half-open interval of instants. */
  datatype Bucket = Bucket(start: int, end: int)

  // ----- arithmetic -----

  /** Go's integer division and remainder truncate toward zero. */
  function Quotient(value: int, divisor: int): int
    requires divisor != 0
  {
    if value >= 0 then value / divisor else -((-value) / divisor)
  }

  function Remainder(value: int, divisor: int): int
    requires divisor != 0
  {
    value - Quotient(value, divisor) * divisor
  }

  function FloorDiv(value: int, divisor: int): int
    requires divisor != 0
  {
    if Remainder(value, divisor) < 0 then Quotient(value, divisor) - 1 else Quotient(value, divisor)
  }

  /** For positive divisors the correction gives the mathematical floor, before the epoch as after it. */
  lemma FloorDivFloors(value: int, divisor: int)
    requires divisor > 0
    ensures FloorDiv(value, divisor) * divisor <= value < (FloorDiv(value, divisor) + 1) * divisor
  {
    if value < 0 {
      var q := (-value) / divisor;
      assert q * divisor <= -value < (q + 1) * divisor;
      assert Quotient(value, divisor) * divisor == -(q * divisor);
    }
  }

  lemma FloorUnique(value: int, divisor: int, q: int)
    requires divisor > 0 && q * divisor <= value < (q + 1) * divisor
    ensures FloorDiv(value, divisor) == q
  {
    FloorDivFloors(value, divisor);
    var f := FloorDiv(value, divisor);
    if f < q {
      MulMonotone(f + 1, q, divisor);
    } else if q < f {
      MulMonotone(q + 1, f, divisor);
    }
  }

  lemma MulMonotone(a: int, b: int, w: int)
    requires a <= b && w >= 0
    ensures a * w <= b * w
  {
  }

  /** Whole seconds since the epoch, as `time.Time.Unix` gives them. */
  function Unix(t: int): int {
    t / SECOND
  }

  // ----- boundaries at floor(index * window / 364) -----

  function BoundarySeconds(windowSeconds: int, index: int): int {
    FloorDiv(index * windowSeconds, HEATMAP_BLOCKS)
  }

  /** The one comparison every bucket search needs, free of rounding. */
  lemma BoundaryReached(windowSeconds: int, index: int, seconds: int)
    ensures BoundarySeconds(windowSeconds, index) <= seconds
      <==> index * windowSeconds <= HEATMAP_BLOCKS * seconds + 363
  {
    FloorDivFloors(index * windowSeconds, HEATMAP_BLOCKS);
  }

  lemma SecondsReached(t: int, seconds: int)
    ensures seconds * SECOND <= t <==> seconds <= Unix(t)
  {
  }

  lemma WholeWindow(windowSeconds: int, index: int)
    ensures BoundarySeconds(windowSeconds, index + HEATMAP_BLOCKS)
      == BoundarySeconds(windowSeconds, index) + windowSeconds
    ensures BoundarySeconds(windowSeconds, 0) == 0
  {
    FloorDivFloors(index * windowSeconds, HEATMAP_BLOCKS);
    assert (index + HEATMAP_BLOCKS) * windowSeconds == index * windowSeconds + HEATMAP_BLOCKS * windowSeconds;
    FloorUnique((index + HEATMAP_BLOCKS) * windowSeconds, HEATMAP_BLOCKS,
      BoundarySeconds(windowSeconds, index) + windowSeconds);
  }

  lemma WidthsAlmostEqual(windowSeconds: int, index: int)
    ensures var width := BoundarySeconds(windowSeconds, index + 1) - BoundarySeconds(windowSeconds, index);
      FloorDiv(windowSeconds, HEATMAP_BLOCKS) <= width <= FloorDiv(windowSeconds, HEATMAP_BLOCKS) + 1
  {
    FloorDivFloors(index * windowSeconds, HEATMAP_BLOCKS);
    FloorDivFloors((index + 1) * windowSeconds, HEATMAP_BLOCKS);
    FloorDivFloors(windowSeconds, HEATMAP_BLOCKS);
    assert (index + 1) * windowSeconds == index * windowSeconds + windowSeconds;
  }

  lemma {:induction false} BoundariesIncrease(windowSeconds: int, i: int, j: int)
    requires windowSeconds >= HEATMAP_BLOCKS && i < j
    ensures BoundarySeconds(windowSeconds, i) < BoundarySeconds(windowSeconds, j)
    decreases j - i
  {
    WidthsAlmostEqual(windowSeconds, j - 1);
    FloorDivFloors(windowSeconds, HEATMAP_BLOCKS);
    if i < j - 1 {
      BoundariesIncrease(windowSeconds, i, j - 1);
    }
  }

  ghost predicate Brackets(windowSeconds: int, seconds: int, index: int) {
    index * windowSeconds <= HEATMAP_BLOCKS * seconds + 363 < (index + 1) * windowSeconds
  }

  /** The index of the bucket that holds `seconds`. */
  ghost function IndexAt(windowSeconds: int, seconds: int): (index: int)
    requires windowSeconds > 0
    ensures Brackets(windowSeconds, seconds, index)
  {
    QuotientBrackets(windowSeconds, seconds);
    var index :| Brackets(windowSeconds, seconds, index);
    index
  }

  lemma QuotientBrackets(windowSeconds: int, seconds: int)
    requires windowSeconds > 0
    ensures exists index :: Brackets(windowSeconds, seconds, index)
  {
    FloorDivFloors(HEATMAP_BLOCKS * seconds + 363, windowSeconds);
    assert Brackets(windowSeconds, seconds, FloorDiv(HEATMAP_BLOCKS * seconds + 363, windowSeconds));
  }

  lemma BracketsUnique(windowSeconds: int, seconds: int, i: int, k: int)
    requires windowSeconds > 0 && Brackets(windowSeconds, seconds, i) && Brackets(windowSeconds, seconds, k)
    ensures i == k
  {
    if i < k { MulMonotone(i + 1, k, windowSeconds); }
    if k < i { MulMonotone(k + 1, i, windowSeconds); }
  }

  lemma IndexAtHolds(windowSeconds: int, seconds: int)
    requires windowSeconds > 0
    ensures var i := IndexAt(windowSeconds, seconds);
      BoundarySeconds(windowSeconds, i) <= seconds < BoundarySeconds(windowSeconds, i + 1)
  {
    var i := IndexAt(windowSeconds, seconds);
    BoundaryReached(windowSeconds, i, seconds);
    BoundaryReached(windowSeconds, i + 1, seconds);
  }

  lemma IndexAtUnique(windowSeconds: int, seconds: int, i: int)
    requires windowSeconds > 0
    requires BoundarySeconds(windowSeconds, i) <= seconds < BoundarySeconds(windowSeconds, i + 1)
    ensures i == IndexAt(windowSeconds, seconds)
  {
    BoundaryReached(windowSeconds, i, seconds);
    BoundaryReached(windowSeconds, i + 1, seconds);
    BracketsUnique(windowSeconds, seconds, i, IndexAt(windowSeconds, seconds));
  }

  /** The proportional estimate is the index or one below it. */
  lemma EstimateClose(windowSeconds: int, seconds: int)
    requires windowSeconds >= HEATMAP_BLOCKS
    ensures var e := FloorDiv(seconds * HEATMAP_BLOCKS, windowSeconds);
      e <= IndexAt(windowSeconds, seconds) <= e + 1
  {
    var e := FloorDiv(seconds * HEATMAP_BLOCKS, windowSeconds);
    FloorDivFloors(seconds * HEATMAP_BLOCKS, windowSeconds);
    var k := IndexAt(windowSeconds, seconds);
    if k < e { MulMonotone(k + 1, e, windowSeconds); }
    assert (e + 2) * windowSeconds == (e + 1) * windowSeconds + windowSeconds;
    if e + 2 <= k { MulMonotone(e + 2, k, windowSeconds); }
  }

  // ----- fixed windows -----

  function FixedBoundary(windowSeconds: int, index: int): int {
    BoundarySeconds(windowSeconds, index) * SECOND
  }

  function FixedBucket(windowSeconds: int, index: int): Bucket {
    Bucket(FixedBoundary(windowSeconds, index), FixedBoundary(windowSeconds, index + 1))
  }

  predicate Holds(b: Bucket, t: int) {
    b.start <= t < b.end
  }

  lemma FixedHolds(windowSeconds: int, index: int, t: int)
    ensures Holds(FixedBucket(windowSeconds, index), t) <==>
      BoundarySeconds(windowSeconds, index) <= Unix(t) < BoundarySeconds(windowSeconds, index + 1)
  {
    SecondsReached(t, BoundarySeconds(windowSeconds, index));
    SecondsReached(t, BoundarySeconds(windowSeconds, index + 1));
  }

  /** Exactly one fixed bucket contains an instant, before the epoch or after it. */
  lemma FixedBucketExactlyOne(windowSeconds: int, t: int, index: int)
    requires windowSeconds > 0
    ensures Holds(FixedBucket(windowSeconds, index), t) <==> index == IndexAt(windowSeconds, Unix(t))
  {
    FixedHolds(windowSeconds, index, t);
    IndexAtHolds(windowSeconds, Unix(t));
    if Holds(FixedBucket(windowSeconds, index), t) {
      IndexAtUnique(windowSeconds, Unix(t), index);
    }
  }

  lemma FixedBoundaryReached(windowSeconds: int, index: int, t: int)
    requires windowSeconds > 0
    ensures FixedBoundary(windowSeconds, index) <= t <==> index <= IndexAt(windowSeconds, Unix(t))
  {
    SecondsReached(t, BoundarySeconds(windowSeconds, index));
    IndexReached(windowSeconds, index, Unix(t));
  }

  lemma IndexReached(windowSeconds: int, index: int, seconds: int)
    requires windowSeconds > 0
    ensures BoundarySeconds(windowSeconds, index) <= seconds <==> index <= IndexAt(windowSeconds, seconds)
  {
    BoundaryReached(windowSeconds, index, seconds);
    var k := IndexAt(windowSeconds, seconds);
    if index <= k { MulMonotone(index, k, windowSeconds); } else { MulMonotone(k + 1, index, windowSeconds); }
  }

  /** Estimate, then correct: the first loop moves at most once, the second never. */
  method FixedBucketIndex(t: int, windowSeconds: int) returns (index: int, ghost up: int, ghost down: int)
    requires windowSeconds >= HEATMAP_BLOCKS
    ensures index == IndexAt(windowSeconds, Unix(t))
    ensures Holds(FixedBucket(windowSeconds, index), t)
    ensures 0 <= up <= 1 && down == 0
  {
    index := FloorDiv(Unix(t) * HEATMAP_BLOCKS, windowSeconds);
    EstimateClose(windowSeconds, Unix(t));
    ghost var goal := IndexAt(windowSeconds, Unix(t));
    ghost var estimate := index;
    while !(t < FixedBoundary(windowSeconds, index + 1))
      invariant estimate <= index <= goal
      decreases goal - index
    {
      FixedBoundaryReached(windowSeconds, index + 1, t);
      index := index + 1;
    }
    FixedBoundaryReached(windowSeconds, index + 1, t);
    up := index - estimate;
    ghost var raised := index;
    index := LowerFixedIndex(t, windowSeconds, index);
    down := raised - index;
    FixedBucketExactlyOne(windowSeconds, t, index);
  }

  /** The downward correction brings any index at or above the right one back to it. */
  method LowerFixedIndex(t: int, windowSeconds: int, from: int) returns (index: int)
    requires windowSeconds >= HEATMAP_BLOCKS && from >= IndexAt(windowSeconds, Unix(t))
    ensures index == IndexAt(windowSeconds, Unix(t))
  {
    index := from;
    while t < FixedBoundary(windowSeconds, index)
      invariant index >= IndexAt(windowSeconds, Unix(t))
      decreases index - IndexAt(windowSeconds, Unix(t))
    {
      FixedBoundaryReached(windowSeconds, index, t);
      index := index - 1;
    }
    FixedBoundaryReached(windowSeconds, index, t);
  }

  lemma BoundariesIncreaseOrEqual(windowSeconds: int, i: int, j: int)
    requires windowSeconds >= HEATMAP_BLOCKS && i <= j
    ensures BoundarySeconds(windowSeconds, i) <= BoundarySeconds(windowSeconds, j)
    ensures FixedBoundary(windowSeconds, i) <= FixedBoundary(windowSeconds, j)
  {
    if i < j { BoundariesIncrease(windowSeconds, i, j); }
  }

  /** Any 364 consecutive fixed buckets span the window exactly, in widths at most a second apart. */
  lemma FixedWindowExact(windowSeconds: int, first: int, i: int, j: int)
    ensures FixedBoundary(windowSeconds, first + HEATMAP_BLOCKS) - FixedBoundary(windowSeconds, first)
      == windowSeconds * SECOND
    ensures var wi := FixedBucket(windowSeconds, i).end - FixedBucket(windowSeconds, i).start;
      var wj := FixedBucket(windowSeconds, j).end - FixedBucket(windowSeconds, j).start;
      -SECOND <= wi - wj <= SECOND
  {
    WholeWindow(windowSeconds, first);
    WidthsAlmostEqual(windowSeconds, i);
    WidthsAlmostEqual(windowSeconds, j);
  }

  function FixedWindowSeconds(grain: Grain): Option<int> {
    match grain
    case Medium => Some(MEDIUM_WINDOW_SECONDS)
    case Long => Some(LONG_WINDOW_SECONDS)
    case _ => None
  }

  // ----- local days -----

  /**
   The time zone: the midnight (epoch seconds) of each local day, the day an instant is in, and the instant
   at which the local clock hour of an instant began.
   */
  datatype Calendar = Calendar(midnight: int -> int, dayOf: int -> int, hourStart: int -> int)

  /** Days follow each other, each at least 364 seconds long, and every second lies in its day. */
  ghost predicate ValidCalendar(c: Calendar) {
    && (forall d: int, e: int | e == d + 1 :: c.midnight(d) + HEATMAP_BLOCKS <= c.midnight(e))
    && (forall s: int :: c.midnight(c.dayOf(s)) <= s < c.midnight(c.dayOf(s) + 1))
  }

  function DaySeconds(c: Calendar, d: int): int {
    c.midnight(d + 1) - c.midnight(d)
  }

  function CalendarBoundary(c: Calendar, d: int, index: int): int {
    (c.midnight(d) + BoundarySeconds(DaySeconds(c, d), index)) * SECOND
  }

  function CalendarBucket(c: Calendar, d: int, index: int): Bucket {
    Bucket(CalendarBoundary(c, d, index), CalendarBoundary(c, d, index + 1))
  }

  ghost function ShortIndex(c: Calendar, t: int): int
    requires ValidCalendar(c)
  {
    var d := c.dayOf(Unix(t));
    IndexAt(DaySeconds(c, d), Unix(t) - c.midnight(d))
  }

  ghost function ShortBucket(c: Calendar, t: int): Bucket
    requires ValidCalendar(c)
  {
    CalendarBucket(c, c.dayOf(Unix(t)), ShortIndex(c, t))
  }

  lemma {:induction false} MidnightsIncrease(c: Calendar, d: int, e: int)
    requires ValidCalendar(c) && d < e
    ensures c.midnight(d) + HEATMAP_BLOCKS <= c.midnight(e)
    decreases e - d
  {
    if d < e - 1 {
      MidnightsIncrease(c, d, e - 1);
      assert c.midnight(e - 1) + HEATMAP_BLOCKS <= c.midnight(e - 1 + 1);
    } else {
      assert c.midnight(d) + HEATMAP_BLOCKS <= c.midnight(d + 1);
    }
  }

  lemma DayUnique(c: Calendar, s: int, d: int)
    requires ValidCalendar(c) && c.midnight(d) <= s < c.midnight(d + 1)
    ensures c.dayOf(s) == d
  {
    var e := c.dayOf(s);
    assert c.midnight(e) <= s < c.midnight(e + 1);
    if e < d {
      if e + 1 < d { MidnightsIncrease(c, e + 1, d); }
    } else if d < e {
      if d + 1 < e { MidnightsIncrease(c, d + 1, e); }
    }
  }

  lemma CalendarHolds(c: Calendar, d: int, index: int, t: int)
    ensures Holds(CalendarBucket(c, d, index), t) <==>
      BoundarySeconds(DaySeconds(c, d), index) <= Unix(t) - c.midnight(d) < BoundarySeconds(DaySeconds(c, d), index + 1)
  {
    SecondsReached(t, c.midnight(d) + BoundarySeconds(DaySeconds(c, d), index));
    SecondsReached(t, c.midnight(d) + BoundarySeconds(DaySeconds(c, d), index + 1));
  }

  lemma ShortIndexInDay(c: Calendar, t: int)
    requires ValidCalendar(c)
    ensures 0 <= ShortIndex(c, t) < HEATMAP_BLOCKS
    ensures Holds(ShortBucket(c, t), t)
  {
    var d := c.dayOf(Unix(t));
    var w := DaySeconds(c, d);
    assert c.midnight(d) + HEATMAP_BLOCKS <= c.midnight(d + 1);
    var s := Unix(t) - c.midnight(d);
    var i := ShortIndex(c, t);
    if i < 0 { MulMonotone(i + 1, 0, w); }
    if i >= HEATMAP_BLOCKS { MulMonotone(HEATMAP_BLOCKS, i, w); }
    IndexAtHolds(w, s);
    CalendarHolds(c, d, i, t);
  }

  /** A bucket of a day is the storage bucket of exactly the instants inside it. */
  lemma ShortBucketExactly(c: Calendar, d: int, index: int, t: int)
    requires ValidCalendar(c) && 0 <= index < HEATMAP_BLOCKS
    ensures Holds(CalendarBucket(c, d, index), t) <==> c.dayOf(Unix(t)) == d && ShortIndex(c, t) == index
  {
    var w := DaySeconds(c, d);
    assert c.midnight(d) + HEATMAP_BLOCKS <= c.midnight(d + 1);
    CalendarHolds(c, d, index, t);
    if Holds(CalendarBucket(c, d, index), t) {
      WholeWindow(w, 0);
      BoundariesIncreaseOrEqual(w, 0, index);
      BoundariesIncreaseOrEqual(w, index + 1, HEATMAP_BLOCKS);
      DayUnique(c, Unix(t), d);
      IndexAtUnique(w, Unix(t) - c.midnight(d), index);
    }
    ShortIndexInDay(c, t);
  }

  lemma SameStorageBucket(c: Calendar, t: int, u: int)
    requires ValidCalendar(c) && Holds(ShortBucket(c, t), u)
    ensures ShortBucket(c, u) == ShortBucket(c, t)
  {
    ShortIndexInDay(c, t);
    ShortBucketExactly(c, c.dayOf(Unix(t)), ShortIndex(c, t), u);
  }

  lemma CalendarBoundaryReached(c: Calendar, d: int, index: int, t: int)
    requires DaySeconds(c, d) > 0
    ensures CalendarBoundary(c, d, index) <= t <==> index <= IndexAt(DaySeconds(c, d), Unix(t) - c.midnight(d))
  {
    SecondsReached(t, c.midnight(d) + BoundarySeconds(DaySeconds(c, d), index));
    IndexReached(DaySeconds(c, d), index, Unix(t) - c.midnight(d));
  }

  method ShortBucketForTimestamp(c: Calendar, t: int) returns (b: Bucket)
    requires ValidCalendar(c)
    ensures b == ShortBucket(c, t) && Holds(b, t)
  {
    var day := c.dayOf(Unix(t));
    var dayStart := c.midnight(day);
    var windowSeconds := c.midnight(day + 1) - dayStart;
    assert c.midnight(day) + HEATMAP_BLOCKS <= c.midnight(day + 1);
    ghost var goal := ShortIndex(c, t);
    ShortIndexInDay(c, t);
    EstimateClose(windowSeconds, Unix(t) - dayStart);
    var index := FloorDiv((Unix(t) - dayStart) * HEATMAP_BLOCKS, windowSeconds);
    while index + 1 < HEATMAP_BLOCKS && !(t < CalendarBoundary(c, day, index + 1))
      invariant index <= goal
      decreases goal - index
    {
      CalendarBoundaryReached(c, day, index + 1, t);
      index := index + 1;
    }
    CalendarBoundaryReached(c, day, index + 1, t);
    index := LowerShortIndex(c, t, index);
    b := CalendarBucket(c, day, index);
  }

  method LowerShortIndex(c: Calendar, t: int, from: int) returns (index: int)
    requires ValidCalendar(c) && from >= ShortIndex(c, t)
    ensures index == ShortIndex(c, t)
  {
    var day := c.dayOf(Unix(t));
    ShortIndexInDay(c, t);
    index := from;
    while index > 0 && t < CalendarBoundary(c, day, index)
      invariant index >= ShortIndex(c, t)
      decreases index
    {
      CalendarBoundaryReached(c, day, index, t);
      index := index - 1;
    }
    CalendarBoundaryReached(c, day, index, t);
  }

  /** A bucket of a day is never empty, and is the storage bucket of its first and last instant. */
  lemma DayBucket(c: Calendar, d: int, index: int)
    requires ValidCalendar(c) && 0 <= index < HEATMAP_BLOCKS
    ensures var b := CalendarBucket(c, d, index);
      b.start < b.end && ShortBucket(c, b.start) == b && ShortBucket(c, b.end - 1) == b
  {
    var b := CalendarBucket(c, d, index);
    assert c.midnight(d) + HEATMAP_BLOCKS <= c.midnight(d + 1);
    BoundariesIncrease(DaySeconds(c, d), index, index + 1);
    ShortBucketExactly(c, d, index, b.start);
    ShortBucketExactly(c, d, index, b.end - 1);
  }

  /** The last boundary of a day is the first of the next. */
  lemma Midnight(c: Calendar, d: int)
    ensures CalendarBoundary(c, d, HEATMAP_BLOCKS) == CalendarBoundary(c, d + 1, 0) == c.midnight(d + 1) * SECOND
  {
    WholeWindow(DaySeconds(c, d), 0);
    WholeWindow(DaySeconds(c, d + 1), 0);
  }

  /** Where one storage bucket starts, another one ends, also across midnight. */
  lemma Preceding(c: Calendar, t: int)
    requires ValidCalendar(c)
    ensures ShortBucket(c, ShortBucket(c, t).start - 1).end == ShortBucket(c, t).start
  {
    hide ValidCalendar, BoundarySeconds, DaySeconds, IndexAt;
    ShortIndexInDay(c, t);
    PrecedingInDay(c, c.dayOf(Unix(t)), ShortIndex(c, t));
  }

  lemma LastInstant(c: Calendar, d: int, i: int, end: int)
    requires ValidCalendar(c) && 0 <= i < HEATMAP_BLOCKS && end == CalendarBucket(c, d, i).end
    ensures ShortBucket(c, end - 1).end == end
  {
    hide ValidCalendar, ShortBucket, CalendarBoundary;
    DayBucket(c, d, i);
  }

  lemma PrecedingInDay(c: Calendar, d: int, i: int)
    requires ValidCalendar(c) && 0 <= i < HEATMAP_BLOCKS
    ensures ShortBucket(c, CalendarBoundary(c, d, i) - 1).end == CalendarBoundary(c, d, i)
  {
    hide ValidCalendar, ShortBucket, BoundarySeconds, DaySeconds;
    if i > 0 {
      LastInstant(c, d, i - 1, CalendarBoundary(c, d, i));
    } else {
      Midnight(c, d - 1);
      LastInstant(c, d - 1, 363, CalendarBoundary(c, d, i));
    }
  }

  lemma FirstInstant(c: Calendar, d: int, i: int, start: int)
    requires ValidCalendar(c) && 0 <= i < HEATMAP_BLOCKS && start == CalendarBucket(c, d, i).start
    ensures ShortBucket(c, start).start == start
  {
    hide ValidCalendar, ShortBucket, CalendarBoundary;
    DayBucket(c, d, i);
  }

  lemma FollowingInDay(c: Calendar, d: int, i: int)
    requires ValidCalendar(c) && 0 <= i < HEATMAP_BLOCKS
    ensures ShortBucket(c, CalendarBoundary(c, d, i + 1)).start == CalendarBoundary(c, d, i + 1)
  {
    hide ValidCalendar, ShortBucket, BoundarySeconds, DaySeconds;
    if i < 363 {
      FirstInstant(c, d, i + 1, CalendarBoundary(c, d, i + 1));
    } else {
      Midnight(c, d);
      FirstInstant(c, d + 1, 0, CalendarBoundary(c, d, i + 1));
    }
  }

  /** An instant at which some local bucket begins. */
  ghost predicate Boundary(c: Calendar, x: int)
    requires ValidCalendar(c)
  {
    ShortBucket(c, x).start == x
  }

  /** The end of a storage bucket is where the next begins, also across midnight. */
  lemma EndIsBoundary(c: Calendar, t: int)
    requires ValidCalendar(c)
    ensures Boundary(c, ShortBucket(c, t).end)
  {
    ShortIndexInDay(c, t);
    FollowingInDay(c, c.dayOf(Unix(t)), ShortIndex(c, t));
  }

  ghost predicate Contiguous(buckets: seq<Bucket>) {
    forall i | 0 <= i < |buckets| - 1 :: buckets[i].end == buckets[i + 1].start
  }

  /** Each bucket is the storage bucket of every instant inside it, and there is one. */
  ghost predicate AllStored(c: Calendar, buckets: seq<Bucket>)
    requires ValidCalendar(c)
  {
    forall i | 0 <= i < |buckets| :: Stored(c, buckets[i])
  }

  ghost predicate Stored(c: Calendar, b: Bucket)
    requires ValidCalendar(c)
  {
    b.start < b.end && forall t | Holds(b, t) :: ShortBucket(c, t) == b
  }

  lemma BucketStored(c: Calendar, t: int)
    requires ValidCalendar(c)
    ensures Stored(c, ShortBucket(c, t))
  {
    ShortIndexInDay(c, t);
    forall u | Holds(ShortBucket(c, t), u) ensures ShortBucket(c, u) == ShortBucket(c, t) {
      SameStorageBucket(c, t, u);
    }
  }

  /** The window the heat map shows: 364 storage buckets up to the least boundary at or after `end`. */
  ghost predicate ShortWindow(c: Calendar, buckets: seq<Bucket>, referenceEnd: int)
    requires ValidCalendar(c)
  {
    && |buckets| == HEATMAP_BLOCKS
    && Contiguous(buckets)
    && AllStored(c, buckets)
    && referenceEnd <= buckets[363].end
    && Boundary(c, buckets[363].end)
    && (forall x | referenceEnd <= x && Boundary(c, x) :: buckets[363].end <= x)
  }

  method ShortWindowEndingAt(c: Calendar, referenceEnd: int) returns (buckets: seq<Bucket>)
    requires ValidCalendar(c)
    ensures ShortWindow(c, buckets, referenceEnd)
  {
    var containing := ShortBucketForTimestamp(c, referenceEnd);
    var cursor := containing.start;
    if referenceEnd != containing.start {
      cursor := containing.end;
    }
    LeastBoundary(c, referenceEnd, cursor);
    buckets := ShortBucketsBefore(c, cursor);
  }

  /** Walks back bucket by bucket, across midnights of days of any length. */
  method ShortBucketsBefore(c: Calendar, end: int) returns (buckets: seq<Bucket>)
    requires ValidCalendar(c) && Boundary(c, end)
    ensures |buckets| == HEATMAP_BLOCKS && Contiguous(buckets) && AllStored(c, buckets)
    ensures buckets[363].end == end
  {
    hide ValidCalendar, ShortBucket, Stored, Boundary, Contiguous, AllStored;
    var cursor := end;
    buckets := [];
    NothingWalked(c);
    var index := HEATMAP_BLOCKS - 1;
    while index >= 0
      invariant -1 <= index <= 363 && |buckets| == 363 - index
      invariant Boundary(c, cursor)
      invariant Contiguous(buckets) && AllStored(c, buckets)
      invariant if buckets == [] then cursor == end else cursor == buckets[0].start && buckets[|buckets| - 1].end == end
      decreases index
    {
      var bucket := ShortBucketForTimestamp(c, cursor - 1);
      StepBack(c, cursor, bucket);
      Prepend(c, bucket, buckets);
      buckets := [bucket] + buckets;
      cursor := bucket.start;
      index := index - 1;
    }
  }

  lemma NothingWalked(c: Calendar)
    requires ValidCalendar(c)
    ensures Contiguous([]) && AllStored(c, [])
  {
  }

  lemma StepBack(c: Calendar, cursor: int, bucket: Bucket)
    requires ValidCalendar(c) && Boundary(c, cursor) && bucket == ShortBucket(c, cursor - 1)
    ensures bucket.end == cursor && Stored(c, bucket) && Boundary(c, bucket.start)
  {
    hide ValidCalendar, ShortBucket, Stored;
    Preceding(c, cursor);
    BucketStored(c, cursor - 1);
    StartIsBoundary(c, cursor - 1);
  }

  lemma Prepend(c: Calendar, bucket: Bucket, buckets: seq<Bucket>)
    requires ValidCalendar(c) && Contiguous(buckets) && AllStored(c, buckets) && Stored(c, bucket)
    requires buckets != [] ==> bucket.end == buckets[0].start
    ensures Contiguous([bucket] + buckets) && AllStored(c, [bucket] + buckets)
  {
    var all := [bucket] + buckets;
    forall i | 0 <= i < |all| ensures Stored(c, all[i]) {
      if i > 0 { assert Stored(c, buckets[i - 1]); }
    }
    forall i | 0 <= i < |all| - 1 ensures all[i].end == all[i + 1].start {
      if i > 0 { assert buckets[i - 1].end == buckets[i].start; }
    }
  }

  lemma StartIsBoundary(c: Calendar, t: int)
    requires ValidCalendar(c)
    ensures Boundary(c, ShortBucket(c, t).start)
  {
    ShortIndexInDay(c, t);
    SameStorageBucket(c, t, ShortBucket(c, t).start);
  }

  lemma LeastBoundary(c: Calendar, referenceEnd: int, cursor: int)
    requires ValidCalendar(c)
    requires cursor == if referenceEnd == ShortBucket(c, referenceEnd).start then referenceEnd
      else ShortBucket(c, referenceEnd).end
    ensures Boundary(c, cursor) && referenceEnd <= cursor
    ensures forall x | referenceEnd <= x && Boundary(c, x) :: cursor <= x
  {
    ShortIndexInDay(c, referenceEnd);
    StartIsBoundary(c, referenceEnd);
    EndIsBoundary(c, referenceEnd);
    forall x | referenceEnd <= x && Boundary(c, x) ensures cursor <= x {
      if x < cursor {
        SameStorageBucket(c, referenceEnd, x);
      }
    }
  }

  // ----- all grains -----

  function DailyBucket(c: Calendar, d: int): Bucket {
    Bucket(c.midnight(d) * SECOND, c.midnight(d + 1) * SECOND)
  }

  /** The storage bucket of an instant, per grain. */
  ghost function BucketOf(c: Calendar, grain: Grain, t: int): Option<Bucket>
    requires ValidCalendar(c)
  {
    match grain
    case Short => Some(ShortBucket(c, t))
    case Daily => Some(DailyBucket(c, c.dayOf(Unix(t))))
    case Medium => Some(FixedBucket(MEDIUM_WINDOW_SECONDS, IndexAt(MEDIUM_WINDOW_SECONDS, Unix(t))))
    case Long => Some(FixedBucket(LONG_WINDOW_SECONDS, IndexAt(LONG_WINDOW_SECONDS, Unix(t))))
    case Unsupported => None
  }

  /** Per grain, every instant of a bucket has that bucket as its own; so a start determines its end. */
  lemma BucketOwns(c: Calendar, grain: Grain, t: int, u: int)
    requires ValidCalendar(c) && !grain.Unsupported?
    ensures var b := BucketOf(c, grain, t).value;
      && Holds(b, t) && (Holds(b, u) ==> BucketOf(c, grain, u) == Some(b))
      && BucketOf(c, grain, b.start) == Some(b)
  {
    hide ValidCalendar, Unix, FixedBucket, DailyBucket, ShortBucket, CalendarBucket;
    var start := BucketOf(c, grain, t).value.start;
    match grain
    case Short =>
      ShortBucketHolds(c, t);
      if Holds(ShortBucket(c, t), u) { SameStorageBucket(c, t, u); }
      SameStorageBucket(c, t, start);
    case Daily =>
      DailyHolds(c, c.dayOf(Unix(t)), t);
      DailyHolds(c, c.dayOf(Unix(t)), u);
      DailyHolds(c, c.dayOf(Unix(t)), start);
    case Medium => FixedOwns(MEDIUM_WINDOW_SECONDS, t, u); FixedOwns(MEDIUM_WINDOW_SECONDS, t, start);
    case Long => FixedOwns(LONG_WINDOW_SECONDS, t, u); FixedOwns(LONG_WINDOW_SECONDS, t, start);
  }

  lemma ShortBucketHolds(c: Calendar, t: int)
    requires ValidCalendar(c)
    ensures Holds(ShortBucket(c, t), t)
  {
    ShortIndexInDay(c, t);
    ShortBucketExactly(c, c.dayOf(Unix(t)), ShortIndex(c, t), t);
  }

  lemma FixedOwns(windowSeconds: int, t: int, u: int)
    requires windowSeconds > 0
    ensures var b := FixedBucket(windowSeconds, IndexAt(windowSeconds, Unix(t)));
      Holds(b, t) && (Holds(b, u) ==> FixedBucket(windowSeconds, IndexAt(windowSeconds, Unix(u))) == b)
  {
    FixedBucketExactlyOne(windowSeconds, t, IndexAt(windowSeconds, Unix(t)));
    FixedBucketExactlyOne(windowSeconds, u, IndexAt(windowSeconds, Unix(t)));
  }

  /** The given division, of a whole number of seconds from some start, that an instant lies in. */
  ghost predicate InPart(b: Bucket, from: int, seconds: int, i: int, t: int) {
    && b.start == (from + i * seconds / 364) * 1_000_000_000
    && b.end == (from + (i + 1) * seconds / 364) * 1_000_000_000
    && b.start <= t < b.end
  }

  ghost predicate InDayPart(c: Calendar, b: Bucket, d: int, i: int, t: int) {
    0 <= i < 364 && InPart(b, c.midnight(d), c.midnight(d + 1) - c.midnight(d), i, t)
  }

  /**
   Short buckets divide each local day in 364, with boundaries on whole seconds; medium ones divide every seven
   days since the epoch in 364, long ones every thirty; daily ones are the local days.
   */
  lemma BucketMeaning(c: Calendar, grain: Grain, t: int)
    requires ValidCalendar(c)
    ensures BucketOf(c, grain, t).Some? <==> grain in {Short, Medium, Long, Daily}
    ensures grain.Short? ==> exists d, i :: InDayPart(c, BucketOf(c, grain, t).value, d, i, t)
    ensures grain.Medium? ==> exists i :: InPart(BucketOf(c, grain, t).value, 0, 7 * 86_400, i, t)
    ensures grain.Long? ==> exists i :: InPart(BucketOf(c, grain, t).value, 0, 30 * 86_400, i, t)
    ensures grain.Daily? ==> exists d ::
      BucketOf(c, grain, t) == Some(Bucket(c.midnight(d) * 1_000_000_000, c.midnight(d + 1) * 1_000_000_000))
      && c.midnight(d) * 1_000_000_000 <= t < c.midnight(d + 1) * 1_000_000_000
  {
    hide ValidCalendar, BoundarySeconds, IndexAt;
    match grain
    case Short =>
      var d, i := c.dayOf(Unix(t)), ShortIndex(c, t);
      ShortIndexInDay(c, t);
      BoundaryIs(DaySeconds(c, d), i);
      BoundaryIs(DaySeconds(c, d), i + 1);
      assert InDayPart(c, ShortBucket(c, t), d, i, t);
    case Medium => FixedMeaning(7 * 86_400, t);
    case Long => FixedMeaning(30 * 86_400, t);
    case Daily => DailyHolds(c, c.dayOf(Unix(t)), t);
    case Unsupported =>
  }

  lemma BoundaryIs(windowSeconds: int, index: int)
    ensures BoundarySeconds(windowSeconds, index) == index * windowSeconds / 364
  {
    var x := index * windowSeconds;
    FloorUnique(x, 364, x / 364);
  }

  lemma FixedMeaning(windowSeconds: int, t: int)
    requires windowSeconds > 0
    ensures var i := IndexAt(windowSeconds, Unix(t)); InPart(FixedBucket(windowSeconds, i), 0, windowSeconds, i, t)
  {
    hide BoundarySeconds, IndexAt;
    var i := IndexAt(windowSeconds, Unix(t));
    FixedBucketExactlyOne(windowSeconds, t, i);
    BoundaryIs(windowSeconds, i);
    BoundaryIs(windowSeconds, i + 1);
  }

  method BucketForTimestamp(c: Calendar, grain: Grain, t: int) returns (r: Option<Bucket>)
    requires ValidCalendar(c)
    ensures r == BucketOf(c, grain, t)
    ensures r.Some? <==> !grain.Unsupported?
    ensures r.Some? ==> Holds(r.value, t)
  {
    if grain.Short? {
      var b := ShortBucketForTimestamp(c, t);
      return Some(b);
    }
    if grain.Daily? {
      var d := c.dayOf(Unix(t));
      DailyHolds(c, d, t);
      return Some(DailyBucket(c, d));
    }
    var window := FixedWindowSeconds(grain);
    if window.None? {
      return None;
    }
    var index, up, down := FixedBucketIndex(t, window.value);
    r := Some(FixedBucket(window.value, index));
  }

  /**
   For every supported grain the window is 364 contiguous buckets covering the reference instant, and
   each of them is the storage bucket of every instant inside it.
   */
  ghost predicate QueryWindow(c: Calendar, grain: Grain, buckets: seq<Bucket>, referenceEnd: int)
    requires ValidCalendar(c)
  {
    && |buckets| == HEATMAP_BLOCKS
    && Contiguous(buckets)
    && (forall i, t | 0 <= i < HEATMAP_BLOCKS && Holds(buckets[i], t) :: BucketOf(c, grain, t) == Some(buckets[i]))
    && buckets[363].start < referenceEnd <= buckets[363].end
  }

  lemma ShortWindowQueries(c: Calendar, buckets: seq<Bucket>, referenceEnd: int)
    requires ValidCalendar(c) && ShortWindow(c, buckets, referenceEnd)
    ensures QueryWindow(c, Short, buckets, referenceEnd)
  {
    forall i, t | 0 <= i < HEATMAP_BLOCKS && Holds(buckets[i], t) ensures BucketOf(c, Short, t) == Some(buckets[i]) {
      assert Stored(c, buckets[i]);
    }
    var last := buckets[363];
    assert Stored(c, last) && Holds(last, last.start);
    if referenceEnd <= last.start {
      assert Boundary(c, last.start);
    }
  }

  method WindowEndingAt(c: Calendar, grain: Grain, referenceEnd: int) returns (r: Option<seq<Bucket>>)
    requires ValidCalendar(c)
    ensures r.Some? <==> !grain.Unsupported?
    ensures r.Some? ==> QueryWindow(c, grain, r.value, referenceEnd) && |r.value| == 364
    ensures grain.Medium? ==> r.value[363].end - r.value[0].start == 7 * 86_400_000_000_000
    ensures grain.Long? ==> r.value[363].end - r.value[0].start == 30 * 86_400_000_000_000
  {
    if grain.Short? {
      var short := ShortWindowEndingAt(c, referenceEnd);
      ShortWindowQueries(c, short, referenceEnd);
      return Some(short);
    }
    if grain.Daily? {
      var daily := DailyWindowEndingAt(c, referenceEnd);
      return Some(daily);
    }
    var window := FixedWindowSeconds(grain);
    if window.None? {
      return None;
    }
    var fixed := FixedWindowEndingAt(c, grain, window.value, referenceEnd);
    r := Some(fixed);
  }

  method DailyWindowEndingAt(c: Calendar, referenceEnd: int) returns (buckets: seq<Bucket>)
    requires ValidCalendar(c)
    ensures QueryWindow(c, Daily, buckets, referenceEnd)
  {
    var end := c.dayOf(Unix(referenceEnd));
    DailyHolds(c, end, referenceEnd);
    assert c.midnight(end - 1) + HEATMAP_BLOCKS <= c.midnight(end - 1 + 1);
    if referenceEnd != c.midnight(end) * SECOND {
      end := end + 1;
    }
    buckets := [];
    for index := 0 to HEATMAP_BLOCKS
      invariant |buckets| == index
      invariant forall i | 0 <= i < index :: buckets[i] == DailyBucket(c, end - HEATMAP_BLOCKS + i)
    {
      buckets := buckets + [DailyBucket(c, end - HEATMAP_BLOCKS + index)];
    }
    DailyWindowQueries(c, buckets, end, referenceEnd);
  }

  lemma DailyWindowQueries(c: Calendar, buckets: seq<Bucket>, end: int, referenceEnd: int)
    requires ValidCalendar(c) && |buckets| == HEATMAP_BLOCKS
    requires forall i | 0 <= i < HEATMAP_BLOCKS :: buckets[i] == DailyBucket(c, end - HEATMAP_BLOCKS + i)
    requires c.midnight(end - 1) * SECOND < referenceEnd <= c.midnight(end) * SECOND
    ensures QueryWindow(c, Daily, buckets, referenceEnd)
  {
    forall i, t | 0 <= i < HEATMAP_BLOCKS && Holds(buckets[i], t) ensures BucketOf(c, Daily, t) == Some(buckets[i]) {
      DailyHolds(c, end - HEATMAP_BLOCKS + i, t);
    }
    forall i | 0 <= i < HEATMAP_BLOCKS - 1 ensures buckets[i].end == buckets[i + 1].start {
      assert end - HEATMAP_BLOCKS + (i + 1) == end - HEATMAP_BLOCKS + i + 1;
    }
  }

  /** A local day's bucket contains exactly the instants of that day. */
  lemma DailyHolds(c: Calendar, d: int, t: int)
    requires ValidCalendar(c)
    ensures Holds(DailyBucket(c, d), t) <==> c.dayOf(Unix(t)) == d
  {
    SecondsReached(t, c.midnight(d));
    SecondsReached(t, c.midnight(d + 1));
    assert c.midnight(c.dayOf(Unix(t))) <= Unix(t) < c.midnight(c.dayOf(Unix(t)) + 1);
    if Holds(DailyBucket(c, d), t) { DayUnique(c, Unix(t), d); }
  }

  method FixedWindowEndingAt(c: Calendar, ghost grain: Grain, windowSeconds: int, referenceEnd: int)
      returns (buckets: seq<Bucket>)
    requires ValidCalendar(c) && FixedWindowSeconds(grain) == Some(windowSeconds)
    ensures QueryWindow(c, grain, buckets, referenceEnd)
    ensures buckets[363].end - buckets[0].start == windowSeconds * SECOND
  {
    var endIndex, up, down := FixedBucketIndex(referenceEnd, windowSeconds);
    var containing := FixedBucket(windowSeconds, endIndex);
    BoundariesIncrease(windowSeconds, endIndex - 1, endIndex);
    if referenceEnd != containing.start {
      endIndex := endIndex + 1;
    }
    buckets := [];
    var startIndex := endIndex - HEATMAP_BLOCKS;
    for offset := 0 to HEATMAP_BLOCKS
      invariant |buckets| == offset
      invariant forall i | 0 <= i < offset :: buckets[i] == FixedBucket(windowSeconds, startIndex + i)
    {
      buckets := buckets + [FixedBucket(windowSeconds, startIndex + offset)];
    }
    FixedWindowQueries(c, grain, windowSeconds, buckets, startIndex, referenceEnd);
  }

  lemma FixedWindowQueries(c: Calendar, grain: Grain, windowSeconds: int, buckets: seq<Bucket>, first: int,
      referenceEnd: int)
    requires ValidCalendar(c) && FixedWindowSeconds(grain) == Some(windowSeconds) && |buckets| == HEATMAP_BLOCKS
    requires forall i | 0 <= i < HEATMAP_BLOCKS :: buckets[i] == FixedBucket(windowSeconds, first + i)
    requires FixedBucket(windowSeconds, first + 363).start < referenceEnd <= FixedBucket(windowSeconds, first + 363).end
    ensures QueryWindow(c, grain, buckets, referenceEnd)
    ensures buckets[363].end - buckets[0].start == windowSeconds * SECOND
  {
    hide ValidCalendar, BoundarySeconds, IndexAt;
    WholeWindow(windowSeconds, first);
    forall i, t | 0 <= i < HEATMAP_BLOCKS && Holds(buckets[i], t) ensures BucketOf(c, grain, t) == Some(buckets[i]) {
      FixedBucketExactlyOne(windowSeconds, t, first + i);
    }
  }
}
