/**
 Chronology of the written segments: those of a window, while its cycle stays in memory, are ordered and
 never overlap as long as every segment that is opened behind a tail starts no earlier than the tail ends.
 Producers build point observations only (first and last instant equal,
 internal/quota/codex_quota_history.go:92-103), and those always do.
 */
module QuotaHistoryChronology {
  import opened QuotaHistory
  import opened QuotaHistoryInvariants
  import opened QuotaHistoryRuns
  import Sorting

  ghost predicate Point(candidate: Candidate) {
    candidate.observation.firstObservedAt == candidate.observation.lastObservedAt
  }

  /** The observation begins a segment of its own, pending or deferred. */
  predicate Opens(b: Batch, key: Key, c: Current, o: Observation) {
    match Judge(c, o)
    case Reject => false
    case Change => true
    case Calibrate => !Live(c, SealTail(b, key).pending)
    case Extend => !Live(c, b.pending) && key !in b.stable
  }

  /** A segment opened behind a tail starts no earlier than the tail ends. */
  predicate Clear(b: Batch, key: Key, c: Current, o: Observation) {
    Opens(b, key, c, o) && c.found && c.hasTail ==> c.lastObservedAt <= o.firstObservedAt
  }

  predicate ClearCandidate(b: Batch, candidate: Candidate, load: Loader, now: Time) {
    var o := Keyed(candidate);
    var key := KeyOf(o);
    Admissible(candidate) ==>
      if key in b.current then Clear(b, key, b.current[key], o)
      else key !in b.failed && load(key).Some? ==> Clear(b, key, Loaded(load(key).value, now), o)
  }

  predicate ClearBatch(s: State, candidates: seq<Candidate>, load: Loader, now: Time) {
    forall m | 0 <= m < |candidates| :: ClearCandidate(Met(s, candidates, m, load, now), candidates[m], load, now)
  }

  /** Every candidate of every batch, as it is met. */
  ghost predicate ClearRun(inputs: seq<Input>) {
    forall n | 0 <= n < |inputs| ::
      ClearBatch(StateAfter(inputs[..n]), Ordered(inputs[n].candidates, inputs[n].identities), inputs[n].load,
        inputs[n].now)
  }

  /** A point observation is never behind the tail it is accepted for. */
  lemma PointIsClear(b: Batch, candidate: Candidate, load: Loader, now: Time)
    requires Point(candidate)
    ensures ClearCandidate(b, candidate, load, now)
  {
  }

  /** Each segment ends no later than the next begins. */
  ghost predicate Chronological(s: seq<Observation>) {
    && (forall i | 0 <= i < |s| :: s[i].firstObservedAt <= s[i].lastObservedAt)
    && (forall i, j | 0 <= i < j < |s| :: s[i].lastObservedAt <= s[j].firstObservedAt)
  }

  /** The floor of a window: the end of what is already stored for it, as far as memory knows. */
  type Floors = map<Key, Time>

  ghost predicate FloorHolds(b: Batch, floors: Floors, k: Key)
    requires k in floors
  {
    && k in b.current && b.current[k].found && b.current[k].hasTail
    && floors[k] <= b.current[k].lastObservedAt
    && (k in b.stable ==> floors[k] <= b.stable[k].observation.firstObservedAt)
  }

  ghost predicate InPlace(b: Batch, floors: Floors, i: nat)
    requires i < |b.pending|
  {
    var p := b.pending[i];
    var k := KeyOf(p);
    && p.firstObservedAt <= p.lastObservedAt
    && k in b.current && b.current[k].found && b.current[k].hasTail
    && p.lastObservedAt <= b.current[k].lastObservedAt
    && (k in floors ==> floors[k] <= p.firstObservedAt)
  }

  ghost predicate Chrono(b: Batch, floors: Floors) {
    && (forall k | k in floors :: FloorHolds(b, floors, k))
    && (forall i: nat | i < |b.pending| :: InPlace(b, floors, i))
    && (forall i: nat, j: nat | i < j < |b.pending| && KeyOf(b.pending[i]) == KeyOf(b.pending[j]) ::
          b.pending[i].lastObservedAt <= b.pending[j].firstObservedAt)
  }

  /** The end of every window's tail is that of a segment in the batch, or of what is stored. */
  ghost predicate Tight(b: Batch, floors: Floors) {
    forall k | k in b.current && b.current[k].found && b.current[k].hasTail :: EndKnown(b, floors, k)
  }

  ghost predicate EndKnown(b: Batch, floors: Floors, k: Key)
    requires k in b.current
  {
    k in b.stable || k in KeysOf(b.pending) || (k in floors && floors[k] == b.current[k].lastObservedAt)
  }

  lemma EnactTight(b: Batch, floors: Floors, key: Key, o: Observation)
    requires Inv(b) && Tight(b, floors) && key in b.current && KeyOf(o) == key && WellFormed(o)
    ensures Tight(Enact(b, key, b.current[key], o).batch, floors)
  {
    var b' := Enact(b, key, b.current[key], o).batch;
    EnactKeys(b, key, o);
    forall k | k in b'.current && b'.current[k].found && b'.current[k].hasTail ensures EndKnown(b', floors, k) {
      if k != key || b' == b { assert EndKnown(b, floors, k); }
    }
  }

  lemma EnactKeys(b: Batch, key: Key, o: Observation)
    requires Inv(b) && key in b.current && KeyOf(o) == key && WellFormed(o)
    ensures var b' := Enact(b, key, b.current[key], o).batch;
      && (forall k | k in b'.current && k != key :: k in b.current && b'.current[k] == b.current[k])
      && (forall k | k in b.stable || k in KeysOf(b.pending) :: k in b'.stable || k in KeysOf(b'.pending))
      && (b' == b || key in b'.stable || key in KeysOf(b'.pending))
  {
    hide SameCycle, WellFormed, Inv, Mirrors, OutOfOrder, BoundaryUpdated;
    var b' := Enact(b, key, b.current[key], o).batch;
    if Live(b.current[key], b.pending) { LiveKeyed(b, key); }
    PendingGrows(b, key, o);
    SameKeys(b.pending, b'.pending);
    if |b'.pending| > |b.pending| {
      assert KeyOf(b'.pending[|b'.pending| - 1]) == key;
    } else if Live(b.current[key], b.pending) {
      assert KeyOf(b'.pending[b.current[key].pendingIndex]) == key;
    }
  }

  lemma LiveKeyed(b: Batch, key: Key)
    requires Inv(b) && key in b.current && Live(b.current[key], b.pending)
    ensures KeyOf(b.pending[b.current[key].pendingIndex]) == key && key !in b.stable
  {
    assert IndexMirrors(b, key);
    if key in b.stable { DeferredOrPending(b, key); }
  }

  lemma PendingGrows(b: Batch, key: Key, o: Observation)
    requires Inv(b) && key in b.current && KeyOf(o) == key && WellFormed(o)
    ensures var b' := Enact(b, key, b.current[key], o).batch;
      && |b.pending| <= |b'.pending|
      && (forall i | 0 <= i < |b.pending| :: KeyOf(b'.pending[i]) == KeyOf(b.pending[i]))
      && (|b'.pending| > |b.pending| ==> KeyOf(b'.pending[|b'.pending| - 1]) == key)
  {
    assert IndexMirrors(b, key);
  }

  lemma SameKeys(s: seq<Observation>, t: seq<Observation>)
    requires |s| <= |t| && forall i | 0 <= i < |s| :: KeyOf(t[i]) == KeyOf(s[i])
    ensures KeysOf(s) <= KeysOf(t)
  {
  }

  /** Appending a segment of `key` that starts where everything known of the key has ended. */
  lemma AppendChrono(b: Batch, floors: Floors, key: Key, c: Current, o: Observation)
    requires Chrono(b, floors)
    requires KeyOf(o) == key && c.found && c.hasTail && o.firstObservedAt <= o.lastObservedAt == c.lastObservedAt
    requires key in b.current && b.current[key].hasTail ==> b.current[key].lastObservedAt <= o.firstObservedAt
    requires key !in b.stable
    ensures Chrono(AppendLive(b, key, c, o), floors)
  {
    var b' := AppendLive(b, key, c, o);
    forall k | k in floors ensures FloorHolds(b', floors, k) { assert FloorHolds(b, floors, k); }
    forall i: nat | i < |b'.pending| ensures InPlace(b', floors, i) {
      if i < |b.pending| { assert InPlace(b, floors, i); }
      else { assert key in floors ==> FloorHolds(b, floors, key); }
    }
    forall i: nat, j: nat | i < j < |b'.pending| && KeyOf(b'.pending[i]) == KeyOf(b'.pending[j])
      ensures b'.pending[i].lastObservedAt <= b'.pending[j].firstObservedAt
    {
      assert InPlace(b, floors, i);
    }
  }

  lemma SealTailChrono(b: Batch, floors: Floors, key: Key)
    requires Inv(b) && Chrono(b, floors)
    ensures Chrono(SealTail(b, key), floors)
  {
    var s := SealTail(b, key);
    if key in b.stable {
      assert StableMirrors(b, key);
      DeferredOrPending(b, key);
      forall k | k in floors ensures FloorHolds(s, floors, k) { assert FloorHolds(b, floors, k); }
      forall i: nat | i < |s.pending| ensures InPlace(s, floors, i) {
        if i < |b.pending| { assert InPlace(b, floors, i); }
        else { assert key in floors ==> FloorHolds(b, floors, key); }
      }
      forall i: nat | i < |b.pending| ensures KeyOf(b.pending[i]) != key {
        assert KeyOf(b.pending[i]) in KeysOf(b.pending);
      }
    }
  }

  lemma UpdateLiveChrono(b: Batch, floors: Floors, key: Key, c: Current, p: Observation)
    requires Inv(b) && Chrono(b, floors) && key in b.current && Live(b.current[key], b.pending)
    requires c.pendingIndex == b.current[key].pendingIndex && c.found && c.hasTail
    requires b.current[key].lastObservedAt <= c.lastObservedAt
    requires KeyOf(p) == key && p.firstObservedAt == b.pending[c.pendingIndex].firstObservedAt
    requires p.firstObservedAt <= p.lastObservedAt <= c.lastObservedAt
    ensures Chrono(b.(pending := b.pending[c.pendingIndex := p], current := b.current[key := c]), floors)
  {
    var b' := b.(pending := b.pending[c.pendingIndex := p], current := b.current[key := c]);
    assert IndexMirrors(b, key);
    forall k | k in floors ensures FloorHolds(b', floors, k) {
      assert FloorHolds(b, floors, k);
      if k == key {
        assert StableAbsent(b, key) by { if key in b.stable { DeferredOrPending(b, key); } }
      }
    }
    forall i: nat | i < |b'.pending| ensures InPlace(b', floors, i) { assert InPlace(b, floors, i); }
    forall i: nat, j: nat | i < j < |b'.pending| && KeyOf(b'.pending[i]) == KeyOf(b'.pending[j])
      ensures b'.pending[i].lastObservedAt <= b'.pending[j].firstObservedAt
    {
      assert PendingReferenced(b, j);
    }
  }

  ghost predicate StableAbsent(b: Batch, k: Key) {
    k !in b.stable
  }

  lemma NoTailNothingKnown(b: Batch, floors: Floors, key: Key)
    requires Inv(b) && Chrono(b, floors) && key in b.current
    requires !b.current[key].found || !b.current[key].hasTail
    ensures key !in floors && key !in b.stable && key !in KeysOf(b.pending)
  {
    assert key in floors ==> FloorHolds(b, floors, key);
    assert key in b.stable ==> StableMirrors(b, key);
    forall i: nat | i < |b.pending| ensures KeyOf(b.pending[i]) != key { assert InPlace(b, floors, i); }
  }

  lemma ChangeChrono(b: Batch, floors: Floors, key: Key, o: Observation)
    requires Inv(b) && Chrono(b, floors) && key in b.current && KeyOf(o) == key && WellFormed(o)
    requires Clear(b, key, b.current[key], o) && Judge(b.current[key], o) == Change
    ensures Chrono(AppendLive(SealTail(b, key), key, Changed(b.current[key], o), o), floors)
  {
    var c := b.current[key];
    SealTailChrono(b, floors, key);
    if c.found && c.hasTail {
      AppendChrono(SealTail(b, key), floors, key, Changed(c, o), o);
    } else {
      NoTailNothingKnown(b, floors, key);
      var b' := AppendLive(b, key, Changed(c, o), o);
      forall k | k in floors ensures FloorHolds(b', floors, k) { assert FloorHolds(b, floors, k); }
      forall i: nat | i < |b'.pending| ensures InPlace(b', floors, i) {
        if i < |b.pending| {
          assert InPlace(b, floors, i);
          assert KeyOf(b.pending[i]) in KeysOf(b.pending);
        }
      }
      forall i: nat, j: nat | i < j < |b'.pending| && KeyOf(b'.pending[i]) == KeyOf(b'.pending[j])
        ensures b'.pending[i].lastObservedAt <= b'.pending[j].firstObservedAt
      {
        assert KeyOf(b.pending[i]) in KeysOf(b.pending);
      }
    }
  }

  lemma DeferChrono(b: Batch, floors: Floors, key: Key, o: Observation)
    requires Inv(b) && Chrono(b, floors) && key in b.current && KeyOf(o) == key && WellFormed(o)
    requires Clear(b, key, b.current[key], o) && Judge(b.current[key], o) == Extend
    requires !Live(b.current[key], b.pending)
    ensures Chrono(Enact(b, key, b.current[key], o).batch, floors)
  {
    var b' := Enact(b, key, b.current[key], o).batch;
    forall k | k in floors ensures FloorHolds(b', floors, k) { assert FloorHolds(b, floors, k); }
    forall i: nat | i < |b'.pending| ensures InPlace(b', floors, i) { assert InPlace(b, floors, i); }
  }

  lemma EnactChrono(b: Batch, floors: Floors, key: Key, o: Observation)
    requires Inv(b) && Chrono(b, floors) && key in b.current && KeyOf(o) == key && WellFormed(o)
    requires Clear(b, key, b.current[key], o)
    ensures Chrono(Enact(b, key, b.current[key], o).batch, floors)
  {
    var c := b.current[key];
    assert IndexMirrors(b, key);
    match Judge(c, o)
    case Reject =>
    case Change => ChangeChrono(b, floors, key, o);
    case Calibrate =>
      SealTailChrono(b, floors, key);
      if key in b.stable { assert StableMirrors(b, key); }
      if Live(c, b.pending) {
        assert InPlace(b, floors, c.pendingIndex);
        UpdateLiveChrono(b, floors, key, Calibrated(c, o), CalibratedSegment(b.pending[c.pendingIndex], o));
      } else {
        AppendChrono(SealTail(b, key), floors, key, Calibrated(c, o), o.(remainingPercent := c.remainingPercent));
      }
    case Extend =>
      if Live(c, b.pending) {
        assert InPlace(b, floors, c.pendingIndex);
        UpdateLiveChrono(b, floors, key, Calibrated(c, o).(lastObservedAt := o.lastObservedAt),
                         ExtendedSegment(b.pending[c.pendingIndex], o, BoundaryUpdated(c, o)));
      } else {
        DeferChrono(b, floors, key, o);
      }
  }

  /** Loading a window with a stored tail raises its floor to that tail's end. */
  ghost predicate Raises(floors: Floors, floors': Floors) {
    forall k | k in floors :: k in floors' && floors'[k] == floors[k]
  }

  lemma LoadChrono(b: Batch, floors: Floors, key: Key, stored: Stored, now: Time) returns (floors': Floors)
    requires Inv(b) && Chrono(b, floors) && key !in b.current
    ensures Chrono(b.(current := b.current[key := Loaded(stored, now)]), floors') && Raises(floors, floors')
    ensures stored.Found? && stored.hasTail ==> key in floors' && floors'[key] == stored.tailLastObservedAt
    ensures Tight(b, floors) ==> Tight(b.(current := b.current[key := Loaded(stored, now)]), floors')
  {
    var b' := b.(current := b.current[key := Loaded(stored, now)]);
    assert key in floors ==> FloorHolds(b, floors, key);
    assert key in b.stable ==> StableMirrors(b, key);
    floors' := if stored.Found? && stored.hasTail then floors[key := stored.tailLastObservedAt] else floors;
    forall k | k in floors' ensures FloorHolds(b', floors', k) {
      if k != key { assert FloorHolds(b, floors, k); }
    }
    forall i: nat | i < |b'.pending| ensures InPlace(b', floors', i) { assert InPlace(b, floors, i); }
    if Tight(b, floors) {
      forall k | k in b'.current && b'.current[k].found && b'.current[k].hasTail ensures EndKnown(b', floors', k) {
        if k != key { assert EndKnown(b, floors, k); }
      }
    }
  }

  lemma MergeChrono(b: Batch, floors: Floors, candidate: Candidate, load: Loader, now: Time) returns (floors': Floors)
    requires Inv(b) && Chrono(b, floors) && ClearCandidate(b, candidate, load, now)
    ensures Chrono(Merge(b, candidate, load, now).batch, floors') && Raises(floors, floors')
    ensures Tight(b, floors) ==> Tight(Merge(b, candidate, load, now).batch, floors')
  {
    hide Tight, Enact;
    var o := Keyed(candidate);
    var key := KeyOf(o);
    floors' := floors;
    if Admissible(candidate) {
      if key in b.current {
        EnactChrono(b, floors, key, o);
        if Tight(b, floors) { EnactTight(b, floors, key, o); }
      } else if key !in b.failed && load(key).Some? {
        floors' := LoadChrono(b, floors, key, load(key).value, now);
        LoadInv(b, key, load(key).value, now);
        var loaded := b.(current := b.current[key := Loaded(load(key).value, now)]);
        EnactChrono(loaded, floors', key, o);
        if Tight(b, floors) { EnactTight(loaded, floors', key, o); }
      } else {
        RenamedChrono(b, Merge(b, candidate, load, now).batch, floors);
      }
    }
  }

  lemma RenamedChrono(b: Batch, b': Batch, floors: Floors)
    requires Chrono(b, floors) && b'.current == b.current && b'.stable == b.stable && b'.pending == b.pending
    ensures Chrono(b', floors) && (Tight(b, floors) ==> Tight(b', floors))
  {
    forall k | k in floors ensures FloorHolds(b', floors, k) { assert FloorHolds(b, floors, k); }
    forall i: nat | i < |b'.pending| ensures InPlace(b', floors, i) { assert InPlace(b, floors, i); }
    if Tight(b, floors) {
      forall k | k in b'.current && b'.current[k].found && b'.current[k].hasTail
        ensures EndKnown(b', floors, k)
      {
        assert EndKnown(b, floors, k);
      }
    }
  }

  lemma ClearPrefix(s: State, candidates: seq<Candidate>, n: nat, load: Loader, now: Time)
    requires ClearBatch(s, candidates, load, now) && n <= |candidates|
    ensures ClearBatch(s, candidates[..n], load, now)
    ensures n < |candidates| ==>
      ClearCandidate(MergeAll(Opened(s), candidates[..n], load, now).batch, candidates[n], load, now)
  {
    hide ClearCandidate, MergeAll;
    forall m | 0 <= m < n ensures ClearCandidate(Met(s, candidates[..n], m, load, now), candidates[..n][m], load, now) {
      assert candidates[..n][..m] == candidates[..m];
    }
    assert n < |candidates| ==> ClearCandidate(Met(s, candidates, n, load, now), candidates[n], load, now);
  }

  lemma {:induction false} MergeAllChrono(s: State, floors: Floors, candidates: seq<Candidate>, load: Loader, now: Time)
    returns (floors': Floors)
    requires Settled(s) && Chrono(Opened(s), floors)
    requires ClearBatch(s, candidates, load, now)
    ensures Chrono(MergeAll(Opened(s), candidates, load, now).batch, floors') && Raises(floors, floors')
    ensures Tight(Opened(s), floors) ==> Tight(MergeAll(Opened(s), candidates, load, now).batch, floors')
  {
    hide Tight, Chrono, Merge;
    floors' := floors;
    if candidates != [] {
      var n := |candidates| - 1;
      MergeAllInv(s, candidates[..n], load, now);
      ClearPrefix(s, candidates, n, load, now);
      var f := MergeAllChrono(s, floors, candidates[..n], load, now);
      floors' := MergeChrono(MergeAll(Opened(s), candidates[..n], load, now).batch, f, candidates[n], load, now);
    }
  }

  // ----- what one batch hands the writer, per window -----

  function Of(s: seq<Observation>, k: Key): seq<Observation> {
    Sorting.Filter(s, IsOf(k))
  }

  function IsOf(k: Key): Observation -> bool {
    o => KeyOf(o) == k
  }

  ghost predicate OrderedPerKey(s: seq<Observation>) {
    && (forall i | 0 <= i < |s| :: s[i].firstObservedAt <= s[i].lastObservedAt)
    && (forall i, j | 0 <= i < j < |s| && KeyOf(s[i]) == KeyOf(s[j]) :: s[i].lastObservedAt <= s[j].firstObservedAt)
  }

  lemma {:induction false} OfChronological(s: seq<Observation>, k: Key)
    requires OrderedPerKey(s)
    ensures Chronological(Of(s, k))
  {
    if s != [] {
      OfChronological(s[1..], k);
      var t := Of(s[1..], k);
      forall j | 0 <= j < |t| && KeyOf(s[0]) == k ensures s[0].lastObservedAt <= t[j].firstObservedAt {
        assert t[j] in t && t[j] in s[1..];
        var m :| 0 <= m < |s[1..]| && s[1..][m] == t[j];
        assert s[m + 1] == t[j];
      }
    }
  }

  /** The writer's stable sort leaves each window's segments in the order they arose. */
  lemma SortKeepsOrder(s: seq<Observation>, k: Key)
    requires OrderedPerKey(s)
    ensures Of(Sorting.Sort(s, SegmentLess), k) == Of(s, k)
  {
    SegmentOrder();
    OfChronological(s, k);
    Sorting.FilterSort(s, SegmentLess, IsOf(k));
    var f := Of(s, k);
    forall i, j | 0 <= i < j < |f| ensures !SegmentLess(f[j], f[i]) {
      assert f[i] in f && f[j] in f;
    }
    Sorting.SortOfSorted(f, SegmentLess);
  }

  lemma TailFacts(b: Batch, cohorts: set<Cohort>, due: set<Key>)
    requires Inv(b) && due <= b.stable.Keys
    ensures var tails := DueSegments(Marked(b, cohorts), due);
      && (forall i | 0 <= i < |tails| :: KeyOf(tails[i]) in due && tails[i] == b.stable[KeyOf(tails[i])].observation)
      && (forall i, j | 0 <= i < j < |tails| :: KeyOf(tails[i]) != KeyOf(tails[j]))
  {
    KeyOrder();
    var m := Marked(b, cohorts);
    var keys := Sorting.Ascending(due, KeyLess);
    var tails := DueSegments(m, due);
    forall i | 0 <= i < |tails|
      ensures KeyOf(tails[i]) == keys[i] && keys[i] in due && tails[i] == b.stable[keys[i]].observation
    {
      assert keys[i] in keys;
      assert StableMirrors(b, keys[i]);
    }
    forall i, j | 0 <= i < j < |tails| ensures KeyOf(tails[i]) != KeyOf(tails[j]) {
      KeyLessTotal(keys[i], keys[j]);
    }
  }

  ghost predicate Within(b: Batch, floors: Floors, o: Observation) {
    var k := KeyOf(o);
    && o.firstObservedAt <= o.lastObservedAt
    && k in b.current && o.lastObservedAt <= b.current[k].lastObservedAt
    && (k in floors ==> floors[k] <= o.firstObservedAt)
  }

  /** Pending segments and the tails of other windows together are ordered per window. */
  lemma UnsortedWithin(b: Batch, floors: Floors, tails: seq<Observation>)
    requires Inv(b) && Chrono(b, floors)
    requires forall i | 0 <= i < |tails| ::
      KeyOf(tails[i]) in b.stable && tails[i] == b.stable[KeyOf(tails[i])].observation
    requires forall i, j | 0 <= i < j < |tails| :: KeyOf(tails[i]) != KeyOf(tails[j])
    ensures OrderedPerKey(b.pending + tails)
    ensures forall o | o in b.pending + tails :: Within(b, floors, o)
  {
    var s := b.pending + tails;
    forall i: nat | i < |s| ensures Within(b, floors, s[i]) {
      if i < |b.pending| {
        assert InPlace(b, floors, i);
      } else {
        var k := KeyOf(s[i]);
        assert KeyOf(tails[i - |b.pending|]) in b.stable;
        assert StableMirrors(b, k);
        if k in floors { assert FloorHolds(b, floors, k); }
      }
    }
    forall i: nat, j: nat | i < j < |s| && KeyOf(s[i]) == KeyOf(s[j])
      ensures s[i].lastObservedAt <= s[j].firstObservedAt
    {
      if j >= |b.pending| && i < |b.pending| {
        assert KeyOf(tails[j - |b.pending|]) in b.stable;
        assert KeyOf(b.pending[i]) in KeysOf(b.pending);
        DeferredOrPending(b, KeyOf(s[j]));
      }
    }
  }

  /** What a batch submits for `k` starts at or above the floor and ends by the remembered instant. */
  lemma SubmittedWithin(b: Batch, cohorts: set<Cohort>, input: Input, floors: Floors, k: Key)
    requires Inv(b) && Chrono(b, floors)
    ensures var mine := Of(Submitted(b, cohorts, input), k);
      && Chronological(mine)
      && (forall o | o in mine :: Within(b, floors, o) && KeyOf(o) == k)
  {
    var due := DueOf(b, cohorts, input);
    var tails := DueSegments(Marked(b, cohorts), due);
    TailFacts(b, cohorts, due);
    UnsortedWithin(b, floors, tails);
    SortKeepsOrder(b.pending + tails, k);
    OfChronological(b.pending + tails, k);
  }

  lemma OfEmpty(s: seq<Observation>, k: Key)
    ensures Of(s, k) == [] <==> k !in KeysOf(s)
  {
    var f := Of(s, k);
    if k in KeysOf(s) {
      var i: nat :| i < |s| && KeyOf(s[i]) == k;
      assert s[i] in f;
    }
    if f != [] {
      var o := f[0];
      assert o in f;
      var i: nat :| i < |s| && s[i] == o;
    }
  }

  // ----- runs -----

  /** The segments stored for `k` since its cycle was last loaded, in the writer's order. */
  ghost function Trace(inputs: seq<Input>, k: Key): seq<Observation> {
    if inputs == [] then []
    else
      var out := LastOutcome(inputs);
      if k !in out.state.current then []
      else if inputs[|inputs| - 1].writeOk then Trace(inputs[..|inputs| - 1], k) + Of(out.submitted, k)
      else Trace(inputs[..|inputs| - 1], k)
  }

  ghost predicate TraceBelow(s: seq<Observation>, floors: Floors, k: Key) {
    && Chronological(s)
    && (s != [] ==> k in floors && s[|s| - 1].lastObservedAt <= floors[k])
  }

  /** How a flush of the windows `keys` leaves the state, as far as order is concerned. */
  ghost predicate Flushed(b: Batch, after: State, keys: set<Key>, ok: bool) {
    && (forall k | k in after.current :: k in b.current && (!ok ==> k !in keys)
          && after.current[k].found == b.current[k].found && after.current[k].hasTail == b.current[k].hasTail
          && after.current[k].lastObservedAt == b.current[k].lastObservedAt)
    && (forall k | k in after.stable :: k in b.stable && k !in keys
          && after.stable[k].observation == b.stable[k].observation)
    && (forall k | k in b.stable && k !in keys :: k in after.stable)
    && KeysOf(b.pending) <= keys <= KeysOf(b.pending) + b.stable.Keys
  }

  lemma FinishFlushes(b: Batch, cohorts: set<Cohort>, input: Input)
    requires Inv(b)
    ensures Flushed(b, Finish(b, cohorts, input), KeysOf(Submitted(b, cohorts, input)), input.writeOk)
  {
    hide Finish, Submitted, Inv, KeysOf;
    FinishParts(b, cohorts, input);
    FinishStores(b, cohorts, input);
  }

  /** The floors after a flush: a stored window's floor is the end of what was just stored. */
  ghost function FlushedFloors(floors: Floors, after: State, keys: set<Key>, ok: bool): Floors {
    map k | k in after.current && (k in floors || (ok && k in keys)) ::
      if ok && k in keys then after.current[k].lastObservedAt else floors[k]
  }

  lemma FlushedChrono(b: Batch, floors: Floors, after: State, keys: set<Key>, ok: bool)
    requires Inv(b) && Chrono(b, floors) && Flushed(b, after, keys, ok)
    ensures Chrono(Opened(after), FlushedFloors(floors, after, keys, ok))
    ensures Tight(b, floors) ==> Tight(Opened(after), FlushedFloors(floors, after, keys, ok))
  {
    var f := FlushedFloors(floors, after, keys, ok);
    forall k | k in f ensures FloorHolds(Opened(after), f, k) {
      if k in floors { assert FloorHolds(b, floors, k); }
      if k in KeysOf(b.pending) {
        var i: nat :| i < |b.pending| && KeyOf(b.pending[i]) == k;
        assert InPlace(b, floors, i);
      }
      if k in b.stable { assert StableMirrors(b, k); }
    }
    if Tight(b, floors) {
      forall k | k in after.current && after.current[k].found && after.current[k].hasTail
        ensures EndKnown(Opened(after), f, k)
      {
        assert EndKnown(b, floors, k);
      }
    }
  }

  lemma ConcatChronological(a: seq<Observation>, b: seq<Observation>)
    requires Chronological(a) && Chronological(b)
    requires a != [] && b != [] ==> a[|a| - 1].lastObservedAt <= b[0].firstObservedAt
    ensures Chronological(a + b)
  {
    forall i | 0 <= i < |a| ensures a[i].lastObservedAt <= a[|a| - 1].lastObservedAt {
      if i < |a| - 1 { assert a[i].lastObservedAt <= a[|a| - 1].firstObservedAt; }
    }
    forall j | 0 <= j < |b| ensures b[0].firstObservedAt <= b[j].firstObservedAt {
      if j > 0 { assert b[0].lastObservedAt <= b[j].firstObservedAt; }
    }
  }

  lemma FlushedTrace(b: Batch, floors: Floors, trace: seq<Observation>, mine: seq<Observation>, k: Key)
    requires Chrono(b, floors) && TraceBelow(trace, floors, k) && Chronological(mine) && mine != []
    requires forall o | o in mine :: Within(b, floors, o) && KeyOf(o) == k
    ensures Chronological(trace + mine)
    ensures k in b.current && (trace + mine)[|trace + mine| - 1].lastObservedAt <= b.current[k].lastObservedAt
  {
    assert mine[0] in mine && mine[|mine| - 1] in mine;
    ConcatChronological(trace, mine);
  }

  /** One flush extends a window's trace in order, keeps it, or forgets it with the window. */
  lemma TraceStep(b: Batch, floors: Floors, after: State, keys: set<Key>, ok: bool,
                  trace: seq<Observation>, mine: seq<Observation>, k: Key)
    requires Chrono(b, floors) && Flushed(b, after, keys, ok) && TraceBelow(trace, floors, k)
    requires Chronological(mine) && (mine == [] <==> k !in keys)
    requires forall o | o in mine :: Within(b, floors, o) && KeyOf(o) == k
    ensures TraceBelow(if k !in after.current then [] else if ok then trace + mine else trace,
                       FlushedFloors(floors, after, keys, ok), k)
  {
    var f := FlushedFloors(floors, after, keys, ok);
    if k in after.current {
      if ok && k in keys {
        FlushedTrace(b, floors, trace, mine, k);
        assert f[k] == b.current[k].lastObservedAt;
      } else {
        assert ok ==> trace + mine == trace;
        assert k in floors ==> f[k] == floors[k];
      }
    }
  }

  lemma ClearRunPrefix(inputs: seq<Input>)
    requires ClearRun(inputs) && inputs != []
    ensures ClearRun(inputs[..|inputs| - 1])
  {
    hide ClearBatch, StateAfter;
    var n := |inputs| - 1;
    forall m | 0 <= m < n
      ensures ClearBatch(StateAfter(inputs[..n][..m]), Ordered(inputs[..n][m].candidates, inputs[..n][m].identities),
        inputs[..n][m].load, inputs[..n][m].now)
    {
      assert inputs[..n][..m] == inputs[..m];
    }
  }

  /** Floors that hold for the state after the run and bound every window's trace. */
  lemma {:induction false} RunFloors(inputs: seq<Input>) returns (floors: Floors)
    requires ClearRun(inputs)
    ensures Chrono(Opened(StateAfter(inputs)), floors)
    ensures Tight(Opened(StateAfter(inputs)), floors)
    ensures forall k :: TraceBelow(Trace(inputs, k), floors, k)
  {
    hide ClearBatch;
    floors := map[];
    if inputs != [] {
      var n := |inputs| - 1;
      var s := StateAfter(inputs[..n]);
      var input := inputs[n];
      RunSettled(inputs[..n]);
      ClearRunPrefix(inputs);
      var f := RunFloors(inputs[..n]);
      var candidates := Ordered(input.candidates, input.identities);
      var g := MergeAllChrono(s, f, candidates, input.load, input.now);
      MergeAllInv(s, candidates, input.load, input.now);
      var folded := MergedBatch(s, input);
      var keys := KeysOf(LastOutcome(inputs).submitted);
      var after := LastOutcome(inputs).state;
      FinishFlushes(folded.batch, folded.cohorts, input);
      FlushedChrono(folded.batch, g, after, keys, input.writeOk);
      floors := FlushedFloors(g, after, keys, input.writeOk);
      forall k ensures TraceBelow(Trace(inputs, k), floors, k) {
        assert TraceBelow(Trace(inputs[..n], k), f, k);
        SubmittedWithin(folded.batch, folded.cohorts, input, g, k);
        OfEmpty(LastOutcome(inputs).submitted, k);
        TraceStep(folded.batch, g, after, keys, input.writeOk,
                  Trace(inputs[..n], k), Of(LastOutcome(inputs).submitted, k), k);
      }
    }
  }

  lemma TraceBounded(s: State, floors: Floors, t: seq<Observation>, k: Key)
    requires Chrono(Opened(s), floors) && TraceBelow(t, floors, k)
    ensures forall o | o in t :: k in s.current && o.lastObservedAt <= s.current[k].lastObservedAt
  {
    if t != [] {
      assert FloorHolds(Opened(s), floors, k);
      forall i | 0 <= i < |t| ensures t[i].lastObservedAt <= t[|t| - 1].lastObservedAt {
        if i < |t| - 1 { assert t[i].lastObservedAt <= t[|t| - 1].firstObservedAt; }
      }
    }
  }

  /**
   Over any run in which no segment starts behind the end of its window's tail, whatever loads, lookups
   and writes do: the segments stored for a window since its cycle was last loaded are in order,
   non-overlapping, and end at or before the instant the runner remembers.
   */
  lemma ClearChronology(inputs: seq<Input>, k: Key)
    requires ClearRun(inputs)
    ensures Chronological(Trace(inputs, k))
    ensures forall o | o in Trace(inputs, k) ::
      k in StateAfter(inputs).current && o.lastObservedAt <= StateAfter(inputs).current[k].lastObservedAt
  {
    var floors := RunFloors(inputs);
    TraceBounded(StateAfter(inputs), floors, Trace(inputs, k), k);
  }

  ghost predicate AllPoints(inputs: seq<Input>) {
    forall i, j | 0 <= i < |inputs| && 0 <= j < |inputs[i].candidates| :: Point(inputs[i].candidates[j])
  }

  lemma PointsAreClear(inputs: seq<Input>)
    requires AllPoints(inputs)
    ensures ClearRun(inputs)
  {
    hide Point, ClearCandidate;
    forall n | 0 <= n < |inputs|
      ensures ClearBatch(StateAfter(inputs[..n]), Ordered(inputs[n].candidates, inputs[n].identities), inputs[n].load,
        inputs[n].now)
    {
      var candidates := Ordered(inputs[n].candidates, inputs[n].identities);
      forall m | 0 <= m < |candidates|
        ensures ClearCandidate(Met(StateAfter(inputs[..n]), candidates, m, inputs[n].load, inputs[n].now),
          candidates[m], inputs[n].load, inputs[n].now)
      {
        assert candidates[m] in candidates && candidates[m] in inputs[n].candidates;
        var j :| 0 <= j < |inputs[n].candidates| && inputs[n].candidates[j] == candidates[m];
        PointIsClear(Met(StateAfter(inputs[..n]), candidates, m, inputs[n].load, inputs[n].now), candidates[m],
          inputs[n].load, inputs[n].now);
      }
    }
  }

  /** So it is over any run of point observations. */
  lemma Chronology(inputs: seq<Input>, k: Key)
    requires AllPoints(inputs)
    ensures Chronological(Trace(inputs, k))
    ensures forall o | o in Trace(inputs, k) ::
      k in StateAfter(inputs).current && o.lastObservedAt <= StateAfter(inputs).current[k].lastObservedAt
  {
    PointsAreClear(inputs);
    ClearChronology(inputs, k);
  }
}
