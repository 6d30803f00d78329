/**
 The Codex quota history state machine: what one observation does to the remembered cycle of an
 account window, and what one batch writes. These functions are the specification that
 QuotaHistoryRunner's methods are proved against.
 */
module QuotaHistory {
  import opened Wrappers
  import Text
  import Sorting

  /** Nanoseconds on one absolute axis; 0 is Go's zero time. */
  type Time = int

  const SECOND := 1_000_000_000
  const MIN_INT64 := -0x8000_0000_0000_0000
  const RESET_TOLERANCE := 120 * SECOND
  const HEARTBEAT_INTERVAL := 300 * SECOND

  datatype Source = Manual | Scheduled | Inspection | UsageHeader | Other

  predicate Authoritative(source: Source) {
    source.Manual? || source.Scheduled? || source.Inspection?
  }

  datatype Key = Key(authIndex: string, windowRole: string)

  datatype Observation = Observation(
    authIndex: string,
    windowRole: string,
    windowSeconds: int,
    resetAtSource: string,
    resetAt: Time,
    remainingPercent: int,
    firstObservedAt: Time,
    lastObservedAt: Time,
    observationCount: int,
    authoritative: bool)

  datatype Candidate = Candidate(observation: Observation, identityVerified: bool, source: Source)

  datatype Current = Current(
    found: bool,
    windowSeconds: int,
    resetAtSource: string,
    resetAt: Time,
    hasTail: bool,
    remainingPercent: int,
    lastObservedAt: Time,
    lastMaterializedAt: Time,
    pendingIndex: int)

  /** What the database remembers of a window; the load itself may also fail. */
  datatype Stored =
    | Missing
    | Found(windowSeconds: int, resetAtSource: string, resetAt: Time, hasTail: bool,
            tailRemainingPercent: int, tailLastObservedAt: Time)

  datatype Deferred = Deferred(observation: Observation, immediate: bool)

  /** Everything a batch touches: the two stores that outlive it, and its own two lists. */
  datatype Batch = Batch(
    current: map<Key, Current>,
    stable: map<Key, Deferred>,
    pending: seq<Observation>,
    failed: set<Key>)

  function KeyOf(o: Observation): Key {
    Key(o.authIndex, o.windowRole)
  }

  function CandidateKey(candidate: Candidate): Key {
    Key(Text.TrimSpace(candidate.observation.authIndex),
        Text.ToLower(Text.TrimSpace(candidate.observation.windowRole)))
  }

  predicate MainRole(role: string) {
    role == "primary" || role == "secondary"
  }

  // ----- cycle identity -----

  /** `time.Time.Sub` clamps to the range of a Duration. */
  function Sub(left: Time, right: Time): int {
    var d := left - right;
    if d > MAX_INT64 then MAX_INT64 else if d < MIN_INT64 then MIN_INT64 else d
  }

  /** Negation of an int64: the least value is its own negative. */
  function Negate(d: int): int {
    if d == MIN_INT64 then MIN_INT64 else -d
  }

  function TimeDistance(left: Time, right: Time): int {
    var distance := Sub(left, right);
    if distance < 0 then Negate(distance) else distance
  }

  predicate SameCycle(current: Current, o: Observation) {
    && current.windowSeconds == o.windowSeconds
    && TimeDistance(current.resetAt, o.resetAt) <= RESET_TOLERANCE
  }

  // ----- one observation -----

  /** The observation as the merge sees it: keyed, and marked with its source's authority. */
  function Keyed(candidate: Candidate): Observation {
    var key := CandidateKey(candidate);
    candidate.observation.(
      authIndex := key.authIndex,
      windowRole := key.windowRole,
      authoritative := Authoritative(candidate.source))
  }

  predicate WellFormed(o: Observation) {
    && 0 < o.windowSeconds <= MAX_INT64 / SECOND
    && o.resetAt != 0
    && 0 <= o.remainingPercent <= 100
    && o.observationCount >= 1
    && o.firstObservedAt != 0
    && o.lastObservedAt != 0
    && o.firstObservedAt <= o.lastObservedAt
  }

  predicate Admissible(candidate: Candidate) {
    var o := Keyed(candidate);
    o.authIndex != "" && MainRole(o.windowRole) && WellFormed(o)
  }

  function Recover(stored: Stored): Current {
    match stored
    case Missing => Current(false, 0, "", 0, false, 0, 0, 0, -1)
    case Found(w, src, reset, hasTail, percent, last) => Current(true, w, src, reset, hasTail, percent, last, 0, -1)
  }

  function Loaded(stored: Stored, now: Time): Current {
    var c := Recover(stored);
    if c.found && c.hasTail then c.(lastMaterializedAt := now) else c
  }

  predicate BoundaryUpdated(c: Current, o: Observation) {
    || (c.resetAtSource == "relative" && o.resetAtSource == "absolute")
    || (o.authoritative && (c.resetAtSource != o.resetAtSource || c.resetAt != o.resetAt))
  }

  function Calibrated(c: Current, o: Observation): Current {
    if BoundaryUpdated(c, o) then c.(resetAtSource := o.resetAtSource, resetAt := o.resetAt) else c
  }

  /** What an admissible observation means for the remembered cycle. */
  datatype Verdict =
    | Reject     // out of order, a Header rise, or a conflict at the same instant
    | Change     // new cycle, real decline, or trusted correction: a new segment
    | Calibrate  // same instant, new reset boundary
    | Extend     // same percentage, later

  predicate OutOfOrder(c: Current, o: Observation) {
    c.hasTail && o.lastObservedAt < c.lastObservedAt
  }

  function Judge(c: Current, o: Observation): Verdict {
    if !c.found then Change
    else if OutOfOrder(c, o) then Reject
    else if !SameCycle(c, o) then
      if c.windowSeconds == o.windowSeconds && o.resetAt < c.resetAt then Reject else Change
    else if !c.hasTail then Change
    else if o.remainingPercent > c.remainingPercent && o.authoritative then Change
    else if o.lastObservedAt == c.lastObservedAt then
      if BoundaryUpdated(c, o) then Calibrate else Reject
    else if o.remainingPercent > c.remainingPercent then Reject
    else if o.remainingPercent == c.remainingPercent then Extend
    else Change
  }

  function FromObservation(o: Observation): Current {
    Current(true, o.windowSeconds, o.resetAtSource, o.resetAt, true, o.remainingPercent, o.lastObservedAt, 0, -1)
  }

  /** The remembered cycle after a change; only a change within the cycle keeps the write clock. */
  function Changed(c: Current, o: Observation): Current {
    if c.found && SameCycle(c, o) then
      c.(hasTail := true, remainingPercent := o.remainingPercent, lastObservedAt := o.lastObservedAt,
         resetAtSource := o.resetAtSource, resetAt := o.resetAt)
    else
      FromObservation(o)
  }

  predicate Live(c: Current, pending: seq<Observation>) {
    0 <= c.pendingIndex < |pending|
  }

  /** Moves the deferred tail of a key, if any, to the batch. */
  function SealTail(b: Batch, key: Key): Batch {
    if key in b.stable then
      b.(pending := b.pending + [b.stable[key].observation], stable := b.stable - {key})
    else b
  }

  /** Appends a segment that becomes the key's live one. */
  function AppendLive(b: Batch, key: Key, c: Current, o: Observation): Batch {
    b.(pending := b.pending + [o], current := b.current[key := c.(pendingIndex := |b.pending|)])
  }

  function DeferredWith(d: Deferred, o: Observation, immediate: bool): Deferred {
    var takesBoundary := o.authoritative || (d.observation.resetAtSource == "relative"
      && o.resetAtSource == "absolute");
    Deferred(
      d.observation.(
        lastObservedAt := o.lastObservedAt,
        observationCount := d.observation.observationCount + o.observationCount,
        authoritative := d.observation.authoritative || o.authoritative,
        resetAtSource := if takesBoundary then o.resetAtSource else d.observation.resetAtSource,
        resetAt := if takesBoundary then o.resetAt else d.observation.resetAt),
      d.immediate || immediate)
  }

  function Defer(b: Batch, key: Key, o: Observation, immediate: bool): Batch {
    b.(stable := b.stable[key :=
      if key in b.stable then DeferredWith(b.stable[key], o, immediate) else Deferred(o, immediate)])
  }

  function CalibratedSegment(p: Observation, o: Observation): Observation {
    p.(resetAtSource := o.resetAtSource, resetAt := o.resetAt,
       observationCount := p.observationCount + o.observationCount,
       authoritative := p.authoritative || o.authoritative)
  }

  function ExtendedSegment(p: Observation, o: Observation, boundary: bool): Observation {
    p.(resetAtSource := if boundary then o.resetAtSource else p.resetAtSource,
       resetAt := if boundary then o.resetAt else p.resetAt,
       lastObservedAt := o.lastObservedAt,
       observationCount := p.observationCount + o.observationCount,
       authoritative := p.authoritative || o.authoritative)
  }

  datatype Merged = Merged(batch: Batch, accepted: bool, materialized: bool)

  /** Applies a verdict on the key's remembered cycle `c`. */
  function Enact(b: Batch, key: Key, c: Current, o: Observation): Merged {
    match Judge(c, o)
    case Reject => Merged(b, false, false)
    case Change => Merged(AppendLive(SealTail(b, key), key, Changed(c, o), o), true, true)
    case Calibrate =>
      var s := SealTail(b, key);
      var c' := Calibrated(c, o);
      if Live(c', s.pending) then
        Merged(s.(pending := s.pending[c'.pendingIndex := CalibratedSegment(s.pending[c'.pendingIndex], o)],
                  current := s.current[key := c']), true, true)
      else
        Merged(AppendLive(s, key, c', o.(remainingPercent := c.remainingPercent)), true, true)
    case Extend =>
      var c' := Calibrated(c, o).(lastObservedAt := o.lastObservedAt);
      if Live(c, b.pending) then
        Merged(b.(pending := b.pending[c.pendingIndex := ExtendedSegment(b.pending[c.pendingIndex], o,
          BoundaryUpdated(c, o))],
                  current := b.current[key := c']), true, true)
      else
        var d := Defer(b, key, o, BoundaryUpdated(c, o) || o.authoritative);
        Merged(d.(current := d.current[key := c']), true, false)
  }

  type Loader = Key -> Option<Stored>

  /** One candidate: screened, its cycle recovered if need be, then judged. */
  function Merge(b: Batch, candidate: Candidate, load: Loader, now: Time): Merged {
    var o := Keyed(candidate);
    var key := KeyOf(o);
    if !Admissible(candidate) then Merged(b, false, false)
    else if key in b.current then Enact(b, key, b.current[key], o)
    else if key in b.failed then Merged(b, false, false)
    else match load(key)
      case None => Merged(b.(failed := b.failed + {key}), false, false)
      case Some(stored) =>
        var c := Loaded(stored, now);
        Enact(b.(current := b.current[key := c]), key, c, o)
  }

  /** The batch with the window of a candidate in memory, recovered if need be; a window that cannot be is left out. */
  function Recovered(b: Batch, key: Key, load: Loader, now: Time): Option<Batch> {
    if key in b.current then Some(b)
    else if key in b.failed || load(key).None? then None
    else Some(b.(current := b.current[key := Loaded(load(key).value, now)]))
  }

  /** A merge is the verdict on the recovered window; without one, nothing is accepted. */
  lemma MergeIsEnact(b: Batch, candidate: Candidate, load: Loader, now: Time)
    ensures var o := Keyed(candidate);
      var r := Recovered(b, KeyOf(o), load, now);
      if Admissible(candidate) && r.Some?
      then WellFormed(o) && KeyOf(o) in r.value.current
           && Merge(b, candidate, load, now) == Enact(r.value, KeyOf(o), r.value.current[KeyOf(o)], o)
      else !Merge(b, candidate, load, now).accepted && !Merge(b, candidate, load, now).materialized
           && Merge(b, candidate, load, now).batch == b.(failed := Merge(b, candidate, load, now).batch.failed)
  {
  }

  // ----- one batch -----

  datatype State = State(current: map<Key, Current>, stable: map<Key, Deferred>)

  datatype Cohort = Cohort(authIndex: string, lastObservedAt: Time)

  function CandidateCohort(candidate: Candidate): Cohort {
    Cohort(Text.TrimSpace(candidate.observation.authIndex), candidate.observation.lastObservedAt)
  }

  function StableCohort(key: Key, d: Deferred): Cohort {
    Cohort(key.authIndex, d.observation.lastObservedAt)
  }

  datatype Folded = Folded(batch: Batch, cohorts: set<Cohort>, accepted: seq<Observation>)

  /** The merge loop over the sorted candidates. */
  function MergeAll(b: Batch, candidates: seq<Candidate>, load: Loader, now: Time): Folded {
    if candidates == [] then Folded(b, {}, [])
    else
      var n := |candidates| - 1;
      var before := MergeAll(b, candidates[..n], load, now);
      var step := Merge(before.batch, candidates[n], load, now);
      Folded(step.batch,
             if step.materialized then before.cohorts + {CandidateCohort(candidates[n])} else before.cohorts,
             if step.accepted then before.accepted + [Keyed(candidates[n])] else before.accepted)
  }

  function MarkCohorts(stable: map<Key, Deferred>, cohorts: set<Cohort>): map<Key, Deferred> {
    map key | key in stable ::
      if StableCohort(key, stable[key]) in cohorts then stable[key].(immediate := true) else stable[key]
  }

  function LastMaterialized(current: map<Key, Current>, key: Key): Time {
    if key in current then current[key].lastMaterializedAt else 0
  }

  predicate Due(s: State, key: Key, now: Time, heartbeat: int, all: bool)
    requires key in s.stable
  {
    || all
    || s.stable[key].immediate
    || LastMaterialized(s.current, key) == 0
    || now >= LastMaterialized(s.current, key) + heartbeat
  }

  function DueCohorts(s: State, now: Time, heartbeat: int, all: bool): set<Cohort> {
    set key | key in s.stable && Due(s, key, now, heartbeat, all) :: StableCohort(key, s.stable[key])
  }

  /** Every tail whose response also holds a tail that is due. */
  function DueKeys(s: State, now: Time, heartbeat: int, all: bool): set<Key> {
    set key | key in s.stable && StableCohort(key, s.stable[key]) in DueCohorts(s, now, heartbeat, all)
  }

  predicate KeyLess(a: Key, b: Key) {
    if a.authIndex != b.authIndex then Text.Less(a.authIndex, b.authIndex) else Text.Less(a.windowRole, b.windowRole)
  }

  predicate CandidateLess(a: Candidate, b: Candidate) {
    if CandidateKey(a) != CandidateKey(b) then KeyLess(CandidateKey(a), CandidateKey(b))
    else a.observation.lastObservedAt < b.observation.lastObservedAt
  }

  predicate SegmentLess(a: Observation, b: Observation) {
    if KeyOf(a) != KeyOf(b) then KeyLess(KeyOf(a), KeyOf(b)) else a.firstObservedAt < b.firstObservedAt
  }

  lemma KeyLessTransitive(a: Key, b: Key, c: Key)
    requires KeyLess(a, b) && KeyLess(b, c)
    ensures KeyLess(a, c)
  {
    Text.LessTotal(a.authIndex, b.authIndex);
    Text.LessTotal(a.authIndex, c.authIndex);
    if a.authIndex != b.authIndex && b.authIndex != c.authIndex {
      Text.LessTransitive(a.authIndex, b.authIndex, c.authIndex);
    }
    if a.authIndex == b.authIndex == c.authIndex {
      Text.LessTransitive(a.windowRole, b.windowRole, c.windowRole);
    }
  }

  lemma KeyLessTotal(a: Key, b: Key)
    ensures KeyLess(a, b) || a == b || KeyLess(b, a)
    ensures !KeyLess(a, a) && !(KeyLess(a, b) && KeyLess(b, a))
  {
    Text.LessTotal(a.authIndex, b.authIndex);
    Text.LessTotal(a.windowRole, b.windowRole);
    Text.LessTotal(a.windowRole, a.windowRole);
  }

  lemma KeyOrder()
    ensures Sorting.StrictTotalOrder(KeyLess)
  {
    forall a, b ensures !KeyLess(a, a) && (KeyLess(a, b) || a == b || KeyLess(b, a)) {
      KeyLessTotal(a, b);
    }
    forall a, b, c | KeyLess(a, b) && KeyLess(b, c) ensures KeyLess(a, c) {
      KeyLessTransitive(a, b, c);
    }
  }

  /** Any order that compares keys first and an integer next is a strict weak order. */
  lemma KeyedOrder<T(!new)>(less: (T, T) -> bool, key: T -> Key, rank: T -> int)
    requires forall a, b :: less(a, b) == if key(a) != key(b) then KeyLess(key(a), key(b)) else rank(a) < rank(b)
    ensures Sorting.StrictWeakOrder(less)
  {
    forall a, b, c | less(a, b) && less(b, c) ensures less(a, c) {
      if key(a) != key(b) && key(b) != key(c) {
        KeyLessTransitive(key(a), key(b), key(c));
        KeyLessTotal(key(a), key(b));
      }
    }
    forall a, b, c | less(a, c) ensures less(a, b) || less(b, c) {
      KeyLessTotal(key(a), key(b));
      KeyLessTotal(key(b), key(c));
      KeyLessTotal(key(a), key(c));
      if key(b) != key(a) && KeyLess(key(b), key(a)) && key(a) != key(c) {
        KeyLessTransitive(key(b), key(a), key(c));
      }
      if key(b) != key(c) && KeyLess(key(c), key(b)) && key(a) != key(c) {
        KeyLessTransitive(key(a), key(c), key(b));
      }
    }
  }

  lemma SegmentOrder()
    ensures Sorting.StrictWeakOrder(SegmentLess)
  {
    KeyedOrder(SegmentLess, KeyOf, (o: Observation) => o.firstObservedAt);
  }

  lemma CandidateOrder()
    ensures Sorting.StrictWeakOrder(CandidateLess)
  {
    KeyedOrder(CandidateLess, CandidateKey, (c: Candidate) => c.observation.lastObservedAt);
  }

  function KeysOf(pending: seq<Observation>): set<Key> {
    set i | 0 <= i < |pending| :: KeyOf(pending[i])
  }

  function StableSegments(stable: map<Key, Deferred>, keys: seq<Key>): seq<Observation>
    requires forall k | k in keys :: k in stable
  {
    seq(|keys|, i requires 0 <= i < |keys| => assert keys[i] in keys; stable[keys[i]].observation)
  }

  /** Drops what the failed write held; the next input recovers those windows from the database. */
  function AfterFailure(s: State, pending: seq<Observation>): State {
    State(s.current - KeysOf(pending), s.stable - KeysOf(pending))
  }

  function AfterSuccess(s: State, pending: seq<Observation>, due: set<Key>, now: Time): State {
    State(map k | k in s.current ::
            if k in KeysOf(pending) then s.current[k].(lastMaterializedAt := now, pendingIndex := -1)
            else s.current[k].(pendingIndex := -1),
          s.stable - due)
  }

  function AfterFlush(s: State, pending: seq<Observation>, due: set<Key>, now: Time, ok: bool): State {
    if pending == [] then s
    else if ok then AfterSuccess(s, pending, due, now)
    else AfterFailure(s, pending)
  }

  /** The accounts a lookup confirms; a failed lookup confirms none. */
  function VerifiedAccounts(identities: Option<seq<string>>): set<string> {
    match identities
    case None => {}
    case Some(names) => set i | 0 <= i < |names| && Text.TrimSpace(names[i]) != "" :: Text.TrimSpace(names[i])
  }

  predicate Verified(candidate: Candidate, accounts: set<string>) {
    candidate.identityVerified || Text.TrimSpace(candidate.observation.authIndex) in accounts
  }

  function IsVerified(accounts: set<string>): Candidate -> bool {
    candidate => Verified(candidate, accounts)
  }

  /** One wake-up of the runner with everything the environment answers during it. */
  datatype Input = Input(
    candidates: seq<Candidate>,
    identities: Option<seq<string>>,
    load: Loader,
    now: Time,
    heartbeat: int,
    shutdown: bool,
    writeOk: bool)

  /** `submitted` is the batch handed to the writer; it is stored exactly when the write succeeds. */
  datatype Outcome = Outcome(state: State, accepted: seq<Observation>, submitted: seq<Observation>)

  ghost function Ordered(candidates: seq<Candidate>, identities: Option<seq<string>>): seq<Candidate> {
    Sorting.Sort(Sorting.Filter(candidates, IsVerified(VerifiedAccounts(identities))), CandidateLess)
  }

  ghost function DueSegments(s: State, due: set<Key>): seq<Observation>
    requires due <= s.stable.Keys
  {
    KeyOrder();
    StableSegments(s.stable, Sorting.Ascending(due, KeyLess))
  }

  function Marked(b: Batch, cohorts: set<Cohort>): State {
    State(b.current, MarkCohorts(b.stable, cohorts))
  }

  function DueOf(b: Batch, cohorts: set<Cohort>, input: Input): set<Key> {
    DueKeys(Marked(b, cohorts), input.now, input.heartbeat, input.shutdown)
  }

  /** What the writer is handed once the merge loop has left the batch `b`. */
  ghost function Submitted(b: Batch, cohorts: set<Cohort>, input: Input): seq<Observation> {
    Sorting.Sort(b.pending + DueSegments(Marked(b, cohorts), DueOf(b, cohorts, input)), SegmentLess)
  }

  ghost function Finish(b: Batch, cohorts: set<Cohort>, input: Input): State {
    AfterFlush(Marked(b, cohorts), Submitted(b, cohorts, input), DueOf(b, cohorts, input), input.now, input.writeOk)
  }

  function Opened(s: State): Batch {
    Batch(s.current, s.stable, [], {})
  }

  ghost function MergedBatch(s: State, input: Input): Folded {
    MergeAll(Opened(s), Ordered(input.candidates, input.identities), input.load, input.now)
  }

  ghost function Process(s: State, input: Input): Outcome {
    var folded := MergedBatch(s, input);
    Outcome(Finish(folded.batch, folded.cohorts, input), folded.accepted,
      Submitted(folded.batch, folded.cohorts, input))
  }

  // ----- the two input queues -----

  datatype Split = Split(trusted: seq<Candidate>, headers: seq<Candidate>)

  function TrustedKeys(candidates: seq<Candidate>): set<Key> {
    set i | 0 <= i < |candidates| && Authoritative(candidates[i].source)
            && CandidateKey(candidates[i]).authIndex != "" && MainRole(CandidateKey(candidates[i]).windowRole)
      :: CandidateKey(candidates[i])
  }

  function IsTrusted(): Candidate -> bool {
    (candidate: Candidate) => Authoritative(candidate.source)
  }

  function IsUncovered(covered: set<Key>): Candidate -> bool {
    (candidate: Candidate) => !Authoritative(candidate.source) && CandidateKey(candidate) !in covered
  }

  /** A trusted query replaces the Headers of the windows it covers, and only those. */
  function Preferred(candidates: seq<Candidate>): Split {
    Split(Sorting.Filter(candidates, IsTrusted()), Sorting.Filter(candidates, IsUncovered(TrustedKeys(candidates))))
  }
}
