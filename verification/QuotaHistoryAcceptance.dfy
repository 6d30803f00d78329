/**
 What a batch takes and what it leaves, in plain comparisons of what was observed with what was known: which
 candidates are accepted, what their window remembers, and which segments and tails come of them.
 */
module QuotaHistoryAcceptance {
  import opened QuotaHistory
  import opened Wrappers
  import Text

  // ----- what is known, what is observed -----

  /** A window as memory holds it, or as storage does when memory does not. */
  datatype Known = Known(
    windowSeconds: int,
    resetAtSource: string,
    resetAt: int,
    hasTail: bool,
    remainingPercent: int,
    lastObservedAt: int,
    lastMaterializedAt: int)

  /** Nothing can be said of it, nothing is recorded, or something is. */
  datatype Knowledge = Unavailable | Nothing | Window(known: Known)

  function InMemory(c: Current): Knowledge {
    if c.found
    then Window(Known(c.windowSeconds, c.resetAtSource, c.resetAt, c.hasTail, c.remainingPercent, c.lastObservedAt,
                      c.lastMaterializedAt))
    else Nothing
  }

  function KnowledgeOf(b: Batch, key: Key, load: Loader, now: Time): Knowledge {
    if key in b.current then InMemory(b.current[key])
    else if key in b.failed then Unavailable
    else
      match load(key)
      case None => Unavailable
      case Some(Missing) => Nothing
      case Some(Found(windowSeconds, resetAtSource, resetAt, hasTail, percent, last)) =>
        Window(Known(windowSeconds, resetAtSource, resetAt, hasTail, percent, last, if hasTail then now else 0))
  }

  function KeyNamed(candidate: Candidate): Key {
    Key(Text.TrimSpace(candidate.observation.authIndex), Text.ToLower(Text.TrimSpace(candidate.observation.windowRole)))
  }

  predicate Trusted(candidate: Candidate) {
    candidate.source.Manual? || candidate.source.Scheduled? || candidate.source.Inspection?
  }

  /** The observation as a segment of its window. */
  function Segment(candidate: Candidate): Observation {
    var o := candidate.observation;
    Observation(KeyNamed(candidate).authIndex, KeyNamed(candidate).windowRole, o.windowSeconds, o.resetAtSource,
                o.resetAt, o.remainingPercent, o.firstObservedAt, o.lastObservedAt, o.observationCount,
                Trusted(candidate))
  }

  /** An account and a main window, a length that fits, a reset, a percentage, and instants in order. */
  predicate Usable(candidate: Candidate) {
    var o := candidate.observation;
    && KeyNamed(candidate).authIndex != ""
    && (KeyNamed(candidate).windowRole == "primary" || KeyNamed(candidate).windowRole == "secondary")
    && 0 < o.windowSeconds <= 9_223_372_036 && o.resetAt != 0 && 0 <= o.remainingPercent <= 100
    && o.observationCount >= 1
    && o.firstObservedAt != 0 && o.lastObservedAt != 0 && o.firstObservedAt <= o.lastObservedAt
  }

  // ----- when a candidate is accepted -----

  predicate NotStale(known: Known, o: Observation) {
    known.hasTail ==> known.lastObservedAt <= o.lastObservedAt
  }

  /** Another length, or a reset more than two minutes later but not so far that the difference overflows. */
  predicate AnotherCycle(known: Known, o: Observation) {
    || known.windowSeconds != o.windowSeconds
    || 120_000_000_000 < o.resetAt - known.resetAt < 0x8000_0000_0000_0000
  }

  predicate WithinCycle(known: Known, o: Observation) {
    && known.windowSeconds == o.windowSeconds
    && (|| -120_000_000_000 <= o.resetAt - known.resetAt <= 120_000_000_000
        || o.resetAt - known.resetAt >= 0x8000_0000_0000_0000)
  }

  predicate BetterBoundary(known: Known, o: Observation, trusted: bool) {
    || (known.resetAtSource == "relative" && o.resetAtSource == "absolute")
    || (trusted && (known.resetAtSource != o.resetAtSource || known.resetAt != o.resetAt))
  }

  /** A new segment: the first of a window or cycle, a later decline, or a rise on the word of a trusted source. */
  predicate Opens(knowledge: Knowledge, o: Observation, trusted: bool) {
    match knowledge
    case Unavailable => false
    case Nothing => true
    case Window(known) =>
      && NotStale(known, o)
      && (|| AnotherCycle(known, o)
          || (WithinCycle(known, o)
              && (|| !known.hasTail
                  || (o.remainingPercent > known.remainingPercent && trusted)
                  || (o.remainingPercent < known.remainingPercent && o.lastObservedAt > known.lastObservedAt))))
  }

  /** The same percentage at a later instant. */
  predicate Repeats(knowledge: Knowledge, o: Observation) {
    && knowledge.Window? && knowledge.known.hasTail && WithinCycle(knowledge.known, o)
    && o.remainingPercent == knowledge.known.remainingPercent && o.lastObservedAt > knowledge.known.lastObservedAt
  }

  /** A better reset boundary for the very instant that was seen last. */
  predicate Calibrates(knowledge: Knowledge, o: Observation, trusted: bool) {
    && knowledge.Window? && knowledge.known.hasTail && WithinCycle(knowledge.known, o)
    && o.lastObservedAt == knowledge.known.lastObservedAt && BetterBoundary(knowledge.known, o, trusted)
    && !(o.remainingPercent > knowledge.known.remainingPercent && trusted)
  }

  lemma SegmentIs(candidate: Candidate)
    ensures Keyed(candidate) == Segment(candidate) && KeyOf(Segment(candidate)) == KeyNamed(candidate)
    ensures Admissible(candidate) <==> Usable(candidate)
  {
  }

  lemma KnowledgeIs(b: Batch, key: Key, load: Loader, now: Time)
    ensures var r := Recovered(b, key, load, now);
      && (r.None? <==> KnowledgeOf(b, key, load, now).Unavailable?)
      && (r.Some? ==>
            && key in r.value.current && KnowledgeOf(b, key, load, now) == InMemory(r.value.current[key])
            && r.value == b.(current := b.current[key := r.value.current[key]])
            && (key in b.current ==> r.value == b)
            && (key !in b.current ==> r.value.current[key].pendingIndex == -1))
  {
  }

  lemma VerdictIs(c: Current, o: Observation)
    ensures var knowledge := InMemory(c);
      && (Judge(c, o).Change? <==> Opens(knowledge, o, o.authoritative))
      && (Judge(c, o).Extend? <==> Repeats(knowledge, o))
      && (Judge(c, o).Calibrate? <==> Calibrates(knowledge, o, o.authoritative))
      && (knowledge.Window? ==> (BoundaryUpdated(c, o) <==> BetterBoundary(knowledge.known, o, o.authoritative)))
      && (knowledge.Window? && !AnotherCycle(knowledge.known, o) ==>
            (SameCycle(c, o) <==> WithinCycle(knowledge.known, o)))
      && (knowledge.Window? ==> !(AnotherCycle(knowledge.known, o) && SameCycle(c, o)))
  {
  }

  lemma SegmentFields(candidate: Candidate, c: Current)
    ensures var o, s := candidate.observation, Segment(candidate);
      && s.windowSeconds == o.windowSeconds && s.resetAt == o.resetAt && s.resetAtSource == o.resetAtSource
      && s.remainingPercent == o.remainingPercent && s.firstObservedAt == o.firstObservedAt
      && s.lastObservedAt == o.lastObservedAt && s.observationCount == o.observationCount
      && s.authoritative == Trusted(candidate)
    ensures forall percent, source, at ::
      Remembers(c, percent, source, at, candidate.observation)
      <==> Remembers(c, percent, source, at, Segment(candidate))
  {
  }

  lemma SameWay(knowledge: Knowledge, candidate: Candidate)
    ensures var o, s, trusted := candidate.observation, Segment(candidate), Trusted(candidate);
      && (Opens(knowledge, o, trusted) <==> Opens(knowledge, s, trusted))
      && (Repeats(knowledge, o) <==> Repeats(knowledge, s))
      && (Calibrates(knowledge, o, trusted) <==> Calibrates(knowledge, s, trusted))
      && s.authoritative == trusted
      && (knowledge.Unavailable? ==>
            !Opens(knowledge, o, trusted) && !Repeats(knowledge, o) && !Calibrates(knowledge, o, trusted))
  {
  }

  /** Exactly these candidates are accepted: usable ones that open a segment, repeat, or calibrate. */
  lemma AcceptedExactly(b: Batch, candidate: Candidate, load: Loader, now: Time)
    ensures var o, trusted := candidate.observation, Trusted(candidate);
      var knowledge := KnowledgeOf(b, KeyNamed(candidate), load, now);
      Merge(b, candidate, load, now).accepted
      <==> (&& Usable(candidate)
            && (Opens(knowledge, o, trusted) || Repeats(knowledge, o) || Calibrates(knowledge, o, trusted)))
  {
    hide KnowledgeOf, Recovered, Merge, Admissible, Usable, Opens, Repeats, Calibrates, Judge, Segment, KeyNamed, Keyed;
    var key, s := KeyNamed(candidate), Segment(candidate);
    SegmentIs(candidate);
    MergeIsEnact(b, candidate, load, now);
    KnowledgeIs(b, key, load, now);
    SameWay(KnowledgeOf(b, key, load, now), candidate);
    if Usable(candidate) && Recovered(b, key, load, now).Some? {
      VerdictIs(Recovered(b, key, load, now).value.current[key], s);
    }
  }

  // ----- what an accepted candidate leaves -----

  /** The three ways exclude each other. */
  lemma OneWay(knowledge: Knowledge, o: Observation, trusted: bool)
    ensures !(Opens(knowledge, o, trusted) && Repeats(knowledge, o))
    ensures !(Opens(knowledge, o, trusted) && Calibrates(knowledge, o, trusted))
    ensures !(Repeats(knowledge, o) && Calibrates(knowledge, o, trusted))
  {
  }

  /** The tail that is waiting, if any, goes first. */
  function TailFirst(b: Batch, key: Key): seq<Observation> {
    b.pending + if key in b.stable then [b.stable[key].observation] else []
  }

  predicate Remembers(c: Current, percent: int, source: string, resetAt: int, o: Observation) {
    && c.found && c.hasTail && c.windowSeconds == o.windowSeconds && c.lastObservedAt == o.lastObservedAt
    && c.remainingPercent == percent && c.resetAtSource == source && c.resetAt == resetAt
  }

  lemma EnactOpened(b: Batch, key: Key, o: Observation)
    requires key in b.current && Judge(b.current[key], o).Change?
    ensures var c, m := b.current[key], Enact(b, key, b.current[key], o);
      && m.accepted && m.materialized && key in m.batch.current && key !in m.batch.stable
      && m.batch.pending == TailFirst(b, key) + [o] && m.batch.current[key].pendingIndex == |m.batch.pending| - 1
      && Remembers(m.batch.current[key], o.remainingPercent, o.resetAtSource, o.resetAt, o)
      && m.batch.current[key].lastMaterializedAt == if c.found && SameCycle(c, o) then c.lastMaterializedAt else 0
  {
    hide Judge;
  }

  /** A new segment is the observation itself, behind the tail, and its window remembers just that. */
  lemma OpenedLeaves(b: Batch, candidate: Candidate, load: Loader, now: Time)
    requires var o := candidate.observation;
      Usable(candidate) && Opens(KnowledgeOf(b, KeyNamed(candidate), load, now), o, Trusted(candidate))
    ensures var o, key, m := candidate.observation, KeyNamed(candidate), Merge(b, candidate, load, now);
      && m.accepted && m.materialized && key in m.batch.current && key !in m.batch.stable
      && m.batch.pending == TailFirst(b, key) + [Segment(candidate)]
      && m.batch.current[key].pendingIndex == |m.batch.pending| - 1
      && Remembers(m.batch.current[key], o.remainingPercent, o.resetAtSource, o.resetAt, o)
    ensures var knowledge, c := KnowledgeOf(b, KeyNamed(candidate), load, now),
                                Merge(b, candidate, load, now).batch.current[KeyNamed(candidate)];
      c.lastMaterializedAt == if knowledge.Window? && WithinCycle(knowledge.known, candidate.observation)
                              then knowledge.known.lastMaterializedAt else 0
  {
    hide KnowledgeOf, Recovered, Merge, Admissible, Usable, Opens, Judge, Segment, KeyNamed, Keyed, Enact, Remembers,
      SameCycle, Repeats, Calibrates;
    var key, s := KeyNamed(candidate), Segment(candidate);
    SegmentIs(candidate);
    MergeIsEnact(b, candidate, load, now);
    KnowledgeIs(b, key, load, now);
    SameWay(KnowledgeOf(b, key, load, now), candidate);
    var r := Recovered(b, key, load, now).value;
    VerdictIs(r.current[key], s);
    EnactOpened(r, key, s);
    SegmentFields(candidate, Merge(b, candidate, load, now).batch.current[key]);
  }

  /** A segment as a repetition at a later instant leaves it. */
  function Lengthened(p: Observation, o: Observation, trusted: bool, boundary: bool): Observation {
    Observation(p.authIndex, p.windowRole, p.windowSeconds,
                if boundary then o.resetAtSource else p.resetAtSource, if boundary then o.resetAt else p.resetAt,
                p.remainingPercent, p.firstObservedAt, o.lastObservedAt, p.observationCount + o.observationCount,
                p.authoritative || trusted)
  }

  /** The segment of this batch that its window still extends. */
  predicate HasSegment(b: Batch, key: Key) {
    key in b.current && 0 <= b.current[key].pendingIndex < |b.pending|
  }

  /** The tail after a repetition. */
  function LengthenedTail(b: Batch, key: Key, s: Observation, better: bool): Deferred {
    if key in b.stable then
      var tail := b.stable[key].observation;
      var upgraded := tail.resetAtSource == "relative" && s.resetAtSource == "absolute";
      Deferred(Lengthened(tail, s, s.authoritative, s.authoritative || upgraded),
               b.stable[key].immediate || better || s.authoritative)
    else Deferred(s, better || s.authoritative)
  }

  lemma EnactRepeated(b: Batch, key: Key, o: Observation)
    requires key in b.current && Judge(b.current[key], o).Extend?
    ensures var c, m, better := b.current[key], Enact(b, key, b.current[key], o), BoundaryUpdated(b.current[key], o);
      && m.accepted && key in m.batch.current && m.batch.current[key].lastMaterializedAt == c.lastMaterializedAt
      && Remembers(m.batch.current[key], c.remainingPercent, if better then o.resetAtSource else c.resetAtSource,
                   if better then o.resetAt else c.resetAt, o)
      && (m.materialized <==> HasSegment(b, key))
      && if HasSegment(b, key) then
           var i := c.pendingIndex;
           && m.batch.stable == b.stable
           && m.batch.pending == b.pending[i := Lengthened(b.pending[i], o, o.authoritative, better)]
         else m.batch.pending == b.pending && m.batch.stable == b.stable[key := LengthenedTail(b, key, o, better)]
  {
    hide BoundaryUpdated, TimeDistance;
  }

  /** A repetition lengthens the segment of this batch, or else the tail, or else becomes one. */
  lemma RepeatedLeaves(b: Batch, candidate: Candidate, load: Loader, now: Time)
    requires Usable(candidate) && Repeats(KnowledgeOf(b, KeyNamed(candidate), load, now), candidate.observation)
    ensures var o, key, m := candidate.observation, KeyNamed(candidate), Merge(b, candidate, load, now);
      var known := KnowledgeOf(b, key, load, now).known;
      var better := BetterBoundary(known, o, Trusted(candidate));
      && m.accepted && key in m.batch.current && m.batch.current[key].lastMaterializedAt == known.lastMaterializedAt
      && Remembers(m.batch.current[key], known.remainingPercent,
                   if better then o.resetAtSource else known.resetAtSource,
                   if better then o.resetAt else known.resetAt, o)
      && (m.materialized <==> HasSegment(b, key))
      && if HasSegment(b, key) then
           var i := b.current[key].pendingIndex;
           && m.batch.stable == b.stable
           && m.batch.pending == b.pending[i := Lengthened(b.pending[i], o, Trusted(candidate), better)]
         else
           && m.batch.pending == b.pending
           && m.batch.stable == b.stable[key := LengthenedTail(b, key, Segment(candidate), better)]
  {
    hide KnowledgeOf, Recovered, Merge, Admissible, Usable, Judge, Segment, KeyNamed, Keyed, Enact, Remembers,
      SameCycle, Opens, Calibrates, BoundaryUpdated, BetterBoundary, WithinCycle;
    var key, s := KeyNamed(candidate), Segment(candidate);
    SegmentIs(candidate);
    MergeIsEnact(b, candidate, load, now);
    KnowledgeIs(b, key, load, now);
    SameWay(KnowledgeOf(b, key, load, now), candidate);
    var r := Recovered(b, key, load, now).value;
    VerdictIs(r.current[key], s);
    EnactRepeated(r, key, s);
    SegmentFields(candidate, Merge(b, candidate, load, now).batch.current[key]);
    SameBetter(KnowledgeOf(b, key, load, now).known, candidate);
  }

  lemma SameBetter(known: Known, candidate: Candidate)
    ensures BetterBoundary(known, candidate.observation, Trusted(candidate))
            <==> BetterBoundary(known, Segment(candidate), Trusted(candidate))
  {
  }

  function Recalibrated(p: Observation, o: Observation, trusted: bool): Observation {
    p.(resetAtSource := o.resetAtSource, resetAt := o.resetAt,
       observationCount := p.observationCount + o.observationCount,
       authoritative := p.authoritative || trusted)
  }

  lemma EnactCalibrated(b: Batch, key: Key, o: Observation)
    requires key in b.current && Judge(b.current[key], o).Calibrate?
    ensures var c, m := b.current[key], Enact(b, key, b.current[key], o);
      && m.accepted && m.materialized && key in m.batch.current && key !in m.batch.stable
      && m.batch.current[key].lastMaterializedAt == c.lastMaterializedAt
      && Remembers(m.batch.current[key], c.remainingPercent, o.resetAtSource, o.resetAt, o)
      && var waiting := TailFirst(b, key);
         if 0 <= c.pendingIndex < |waiting| then
           m.batch.pending == waiting[c.pendingIndex := Recalibrated(waiting[c.pendingIndex], o, o.authoritative)]
         else
           && m.batch.pending == waiting + [o.(remainingPercent := c.remainingPercent)]
           && m.batch.current[key].pendingIndex == |waiting|
  {
    hide TimeDistance;
  }

  /** A calibration changes the boundary of the segment of this batch, or is stored as a segment of its own. */
  lemma CalibratedLeaves(b: Batch, candidate: Candidate, load: Loader, now: Time)
    requires var knowledge := KnowledgeOf(b, KeyNamed(candidate), load, now);
      Usable(candidate) && Calibrates(knowledge, candidate.observation, Trusted(candidate))
    ensures var o, key, m := candidate.observation, KeyNamed(candidate), Merge(b, candidate, load, now);
      var known := KnowledgeOf(b, key, load, now).known;
      && m.accepted && m.materialized && key in m.batch.current && key !in m.batch.stable
      && m.batch.current[key].lastMaterializedAt == known.lastMaterializedAt
      && Remembers(m.batch.current[key], known.remainingPercent, o.resetAtSource, o.resetAt, o)
      && var index, waiting := if key in b.current then b.current[key].pendingIndex else -1, TailFirst(b, key);
         if 0 <= index < |waiting| then
           m.batch.pending == waiting[index := Recalibrated(waiting[index], o, Trusted(candidate))]
         else
           && m.batch.pending == waiting + [Segment(candidate).(remainingPercent := known.remainingPercent)]
           && m.batch.current[key].pendingIndex == |waiting|
  {
    hide KnowledgeOf, Recovered, Merge, Admissible, Usable, Judge, Segment, KeyNamed, Keyed, Enact, Remembers,
      SameCycle, Opens, Repeats, BoundaryUpdated, WithinCycle;
    var key, s := KeyNamed(candidate), Segment(candidate);
    SegmentIs(candidate);
    MergeIsEnact(b, candidate, load, now);
    KnowledgeIs(b, key, load, now);
    SameWay(KnowledgeOf(b, key, load, now), candidate);
    var r := Recovered(b, key, load, now).value;
    VerdictIs(r.current[key], s);
    EnactCalibrated(r, key, s);
    SegmentFields(candidate, Merge(b, candidate, load, now).batch.current[key]);
  }

  /** What is not accepted changes nothing, but that a failed recovery is not tried again in this batch. */
  lemma RefusedLeaves(b: Batch, candidate: Candidate, load: Loader, now: Time)
    requires !Merge(b, candidate, load, now).accepted
    ensures var key, m := KeyNamed(candidate), Merge(b, candidate, load, now);
      && !m.materialized && m.batch.pending == b.pending && m.batch.stable == b.stable
      && m.batch.failed == b.failed + (if Usable(candidate) && key !in b.current && load(key).None? then {key} else {})
      && (forall k | k in b.current :: k in m.batch.current && m.batch.current[k] == b.current[k])
      && (forall k | k in m.batch.current && k != key :: k in b.current)
  {
  }
}
