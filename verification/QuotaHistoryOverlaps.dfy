/** When the order of a window's segments breaks: exactly where a segment starts behind the end of its window's tail. */
module QuotaHistoryOverlaps {
  import opened QuotaHistory
  import opened QuotaHistoryInvariants
  import opened QuotaHistoryRuns
  import opened QuotaHistoryChronology
  import opened Wrappers
  import Sorting
  import Text

  // ----- when the order breaks -----

  lemma LiveEnds(b: Batch, key: Key) returns (i: nat)
    requires Inv(b) && key in b.current && key in KeysOf(b.pending)
    ensures i < |b.pending| && KeyOf(b.pending[i]) == key
      && b.pending[i].lastObservedAt == b.current[key].lastObservedAt
  {
    var j: nat :| j < |b.pending| && KeyOf(b.pending[j]) == key;
    assert PendingReferenced(b, j) && IndexMirrors(b, key);
    i := b.current[key].pendingIndex;
  }

  /** A segment appended before the known end of its window is out of order. */
  lemma AppendOverlaps(b: Batch, s: Batch, floors: Floors, key: Key, c: Current, o: Observation)
    requires Inv(b) && key in b.current && EndKnown(b, floors, key) && s == SealTail(b, key)
    requires KeyOf(o) == key && o.firstObservedAt < b.current[key].lastObservedAt
    ensures !Chrono(AppendLive(s, key, c, o), floors)
  {
    var b' := AppendLive(s, key, c, o);
    var n := |s.pending|;
    assert b'.pending[n] == o;
    if key in b.stable {
      assert StableMirrors(b, key);
      assert b'.pending[n - 1] == b.stable[key].observation;
    } else if key in KeysOf(b.pending) {
      var i := LiveEnds(b, key);
      assert b'.pending[i] == b.pending[i];
    } else {
      assert !InPlace(b', floors, n);
    }
  }

  /** One observation leaves its window in order exactly if it is clear. */
  lemma EnactChronoExactly(b: Batch, floors: Floors, key: Key, o: Observation)
    requires Inv(b) && Chrono(b, floors) && Tight(b, floors) && key in b.current && KeyOf(o) == key && WellFormed(o)
    ensures Chrono(Enact(b, key, b.current[key], o).batch, floors) <==> Clear(b, key, b.current[key], o)
  {
    var c := b.current[key];
    if Clear(b, key, c, o) {
      EnactChrono(b, floors, key, o);
    } else {
      assert EndKnown(b, floors, key);
      match Judge(c, o)
      case Change => AppendOverlaps(b, SealTail(b, key), floors, key, Changed(c, o), o);
      case Calibrate => AppendOverlaps(b, SealTail(b, key), floors, key, Calibrated(c, o),
        o.(remainingPercent := c.remainingPercent));
      case Extend => DeferOverlaps(b, floors, key, o);
    }
  }

  lemma DeferOverlaps(b: Batch, floors: Floors, key: Key, o: Observation)
    requires Inv(b) && key in b.current && EndKnown(b, floors, key) && KeyOf(o) == key
    requires Judge(b.current[key], o) == Extend && !Clear(b, key, b.current[key], o)
    ensures !Chrono(Enact(b, key, b.current[key], o).batch, floors)
  {
    NoneLive(b, key);
    assert !FloorHolds(Enact(b, key, b.current[key], o).batch, floors, key);
  }

  lemma NoneLive(b: Batch, key: Key)
    requires Inv(b) && key in b.current && !Live(b.current[key], b.pending)
    ensures key !in KeysOf(b.pending)
  {
    forall i: nat | i < |b.pending| ensures KeyOf(b.pending[i]) != key { assert PendingReferenced(b, i); }
  }

  lemma RecoveredChrono(b: Batch, floors: Floors, key: Key, load: Loader, now: Time) returns (floors': Floors)
    requires Inv(b) && Chrono(b, floors) && Tight(b, floors) && Recovered(b, key, load, now).Some?
    ensures var r := Recovered(b, key, load, now).value;
      key in r.current && Inv(r) && Chrono(r, floors') && Tight(r, floors') && Raises(floors, floors')
  {
    hide Chrono, Tight, Inv;
    floors' := floors;
    if key !in b.current {
      floors' := LoadChrono(b, floors, key, load(key).value, now);
      LoadInv(b, key, load(key).value, now);
    }
  }

  lemma ClearWhenRecovered(b: Batch, candidate: Candidate, load: Loader, now: Time)
    requires Admissible(candidate) && Recovered(b, KeyOf(Keyed(candidate)), load, now).Some?
    ensures var o, r := Keyed(candidate), Recovered(b, KeyOf(Keyed(candidate)), load, now).value;
      KeyOf(o) in r.current && (ClearCandidate(b, candidate, load, now) <==> Clear(r, KeyOf(o), r.current[KeyOf(o)], o))
  {
  }

  /**
   After any run that is clear so far, what is stored of every window lies below its floor, in order, and
   the next candidate leaves the pending and deferred segments in order above the floors exactly if it is
   clear too: if not, its segment starts before another one of its window ends, stored or not.
   */
  lemma OrderExactly(inputs: seq<Input>, candidates: seq<Candidate>, candidate: Candidate, load: Loader, now: Time)
    returns (b: Batch, floors: Floors)
    requires ClearRun(inputs) && ClearBatch(StateAfter(inputs), candidates, load, now) && Admissible(candidate)
    requires Recovered(MergeAll(Opened(StateAfter(inputs)), candidates, load, now).batch, KeyOf(Keyed(candidate)),
      load, now).Some?
    ensures b == MergeAll(Opened(StateAfter(inputs)), candidates, load, now).batch
    ensures Chrono(Recovered(b, KeyOf(Keyed(candidate)), load, now).value, floors)
    ensures Tight(Recovered(b, KeyOf(Keyed(candidate)), load, now).value, floors)
    ensures forall k :: TraceBelow(Trace(inputs, k), floors, k)
    ensures Chrono(Merge(b, candidate, load, now).batch, floors) <==> ClearCandidate(b, candidate, load, now)
  {
    hide StateAfter, MergeAll, Chrono, Tight, Enact, Clear, ClearBatch, Inv, Merge, ClearCandidate, Recovered,
      Admissible;
    var s := StateAfter(inputs);
    var f := RunFloors(inputs);
    RunSettled(inputs);
    floors := MergeAllChrono(s, f, candidates, load, now);
    MergeAllInv(s, candidates, load, now);
    b := MergeAll(Opened(s), candidates, load, now).batch;
    var o := Keyed(candidate);
    floors := RecoveredChrono(b, floors, KeyOf(o), load, now);
    MergeIsEnact(b, candidate, load, now);
    ClearWhenRecovered(b, candidate, load, now);
    EnactChronoExactly(Recovered(b, KeyOf(o), load, now).value, floors, KeyOf(o), o);
    forall k ensures TraceBelow(Trace(inputs, k), floors, k) { assert TraceBelow(Trace(inputs, k), f, k); }
  }

  // ----- an overlap -----

  /** A verified candidate alone in a batch whose window is new, or changes. */
  ghost predicate ChangesAlone(s: State, input: Input) {
    && |input.candidates| == 1 && input.candidates[0].identityVerified && Admissible(input.candidates[0])
    && s.stable == map[] && Settled(s) && input.writeOk
    && var o := Keyed(input.candidates[0]);
       if KeyOf(o) in s.current then Judge(s.current[KeyOf(o)], o) == Change else input.load(KeyOf(o)) == Some(Missing)
  }

  lemma AloneOrdered(input: Input)
    requires |input.candidates| == 1 && input.candidates[0].identityVerified
    ensures Ordered(input.candidates, input.identities) == input.candidates
  {
    var c := input.candidates;
    assert c == [c[0]] && c[1..] == [];
    var p := IsVerified(VerifiedAccounts(input.identities));
    assert p(c[0]);
    assert Sorting.Filter(c, p) == c;
    Sorting.SortOfSorted(c, CandidateLess);
  }

  lemma AloneSubmitted(s: State, input: Input)
    requires ChangesAlone(s, input)
    ensures var o, out := Keyed(input.candidates[0]), Process(s, input);
      && out.submitted == [o] && out.state.stable == map[] && KeyOf(o) in out.state.current
      && SameTail(out.state.current[KeyOf(o)], FromObservation(o))
  {
    hide Judge, Finish, Admissible;
    AloneOrdered(input);
    var c := input.candidates;
    var o := Keyed(c[0]);
    assert c[..0] == [] && c == [c[0]];
    var f := MergedBatch(s, input);
    AloneMerged(s, input);
    var due := DueOf(f.batch, f.cohorts, input);
    assert due == {};
    assert f.batch.pending + DueSegments(Marked(f.batch, f.cohorts), due) == [o];
    Sorting.SortOfSorted([o], SegmentLess);
    MergeAllInv(s, c, input.load, input.now);
    FinishStores(f.batch, f.cohorts, input);
  }

  predicate SameTail(c: Current, d: Current) {
    && c.found == d.found && c.hasTail == d.hasTail && c.windowSeconds == d.windowSeconds
      && c.resetAtSource == d.resetAtSource
    && c.resetAt == d.resetAt && c.remainingPercent == d.remainingPercent && c.lastObservedAt == d.lastObservedAt
  }

  lemma AloneMerged(s: State, input: Input)
    requires ChangesAlone(s, input)
    ensures var o, b := Keyed(input.candidates[0]), MergeAll(Opened(s), input.candidates, input.load, input.now).batch;
      && b.pending == [o] && b.stable == map[] && KeyOf(o) in b.current
        && SameTail(b.current[KeyOf(o)], FromObservation(o))
  {
    var c := input.candidates;
    assert c[..0] == [];
    assert MergeAll(Opened(s), c[..0], input.load, input.now).batch == Opened(s);
  }

  lemma AloneTrace(inputs: seq<Input>, input: Input)
    requires ChangesAlone(StateAfter(inputs), input)
    ensures var o, s := Keyed(input.candidates[0]), StateAfter(inputs + [input]);
      && Trace(inputs + [input], KeyOf(o)) == Trace(inputs, KeyOf(o)) + [o]
      && s.stable == map[] && Settled(s) && KeyOf(o) in s.current && SameTail(s.current[KeyOf(o)], FromObservation(o))
  {
    hide Process, Admissible, Judge;
    var all := inputs + [input];
    assert all[..|all| - 1] == inputs;
    AloneSubmitted(StateAfter(inputs), input);
    RunSettled(all);
    var o := Keyed(input.candidates[0]);
    OfOne(o);
  }

  lemma OfOne(o: Observation)
    ensures Of([o], KeyOf(o)) == [o]
  {
    var p := IsOf(KeyOf(o));
    assert p(o);
    Sorting.FilterCons(o, [], p);
    assert [o] + [] == [o] && Sorting.Filter([], p) == [];
  }

  function Observed(first: Time, last: Time, percent: int): Candidate {
    Candidate(Observation("a", "primary", 18000, "absolute", 1000 * SECOND, percent, first, last, 1, false), true,
      UsageHeader)
  }

  function AloneInput(candidate: Candidate): Input {
    Input([candidate], None, k => Some(Missing), 1, HEARTBEAT_INTERVAL, false, true)
  }

  /** A span of two instants, which no producer builds, is not clear: what is stored for its window then overlaps. */
  lemma SpanOverlaps()
    ensures var inputs := [] + [AloneInput(Observed(10, 10, 50))] + [AloneInput(Observed(5, 20, 40))];
      !ClearRun(inputs) && !Chronological(Trace(inputs, Key("a", "primary")))
  {
    hide StateAfter, Trace;
    var one, two := AloneInput(Observed(10, 10, 50)), AloneInput(Observed(5, 20, 40));
    var k := Key("a", "primary");
    KeysPlain();
    NothingYet(k);
    AloneTrace([], one);
    AloneTrace([] + [one], two);
    var inputs := [] + [one] + [two];
    var t := Trace(inputs, k);
    assert t == [] + [Keyed(Observed(10, 10, 50))] + [Keyed(Observed(5, 20, 40))];
    assert t[0].lastObservedAt == 10 && t[1].firstObservedAt == 5;
    if ClearRun(inputs) { ClearChronology(inputs, k); }
  }

  lemma NothingYet(k: Key)
    ensures StateAfter([]) == State(map[], map[]) && Trace([], k) == []
  {
  }

  lemma KeysPlain()
    ensures forall first, last, percent :: CandidateKey(Observed(first, last, percent)) == Key("a", "primary")
  {
    assert Text.TrimSpace("a") == "a" && Text.TrimSpace("primary") == "primary";
    assert Text.ToLower("primary") == "primary";
  }
}
