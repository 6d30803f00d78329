/** Whole batches and whole runs: the observation ledger, what a flush leaves, and settled states. */
module QuotaHistoryRuns {
  import opened QuotaHistory
  import opened QuotaHistoryInvariants
  import Sorting
  import Text

  // ----- ledger of observation counts -----

  function Weight(o: Observation, k: Key): int {
    if KeyOf(o) == k then o.observationCount else 0
  }

  function Count(s: seq<Observation>, k: Key): int {
    if s == [] then 0 else Count(s[..|s| - 1], k) + Weight(s[|s| - 1], k)
  }

  function StableCount(stable: map<Key, Deferred>, k: Key): int {
    if k in stable then stable[k].observation.observationCount else 0
  }

  function Held(b: Batch, k: Key): int {
    Count(b.pending, k) + StableCount(b.stable, k)
  }

  lemma CountAppend(s: seq<Observation>, o: Observation, k: Key)
    ensures Count(s + [o], k) == Count(s, k) + Weight(o, k)
  {
    assert (s + [o])[..|s|] == s;
  }

  lemma {:induction false} CountConcat(a: seq<Observation>, b: seq<Observation>, k: Key)
    ensures Count(a + b, k) == Count(a, k) + Count(b, k)
  {
    if b == [] {
      assert a + b == a;
    } else {
      CountConcat(a, b[..|b| - 1], k);
      assert (a + b)[..|a + b| - 1] == a + b[..|b| - 1];
    }
  }

  lemma {:induction false} CountUpdate(s: seq<Observation>, i: nat, o: Observation, k: Key)
    requires i < |s|
    ensures Count(s[i := o], k) == Count(s, k) - Weight(s[i], k) + Weight(o, k)
  {
    if i < |s| - 1 {
      CountUpdate(s[..|s| - 1], i, o, k);
      assert s[i := o][..|s| - 1] == s[..|s| - 1][i := o];
    } else {
      assert s[i := o][..i] == s[..i];
    }
  }

  /** Reordering a batch for the writer moves no counts. */
  lemma {:induction false} CountPermuted(a: seq<Observation>, b: seq<Observation>, k: Key)
    requires multiset(a) == multiset(b)
    ensures Count(a, k) == Count(b, k)
  {
    if a == [] {
      assert |multiset(b)| == 0;
    } else {
      var x := a[|a| - 1];
      Sorting.DropLast(a);
      var j := Sorting.TakeOut(b, x);
      CountPermuted(a[..|a| - 1], b[..j] + b[j + 1..], k);
      CountConcat(b[..j], b[j + 1..], k);
      CountConcat(b[..j] + [x], b[j + 1..], k);
      CountAppend(b[..j], x, k);
    }
  }

  lemma SealTailHeld(b: Batch, key: Key, k: Key)
    requires Inv(b)
    ensures Held(SealTail(b, key), k) == Held(b, k)
  {
    if key in b.stable {
      assert StableMirrors(b, key);
      CountAppend(b.pending, b.stable[key].observation, k);
    }
  }

  lemma EnactHeld(b: Batch, key: Key, o: Observation, k: Key)
    requires Inv(b) && key in b.current && KeyOf(o) == key && WellFormed(o)
    ensures var m := Enact(b, key, b.current[key], o);
      Held(m.batch, k) == Held(b, k) + if m.accepted then Weight(o, k) else 0
  {
    hide Inv, WellFormed, SameCycle, Count, StableCount;
    var c := b.current[key];
    match Judge(c, o)
    case Reject =>
    case Change =>
      SealTailHeld(b, key, k);
      CountAppend(SealTail(b, key).pending, o, k);
    case Calibrate => CalibrateHeld(b, key, o, k);
    case Extend => ExtendHeld(b, key, o, k);
  }

  lemma CalibrateHeld(b: Batch, key: Key, o: Observation, k: Key)
    requires Inv(b) && key in b.current && KeyOf(o) == key && Judge(b.current[key], o) == Calibrate
    ensures var m := Enact(b, key, b.current[key], o); m.accepted && Held(m.batch, k) == Held(b, k) + Weight(o, k)
  {
    hide WellFormed, SameCycle, Judge, Count, StableCount;
    var c := b.current[key];
    assert IndexMirrors(b, key);
    SealTailHeld(b, key, k);
    if key in b.stable { assert StableMirrors(b, key); }
    if Live(c, b.pending) {
      CountUpdate(b.pending, c.pendingIndex, CalibratedSegment(b.pending[c.pendingIndex], o), k);
    } else {
      CountAppend(SealTail(b, key).pending, o.(remainingPercent := c.remainingPercent), k);
    }
  }

  lemma ExtendHeld(b: Batch, key: Key, o: Observation, k: Key)
    requires Inv(b) && key in b.current && KeyOf(o) == key && Judge(b.current[key], o) == Extend
    ensures var m := Enact(b, key, b.current[key], o); m.accepted && Held(m.batch, k) == Held(b, k) + Weight(o, k)
  {
    hide WellFormed, SameCycle, Judge, Count;
    var c := b.current[key];
    assert IndexMirrors(b, key);
    if key in b.stable { assert StableMirrors(b, key); }
    if Live(c, b.pending) {
      CountUpdate(b.pending, c.pendingIndex, ExtendedSegment(b.pending[c.pendingIndex], o, BoundaryUpdated(c, o)), k);
    }
  }

  lemma RecoveredInv(b: Batch, key: Key, load: Loader, now: Time)
    requires Inv(b) && Recovered(b, key, load, now).Some?
    ensures Inv(Recovered(b, key, load, now).value)
  {
    if key !in b.current { LoadInv(b, key, load(key).value, now); }
  }

  /** The candidate repeats the percentage of a window that has no live segment. */
  predicate Defers(b: Batch, candidate: Candidate, load: Loader, now: Time) {
    var o := Keyed(candidate);
    var r := Recovered(b, KeyOf(o), load, now);
    && Admissible(candidate) && r.Some? && KeyOf(o) in r.value.current
    && Judge(r.value.current[KeyOf(o)], o) == Extend && !Live(r.value.current[KeyOf(o)], b.pending)
  }

  /** One candidate adds exactly its count to what is pending and deferred when it is accepted; else nothing. */
  lemma MergeHeld(b: Batch, candidate: Candidate, load: Loader, now: Time, k: Key)
    requires Inv(b)
    ensures var m := Merge(b, candidate, load, now);
      Held(m.batch, k) == Held(b, k) + if m.accepted then Weight(Keyed(candidate), k) else 0
  {
    hide Enact, Recovered, Admissible, Inv;
    var o := Keyed(candidate);
    MergeIsEnact(b, candidate, load, now);
    var r := Recovered(b, KeyOf(o), load, now);
    if Admissible(candidate) && r.Some? {
      RecoveredInv(b, KeyOf(o), load, now);
      SameHeld(b, KeyOf(o), load, now, k);
      EnactHeld(r.value, KeyOf(o), o, k);
    }
  }

  lemma SameHeld(b: Batch, key: Key, load: Loader, now: Time, k: Key)
    requires Recovered(b, key, load, now).Some?
    ensures Held(Recovered(b, key, load, now).value, k) == Held(b, k)
  {
  }

  /**
   Accepted is not the same as reported: a candidate is accepted without being reported as a change exactly
   when it defers, and then only its window's deferred tail takes it; every other accepted one is reported.
   */
  lemma AcceptedUnreported(b: Batch, candidate: Candidate, load: Loader, now: Time)
    ensures var m := Merge(b, candidate, load, now);
      && (m.materialized ==> m.accepted)
      && (m.accepted && !m.materialized <==> Defers(b, candidate, load, now))
      && (Defers(b, candidate, load, now) ==>
            && m.batch.pending == b.pending && KeyOf(Keyed(candidate)) in m.batch.stable
            && m.batch.stable - {KeyOf(Keyed(candidate))} == b.stable - {KeyOf(Keyed(candidate))})
  {
    hide SameCycle, WellFormed, Judge;
  }

  lemma {:induction false} MergeAllHeld(s: State, candidates: seq<Candidate>, load: Loader, now: Time, k: Key)
    requires Settled(s)
    ensures var f := MergeAll(Opened(s), candidates, load, now);
      Held(f.batch, k) == StableCount(s.stable, k) + Count(f.accepted, k)
  {
    if candidates != [] {
      var n := |candidates| - 1;
      var b := Opened(s);
      var before := MergeAll(b, candidates[..n], load, now);
      MergeAllHeld(s, candidates[..n], load, now, k);
      MergeAllInv(s, candidates[..n], load, now);
      MergeHeld(before.batch, candidates[n], load, now, k);
      CountAppend(before.accepted, Keyed(candidates[n]), k);
    }
  }

  // ----- the end of a batch -----

  lemma {:induction false} CountStableSegments(stable: map<Key, Deferred>, keys: seq<Key>, k: Key)
    requires forall x | x in keys :: x in stable && KeyOf(stable[x].observation) == x
    requires forall i, j | 0 <= i < j < |keys| :: keys[i] != keys[j]
    ensures Count(StableSegments(stable, keys), k) == if k in keys then StableCount(stable, k) else 0
  {
    if keys != [] {
      var n := |keys| - 1;
      assert keys[n] in keys;
      CountStableSegments(stable, keys[..n], k);
      assert StableSegments(stable, keys)[..n] == StableSegments(stable, keys[..n]);
      assert k in keys <==> k in keys[..n] || k == keys[n];
    }
  }

  ghost predicate StableKeyed(s: State) {
    forall k | k in s.stable :: KeyOf(s.stable[k].observation) == k
  }

  lemma DueSegmentsCount(s: State, due: set<Key>, k: Key)
    requires StableKeyed(s) && due <= s.stable.Keys
    ensures Count(DueSegments(s, due), k) == if k in due then StableCount(s.stable, k) else 0
    ensures KeysOf(DueSegments(s, due)) == due
  {
    hide Text.Less, KeyLess, Count, StableCount;
    KeyOrder();
    var keys := Sorting.Ascending(due, KeyLess);
    forall i, j | 0 <= i < j < |keys| ensures keys[i] != keys[j] { KeyLessTotal(keys[i], keys[j]); }
    CountStableSegments(s.stable, keys, k);
    var segments := DueSegments(s, due);
    forall x ensures x in KeysOf(segments) <==> x in due {
      if x in due {
        assert x in keys;
        var i :| 0 <= i < |keys| && keys[i] == x;
        assert KeyOf(segments[i]) == x;
      }
      if x in KeysOf(segments) {
        var i :| 0 <= i < |segments| && KeyOf(segments[i]) == x;
        assert keys[i] in keys;
      }
    }
  }

  lemma KeysOfSorted(s: seq<Observation>)
    ensures KeysOf(Sorting.Sort(s, SegmentLess)) == KeysOf(s)
  {
    var r := Sorting.Sort(s, SegmentLess);
    forall k ensures k in KeysOf(r) <==> k in KeysOf(s) {
      if k in KeysOf(r) {
        var i :| 0 <= i < |r| && KeyOf(r[i]) == k;
        assert r[i] in s;
      }
      if k in KeysOf(s) {
        var i :| 0 <= i < |s| && KeyOf(s[i]) == k;
        assert s[i] in r;
      }
    }
  }

  lemma KeysOfConcat(a: seq<Observation>, b: seq<Observation>)
    ensures KeysOf(a + b) == KeysOf(a) + KeysOf(b)
  {
    forall k | k in KeysOf(a) + KeysOf(b) ensures k in KeysOf(a + b) {
      if k in KeysOf(a) {
        var i :| 0 <= i < |a| && KeyOf(a[i]) == k;
        assert (a + b)[i] == a[i];
      } else {
        var i :| 0 <= i < |b| && KeyOf(b[i]) == k;
        assert (a + b)[|a| + i] == b[i];
      }
    }
  }

  /** Flushing removes the submitted tails either way; only a failure forgets whole windows. */
  lemma FlushStores(s: State, submitted: seq<Observation>, due: set<Key>, now: Time, ok: bool)
    requires KeysOf(submitted) * s.stable.Keys == due
    ensures var after := AfterFlush(s, submitted, due, now, ok);
      && after.stable == s.stable - due
      && (forall k | k in after.current :: k in s.current
            && after.current[k] == if k in KeysOf(submitted)
              then s.current[k].(lastMaterializedAt := now, pendingIndex := -1)
                                   else s.current[k].(pendingIndex := if ok && submitted != [] then -1
                                     else s.current[k].pendingIndex))
      && (forall k | k in s.current :: k in after.current <==> ok || k !in KeysOf(submitted))
  {
    if submitted == [] {
      assert s.stable - due == s.stable;
    }
    assert s.stable - KeysOf(submitted) == s.stable - due;
  }

  lemma FinishParts(b: Batch, cohorts: set<Cohort>, input: Input)
    requires Inv(b)
    ensures StableKeyed(Marked(b, cohorts))
    ensures KeysOf(Submitted(b, cohorts, input)) == KeysOf(b.pending) + DueOf(b, cohorts, input)
    ensures KeysOf(b.pending) !! b.stable.Keys
  {
    forall k | k in b.stable ensures KeyOf(b.stable[k].observation) == k && k !in KeysOf(b.pending) {
      assert StableMirrors(b, k);
      DeferredOrPending(b, k);
    }
    var due := DueOf(b, cohorts, input);
    var segments := DueSegments(Marked(b, cohorts), due);
    DueSegmentsCount(Marked(b, cohorts), due, Key("", ""));
    KeysOfSorted(b.pending + segments);
    KeysOfConcat(b.pending, segments);
  }

  lemma FinishStores(b: Batch, cohorts: set<Cohort>, input: Input)
    requires Inv(b)
    ensures var after := Finish(b, cohorts, input);
      var keys := KeysOf(Submitted(b, cohorts, input));
      && after.stable == Marked(b, cohorts).stable - DueOf(b, cohorts, input)
      && (forall k | k in after.current :: k in b.current
            && after.current[k] == if k in keys then b.current[k].(lastMaterializedAt := input.now,
              pendingIndex := -1) else b.current[k])
      && (forall k | k in b.current :: k in after.current <==> input.writeOk || k !in keys)
  {
    hide KeysOf, Submitted, AfterFlush;
    FinishParts(b, cohorts, input);
    var submitted := Submitted(b, cohorts, input);
    FlushStores(Marked(b, cohorts), submitted, DueOf(b, cohorts, input), input.now, input.writeOk);
    forall k | k in b.current && k !in KeysOf(submitted) ensures b.current[k].pendingIndex == -1 {
      UnsubmittedIdle(b, k);
    }
  }

  lemma UnsubmittedIdle(b: Batch, k: Key)
    requires Inv(b) && k in b.current && k !in KeysOf(b.pending)
    ensures b.current[k].pendingIndex == -1
  {
    assert IndexMirrors(b, k);
    var i := b.current[k].pendingIndex;
    assert 0 <= i < |b.pending| ==> KeyOf(b.pending[i]) in KeysOf(b.pending);
  }

  /** After every batch, whether its write succeeded or failed, no index is alive and tails mirror. */
  lemma FinishSettles(b: Batch, cohorts: set<Cohort>, input: Input)
    requires Inv(b)
    ensures Settled(Finish(b, cohorts, input))
  {
    hide Finish, Submitted, KeysOf, Sorting.Sort;
    FinishParts(b, cohorts, input);
    FinishStores(b, cohorts, input);
    var after := Finish(b, cohorts, input);
    forall k | k in after.current ensures after.current[k].pendingIndex == -1 {
      if k !in KeysOf(Submitted(b, cohorts, input)) { UnsubmittedIdle(b, k); }
    }
    forall k | k in after.stable
      ensures k in after.current && TailMirrors(after.stable[k].observation, after.current[k], k)
    {
      assert StableMirrors(b, k);
    }
  }

  lemma SubmittedCount(b: Batch, cohorts: set<Cohort>, input: Input, k: Key)
    requires StableKeyed(Marked(b, cohorts))
    ensures Count(Submitted(b, cohorts, input), k)
         == Count(b.pending, k) + if k in DueOf(b, cohorts, input) then StableCount(b.stable, k) else 0
  {
    var due := DueOf(b, cohorts, input);
    var segments := DueSegments(Marked(b, cohorts), due);
    DueSegmentsCount(Marked(b, cohorts), due, k);
    CountConcat(b.pending, segments, k);
    CountPermuted(Sorting.Sort(b.pending + segments, SegmentLess), b.pending + segments, k);
  }

  lemma FinishConserves(b: Batch, cohorts: set<Cohort>, input: Input, k: Key)
    requires Inv(b)
    ensures Held(b, k) == Count(Submitted(b, cohorts, input), k) + StableCount(Finish(b, cohorts, input).stable, k)
  {
    hide Finish, Submitted, KeysOf, Count;
    FinishParts(b, cohorts, input);
    FinishStores(b, cohorts, input);
    SubmittedCount(b, cohorts, input, k);
    var after := Finish(b, cohorts, input);
    assert k in after.stable <==> k in b.stable && k !in DueOf(b, cohorts, input);
  }

  lemma NotDue(b: Batch, cohorts: set<Cohort>, input: Input, k: Key)
    requires k in b.stable && k !in DueOf(b, cohorts, input)
    ensures !Due(Marked(b, cohorts), k, input.now, input.heartbeat, input.shutdown)
  {
    var m := Marked(b, cohorts);
    assert StableCohort(k, m.stable[k]) !in DueCohorts(m, input.now, input.heartbeat, input.shutdown);
  }

  lemma ProcessSettles(s: State, input: Input)
    requires Settled(s)
    ensures Settled(Process(s, input).state)
  {
    MergeAllInv(s, Ordered(input.candidates, input.identities), input.load, input.now);
    FinishSettles(MergedBatch(s, input).batch, MergedBatch(s, input).cohorts, input);
  }

  /**
   Conservation over one batch: what was accepted plus what was already deferred is exactly what the
   writer was handed plus what stays deferred, for every window, also when the write fails.
   */
  lemma ProcessConserves(s: State, input: Input, k: Key)
    requires Settled(s)
    ensures var out := Process(s, input);
      Count(out.accepted, k) + StableCount(s.stable, k) == Count(out.submitted, k) + StableCount(out.state.stable, k)
  {
    MergeAllInv(s, Ordered(input.candidates, input.identities), input.load, input.now);
    MergeAllHeld(s, Ordered(input.candidates, input.identities), input.load, input.now, k);
    FinishConserves(MergedBatch(s, input).batch, MergedBatch(s, input).cohorts, input, k);
  }

  /** A shutdown batch leaves no deferred tail behind, even if its write fails. */
  lemma ShutdownEmptiesStable(s: State, input: Input)
    requires Settled(s) && input.shutdown
    ensures Process(s, input).state.stable == map[]
  {
    MergeAllInv(s, Ordered(input.candidates, input.identities), input.load, input.now);
    FinishEmptiesStable(MergedBatch(s, input).batch, MergedBatch(s, input).cohorts, input);
  }

  lemma FinishEmptiesStable(b: Batch, cohorts: set<Cohort>, input: Input)
    requires Inv(b) && input.shutdown
    ensures Finish(b, cohorts, input).stable == map[]
  {
    FinishStores(b, cohorts, input);
    forall k ensures k !in Finish(b, cohorts, input).stable {
      if k in b.stable && k !in DueOf(b, cohorts, input) { NotDue(b, cohorts, input, k); }
    }
  }

  /** No tail that survives a batch was due, nor shared a response with anything the batch wrote. */
  ghost predicate Undue(after: State, k: Key, cohorts: set<Cohort>, input: Input)
    requires k in after.stable
  {
    && !after.stable[k].immediate
    && StableCohort(k, after.stable[k]) !in cohorts
    && k in after.current
    && after.current[k].lastMaterializedAt != 0
    && input.now < after.current[k].lastMaterializedAt + input.heartbeat
  }

  lemma SurvivorsNotDue(s: State, input: Input, k: Key)
    requires Settled(s) && k in Process(s, input).state.stable
    ensures Undue(Process(s, input).state, k, MergedBatch(s, input).cohorts, input)
  {
    MergeAllInv(s, Ordered(input.candidates, input.identities), input.load, input.now);
    FinishSurvivors(MergedBatch(s, input).batch, MergedBatch(s, input).cohorts, input, k);
  }

  lemma FinishSurvivors(b: Batch, cohorts: set<Cohort>, input: Input, k: Key)
    requires Inv(b) && k in Finish(b, cohorts, input).stable
    ensures Undue(Finish(b, cohorts, input), k, cohorts, input)
  {
    FinishParts(b, cohorts, input);
    FinishStores(b, cohorts, input);
    assert StableMirrors(b, k);
    NotDue(b, cohorts, input, k);
  }

  /** The batch as the candidate at a position meets it. */
  function Met(s: State, candidates: seq<Candidate>, m: nat, load: Loader, now: Time): Batch
    requires m <= |candidates|
  {
    MergeAll(Opened(s), candidates[..m], load, now).batch
  }

  // ----- runs -----

  ghost function StateAfter(inputs: seq<Input>): State {
    if inputs == [] then State(map[], map[])
    else Process(StateAfter(inputs[..|inputs| - 1]), inputs[|inputs| - 1]).state
  }

  ghost function LastOutcome(inputs: seq<Input>): Outcome
    requires inputs != []
  {
    Process(StateAfter(inputs[..|inputs| - 1]), inputs[|inputs| - 1])
  }

  ghost function AcceptedCount(inputs: seq<Input>, k: Key): int {
    if inputs == [] then 0 else AcceptedCount(inputs[..|inputs| - 1], k) + Count(LastOutcome(inputs).accepted, k)
  }

  /** Observations the writer stored. */
  ghost function WrittenCount(inputs: seq<Input>, k: Key): int {
    if inputs == [] then 0
    else
      var submitted := Count(LastOutcome(inputs).submitted, k);
      WrittenCount(inputs[..|inputs| - 1], k) + (if inputs[|inputs| - 1].writeOk then submitted else 0)
  }

  /** Observations dropped with a failed write. */
  ghost function LostCount(inputs: seq<Input>, k: Key): int {
    if inputs == [] then 0
    else
      var submitted := Count(LastOutcome(inputs).submitted, k);
      LostCount(inputs[..|inputs| - 1], k) + (if inputs[|inputs| - 1].writeOk then 0 else submitted)
  }

  lemma {:induction false} RunSettled(inputs: seq<Input>)
    ensures Settled(StateAfter(inputs))
  {
    if inputs != [] {
      RunSettled(inputs[..|inputs| - 1]);
      ProcessSettles(StateAfter(inputs[..|inputs| - 1]), inputs[|inputs| - 1]);
    }
  }

  /** The ledger over any run: accepted is written, lost with a failed write, or still deferred. */
  lemma {:induction false} Ledger(inputs: seq<Input>, k: Key)
    ensures AcceptedCount(inputs, k)
         == WrittenCount(inputs, k) + LostCount(inputs, k) + StableCount(StateAfter(inputs).stable, k)
  {
    if inputs != [] {
      Ledger(inputs[..|inputs| - 1], k);
      RunSettled(inputs[..|inputs| - 1]);
      ProcessConserves(StateAfter(inputs[..|inputs| - 1]), inputs[|inputs| - 1], k);
    }
  }

  /** With every write succeeding nothing is lost, and a final shutdown batch writes everything. */
  lemma {:induction false} LedgerWithoutFailures(inputs: seq<Input>, k: Key)
    requires forall i | 0 <= i < |inputs| :: inputs[i].writeOk
    ensures AcceptedCount(inputs, k) == WrittenCount(inputs, k) + StableCount(StateAfter(inputs).stable, k)
    ensures inputs != [] && inputs[|inputs| - 1].shutdown ==> AcceptedCount(inputs, k) == WrittenCount(inputs, k)
  {
    Ledger(inputs, k);
    NothingLost(inputs, k);
    if inputs != [] && inputs[|inputs| - 1].shutdown {
      RunSettled(inputs[..|inputs| - 1]);
      ShutdownEmptiesStable(StateAfter(inputs[..|inputs| - 1]), inputs[|inputs| - 1]);
    }
  }

  lemma {:induction false} NothingLost(inputs: seq<Input>, k: Key)
    requires forall i | 0 <= i < |inputs| :: inputs[i].writeOk
    ensures LostCount(inputs, k) == 0
  {
    if inputs != [] {
      NothingLost(inputs[..|inputs| - 1], k);
    }
  }
}
