/** What moves in one direction only over whole runs: the remembered instant, and the percentage inside a cycle. */
module QuotaHistoryProgress {
  import opened QuotaHistory
  import opened QuotaHistoryInvariants
  import opened QuotaHistoryRuns

  /** Once a window has a tail it keeps one, and its last instant does not go back. */
  ghost predicate Advances(before: Current, after: Current) {
    before.found && before.hasTail ==> after.found && after.hasTail && before.lastObservedAt <= after.lastObservedAt
  }

  /** Another cycle: of another length, or of the same length with a later reset. */
  ghost predicate StartsLaterCycle(c: Current, o: Observation) {
    !SameCycle(c, o) && (c.windowSeconds == o.windowSeconds ==> c.resetAt < o.resetAt)
  }

  /**
   The candidate is accepted for the window with at least this percentage, and is authoritative or starts a
   later cycle.
   */
  ghost predicate Raises(b: Batch, candidate: Candidate, load: Loader, now: Time, k: Key, percent: int) {
    && KeyOf(Keyed(candidate)) == k && k in b.current
    && Merge(b, candidate, load, now).accepted
    && Keyed(candidate).remainingPercent >= percent
    && (Keyed(candidate).authoritative || StartsLaterCycle(b.current[k], Keyed(candidate)))
  }

  // ----- one candidate -----

  lemma EnactProgress(b: Batch, key: Key, o: Observation)
    requires key in b.current && WellFormed(o)
    ensures var m := Enact(b, key, b.current[key], o);
      && (forall k | k in b.current && k != key :: k in m.batch.current && m.batch.current[k] == b.current[k])
      && key in m.batch.current && Advances(b.current[key], m.batch.current[key])
      && (b.current[key].found && b.current[key].hasTail
          && m.batch.current[key].remainingPercent > b.current[key].remainingPercent ==>
            && m.accepted && o.remainingPercent == m.batch.current[key].remainingPercent
            && (o.authoritative || StartsLaterCycle(b.current[key], o)))
      && (b.current[key].found && m.accepted && !SameCycle(b.current[key], o) ==>
            StartsLaterCycle(b.current[key], o) && m.batch.current[key].resetAt == o.resetAt)
  {
  }

  lemma MergeProgress(b: Batch, candidate: Candidate, load: Loader, now: Time, k: Key)
    requires k in b.current
    ensures var m := Merge(b, candidate, load, now);
      && k in m.batch.current && Advances(b.current[k], m.batch.current[k])
      && (b.current[k].found && b.current[k].hasTail
          && m.batch.current[k].remainingPercent > b.current[k].remainingPercent ==>
            Raises(b, candidate, load, now, k, m.batch.current[k].remainingPercent))
  {
    hide Enact, StartsLaterCycle;
    var o := Keyed(candidate);
    var key := KeyOf(o);
    if Admissible(candidate) {
      if key in b.current {
        EnactProgress(b, key, o);
      } else if key !in b.failed && load(key).Some? {
        EnactProgress(b.(current := b.current[key := Loaded(load(key).value, now)]), key, o);
      }
    }
  }

  // ----- one batch -----

  lemma {:induction false} MergeAllProgress(s: State, candidates: seq<Candidate>, load: Loader, now: Time, k: Key)
      returns (m: nat)
    requires k in s.current
    ensures var after := MergeAll(Opened(s), candidates, load, now).batch;
      && k in after.current && Advances(s.current[k], after.current[k])
      && (s.current[k].found && s.current[k].hasTail
          && after.current[k].remainingPercent > s.current[k].remainingPercent ==>
            m < |candidates| && Raises(Met(s, candidates, m, load, now), candidates[m], load, now, k,
              after.current[k].remainingPercent))
  {
    hide Merge, Raises;
    m := 0;
    if candidates != [] {
      var n := |candidates| - 1;
      m := MergeAllProgress(s, candidates[..n], load, now, k);
      var before := MergeAll(Opened(s), candidates[..n], load, now).batch;
      MergeProgress(before, candidates[n], load, now, k);
      var percent := MergeAll(Opened(s), candidates, load, now).batch.current[k].remainingPercent;
      if percent > before.current[k].remainingPercent {
        m := n;
      } else if s.current[k].found && s.current[k].hasTail && percent > s.current[k].remainingPercent {
        assert candidates[..n][..m] == candidates[..m] && candidates[..n][m] == candidates[m];
        RaisesLess(Met(s, candidates, m, load, now), candidates[m], load, now, k, before.current[k].remainingPercent,
          percent);
      }
    }
  }

  lemma RaisesLess(b: Batch, candidate: Candidate, load: Loader, now: Time, k: Key, high: int, low: int)
    requires Raises(b, candidate, load, now, k, high) && low <= high
    ensures Raises(b, candidate, load, now, k, low)
  {
  }

  lemma ProcessProgress(s: State, input: Input, k: Key) returns (m: nat)
    requires Settled(s) && k in s.current && k in Process(s, input).state.current
    ensures var after, candidates := Process(s, input).state.current[k], Ordered(input.candidates, input.identities);
      && Advances(s.current[k], after)
      && (s.current[k].found && s.current[k].hasTail && after.remainingPercent > s.current[k].remainingPercent ==>
            m < |candidates| && Raises(Met(s, candidates, m, input.load, input.now), candidates[m], input.load,
              input.now, k, after.remainingPercent))
  {
    hide Raises, Finish, Submitted;
    var candidates := Ordered(input.candidates, input.identities);
    m := MergeAllProgress(s, candidates, input.load, input.now, k);
    MergeAllInv(s, candidates, input.load, input.now);
    FinishStores(MergedBatch(s, input).batch, MergedBatch(s, input).cohorts, input);
  }

  // ----- runs -----

  /** The window stays in memory from one batch boundary to another. */
  ghost predicate StaysLoaded(inputs: seq<Input>, i: nat, j: nat, k: Key)
    requires i <= j <= |inputs|
  {
    forall m | i <= m <= j :: k in StateAfter(inputs[..m]).current
  }

  ghost predicate RaisedIn(inputs: seq<Input>, n: nat, m: nat, k: Key, percent: int)
    requires n < |inputs|
  {
    var s, input := StateAfter(inputs[..n]), inputs[n];
    var candidates := Ordered(input.candidates, input.identities);
    m < |candidates| && Raises(Met(s, candidates, m, input.load, input.now), candidates[m], input.load, input.now, k,
      percent)
  }

  lemma RunStep(inputs: seq<Input>, j: nat, k: Key) returns (m: nat)
    requires j < |inputs| && k in StateAfter(inputs[..j]).current && k in StateAfter(inputs[..j + 1]).current
    ensures var before, after := StateAfter(inputs[..j]).current[k], StateAfter(inputs[..j + 1]).current[k];
      && Advances(before, after)
      && (before.found && before.hasTail && after.remainingPercent > before.remainingPercent
        ==> RaisedIn(inputs, j, m, k, after.remainingPercent))
  {
    hide Raises, Process;
    RunSettled(inputs[..j]);
    assert inputs[..j + 1][..j] == inputs[..j];
    m := ProcessProgress(StateAfter(inputs[..j]), inputs[j], k);
  }

  /** Over any run, while a window stays in memory, its remembered instant never goes back. */
  lemma {:induction false} NeverBack(inputs: seq<Input>, i: nat, j: nat, k: Key)
    requires i <= j <= |inputs| && StaysLoaded(inputs, i, j, k)
    ensures Advances(StateAfter(inputs[..i]).current[k], StateAfter(inputs[..j]).current[k])
    decreases j - i
  {
    hide StateAfter, Advances;
    if i < j {
      NeverBack(inputs, i, j - 1, k);
      var m := RunStep(inputs, j - 1, k);
      AdvancesOn(StateAfter(inputs[..i]).current[k], StateAfter(inputs[..j - 1]).current[k],
        StateAfter(inputs[..j]).current[k]);
    } else {
      AdvancesOn(StateAfter(inputs[..i]).current[k], StateAfter(inputs[..i]).current[k],
        StateAfter(inputs[..i]).current[k]);
    }
  }

  lemma AdvancesOn(a: Current, b: Current, c: Current)
    ensures Advances(a, a)
    ensures Advances(a, b) && Advances(b, c) ==> Advances(a, c)
  {
  }

  /**
   Over any run, while a window stays in memory, its percentage is higher than before only if an accepted
   observation of at least that percentage was authoritative or started a later cycle. So inside one cycle
   a rise is always the word of an authoritative source.
   */
  lemma {:induction false} RisesOnlyTrusted(inputs: seq<Input>, i: nat, j: nat, k: Key) returns (n: nat, m: nat)
    requires i <= j <= |inputs| && StaysLoaded(inputs, i, j, k)
    requires StateAfter(inputs[..i]).current[k].found && StateAfter(inputs[..i]).current[k].hasTail
    requires StateAfter(inputs[..j]).current[k].remainingPercent > StateAfter(inputs[..i]).current[k].remainingPercent
    ensures i <= n < j && RaisedIn(inputs, n, m, k, StateAfter(inputs[..j]).current[k].remainingPercent)
    decreases j - i
  {
    hide StateAfter, RaisedIn;
    assert i < j;
    var before, after := StateAfter(inputs[..j - 1]).current[k], StateAfter(inputs[..j]).current[k];
    NeverBack(inputs, i, j - 1, k);
    m := RunStep(inputs, j - 1, k);
    n := j - 1;
    if after.remainingPercent <= before.remainingPercent {
      n, m := RisesOnlyTrusted(inputs, i, j - 1, k);
      RaisedLess(inputs, n, m, k, before.remainingPercent, after.remainingPercent);
    }
  }

  lemma RaisedLess(inputs: seq<Input>, n: nat, m: nat, k: Key, high: int, low: int)
    requires n < |inputs| && RaisedIn(inputs, n, m, k, high) && low <= high
    ensures RaisedIn(inputs, n, m, k, low)
  {
  }
}
