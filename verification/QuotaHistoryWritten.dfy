/**
 What a whole batch does, in plain terms: which candidates it looks at and in what order, which of them are
 counted as accepted, and what is handed to the writer.
 */
module QuotaHistoryWritten {
  import opened QuotaHistory
  import opened QuotaHistoryInvariants
  import opened QuotaHistoryRuns
  import opened QuotaHistoryAcceptance
  import opened Wrappers
  import Sorting
  import Text

  // ----- which candidates, in which order -----

  /** The caller vouches for the account, or a successful lookup lists it. */
  predicate Confirmed(candidate: Candidate, identities: Option<seq<string>>) {
    || candidate.identityVerified
    || (identities.Some? && Text.TrimSpace(candidate.observation.authIndex) != ""
        && exists n :: n in identities.value && Text.TrimSpace(n) == Text.TrimSpace(candidate.observation.authIndex))
  }

  lemma ConfirmedIs(candidate: Candidate, identities: Option<seq<string>>)
    ensures IsVerified(VerifiedAccounts(identities))(candidate) <==> Confirmed(candidate, identities)
  {
    var name := Text.TrimSpace(candidate.observation.authIndex);
    if identities.Some? {
      if name in VerifiedAccounts(identities) {
        var i :| 0 <= i < |identities.value| && Text.TrimSpace(identities.value[i]) == name && name != "";
        assert identities.value[i] in identities.value;
      }
      if n :| n in identities.value && Text.TrimSpace(n) == name && name != "" {
        var i :| 0 <= i < |identities.value| && identities.value[i] == n;
      }
    }
  }

  /** Exactly the confirmed candidates, each as often as it came. */
  lemma LookedAt(candidates: seq<Candidate>, identities: Option<seq<string>>, candidate: Candidate)
    ensures multiset(Ordered(candidates, identities))[candidate]
         == if Confirmed(candidate, identities) then multiset(candidates)[candidate] else 0
    ensures candidate in Ordered(candidates, identities)
       <==> candidate in candidates && Confirmed(candidate, identities)
  {
    ConfirmedIs(candidate, identities);
    Sorting.FilterCounts(candidates, IsVerified(VerifiedAccounts(identities)), candidate);
  }

  /** A window's candidates are looked at from the earliest to the latest. */
  lemma EarliestFirst(candidates: seq<Candidate>, identities: Option<seq<string>>, i: nat, j: nat)
    requires i < j < |Ordered(candidates, identities)|
    requires KeyNamed(Ordered(candidates, identities)[i]) == KeyNamed(Ordered(candidates, identities)[j])
    ensures Ordered(candidates, identities)[i].observation.lastObservedAt
         <= Ordered(candidates, identities)[j].observation.lastObservedAt
  {
    hide Sorting.Sort, Sorting.Filter;
    CandidateOrder();
    Sorting.SortSorted(Sorting.Filter(candidates, IsVerified(VerifiedAccounts(identities))), CandidateLess);
  }

  /** A trusted answer names the window. */
  ghost predicate Answered(candidates: seq<Candidate>, key: Key) {
    && key.authIndex != "" && (key.windowRole == "primary" || key.windowRole == "secondary")
    && exists t :: t in candidates && Trusted(t) && KeyNamed(t) == key
  }

  /** Of the two queues the trusted answers stay, and the Headers of windows without one, as often as they came. */
  lemma SplitExactly(candidates: seq<Candidate>, c: Candidate)
    ensures multiset(Preferred(candidates).trusted)[c] == if Trusted(c) then multiset(candidates)[c] else 0
    ensures multiset(Preferred(candidates).headers)[c]
         == if Trusted(c) || Answered(candidates, KeyNamed(c)) then 0 else multiset(candidates)[c]
  {
    hide Sorting.Filter, KeyNamed, CandidateKey;
    assert IsTrusted()(c) <==> Trusted(c);
    Sorting.FilterCounts(candidates, IsTrusted(), c);
    Sorting.FilterCounts(candidates, IsUncovered(TrustedKeys(candidates)), c);
    forall t: Candidate ensures CandidateKey(t) == KeyNamed(t) { NamedAlike(t); }
    AnsweredIs(candidates, KeyNamed(c));
  }

  lemma NamedAlike(t: Candidate)
    ensures CandidateKey(t) == KeyNamed(t)
  {
  }

  lemma AnsweredIs(candidates: seq<Candidate>, key: Key)
    ensures key in TrustedKeys(candidates) <==> Answered(candidates, key)
  {
    hide KeyNamed, CandidateKey;
    forall t: Candidate ensures CandidateKey(t) == KeyNamed(t) { NamedAlike(t); }
    if Answered(candidates, key) {
      var t :| t in candidates && Trusted(t) && KeyNamed(t) == key;
      var i :| 0 <= i < |candidates| && candidates[i] == t;
    }
    if key in TrustedKeys(candidates) {
      var i :| 0 <= i < |candidates| && Authoritative(candidates[i].source) && CandidateKey(candidates[i]) == key;
      assert candidates[i] in candidates;
    }
  }

  function SeenAt(key: Key, at: int): Candidate -> bool {
    (candidate: Candidate) => KeyNamed(candidate) == key && candidate.observation.lastObservedAt == at
  }

  /** Those of one instant in the order they came. */
  lemma ArrivalOrderKept(candidates: seq<Candidate>, identities: Option<seq<string>>, key: Key, at: int)
    ensures Sorting.Filter(Ordered(candidates, identities), SeenAt(key, at))
         == Sorting.Filter(Sorting.Filter(candidates, IsVerified(VerifiedAccounts(identities))), SeenAt(key, at))
  {
    hide Sorting.Sort, Sorting.Filter, IsVerified;
    var verified := Sorting.Filter(candidates, IsVerified(VerifiedAccounts(identities)));
    CandidateOrder();
    Sorting.FilterSort(verified, CandidateLess, SeenAt(key, at));
    var f := Sorting.Filter(verified, SeenAt(key, at));
    forall i, j | 0 <= i < j < |f| ensures !CandidateLess(f[j], f[i]) { assert f[i] in f && f[j] in f; }
    Sorting.SortOfSorted(f, CandidateLess);
  }

  // ----- what is counted as accepted and as changed -----

  /** The candidate at a position is accepted there. */
  ghost predicate TakenAt(s: State, candidates: seq<Candidate>, m: nat, load: Loader, now: Time)
    requires m < |candidates|
  {
    var o, b := candidates[m].observation, Met(s, candidates, m, load, now);
    var knowledge := KnowledgeOf(b, KeyNamed(candidates[m]), load, now);
    && Usable(candidates[m])
    && (|| Opens(knowledge, o, Trusted(candidates[m])) || Repeats(knowledge, o)
        || Calibrates(knowledge, o, Trusted(candidates[m])))
  }

  /** It changes something at once, instead of lengthening a tail. */
  ghost predicate ChangesAt(s: State, candidates: seq<Candidate>, m: nat, load: Loader, now: Time)
    requires m < |candidates|
  {
    var b := Met(s, candidates, m, load, now);
    && TakenAt(s, candidates, m, load, now)
    && (Repeats(KnowledgeOf(b, KeyNamed(candidates[m]), load, now), candidates[m].observation)
        ==> HasSegment(b, KeyNamed(candidates[m])))
  }

  lemma TakenIs(b: Batch, candidate: Candidate, load: Loader, now: Time)
    ensures var knowledge, o := KnowledgeOf(b, KeyNamed(candidate), load, now), candidate.observation;
      var m := Merge(b, candidate, load, now);
      && (m.accepted <==> Usable(candidate) && (Opens(knowledge, o, Trusted(candidate)) || Repeats(knowledge, o)
                                                || Calibrates(knowledge, o, Trusted(candidate))))
      && (m.materialized <==> m.accepted && (Repeats(knowledge, o) ==> HasSegment(b, KeyNamed(candidate))))
      && Keyed(candidate) == Segment(candidate)
      && CandidateCohort(candidate) == Cohort(KeyNamed(candidate).authIndex, o.lastObservedAt)
  {
    hide Merge, KnowledgeOf, Usable, Opens, Repeats, Calibrates, Trusted, HasSegment;
    var knowledge, o := KnowledgeOf(b, KeyNamed(candidate), load, now), candidate.observation;
    SegmentIs(candidate);
    AcceptedExactly(b, candidate, load, now);
    OneWay(knowledge, o, Trusted(candidate));
    if Merge(b, candidate, load, now).accepted {
      if Opens(knowledge, o, Trusted(candidate)) {
        OpenedLeaves(b, candidate, load, now);
      } else if Repeats(knowledge, o) {
        RepeatedLeaves(b, candidate, load, now);
      } else {
        CalibratedLeaves(b, candidate, load, now);
      }
    } else {
      RefusedLeaves(b, candidate, load, now);
    }
  }

  lemma SameBefore(s: State, candidates: seq<Candidate>, load: Loader, now: Time, m: nat, n: nat)
    requires m < n <= |candidates|
    ensures TakenAt(s, candidates[..n], m, load, now) <==> TakenAt(s, candidates, m, load, now)
    ensures ChangesAt(s, candidates[..n], m, load, now) <==> ChangesAt(s, candidates, m, load, now)
  {
    hide KnowledgeOf, Usable, Opens, Repeats, Calibrates, Trusted, HasSegment, KeyNamed;
    assert candidates[..n][..m] == candidates[..m];
  }

  /** The accepted list holds the segments of exactly those candidates. */
  lemma {:induction false} AcceptedAre(s: State, candidates: seq<Candidate>, load: Loader, now: Time)
    ensures var accepted := MergeAll(Opened(s), candidates, load, now).accepted;
      && (forall m | 0 <= m < |candidates| && TakenAt(s, candidates, m, load, now) ::
            Segment(candidates[m]) in accepted)
      && (forall p | p in accepted ::
            exists m :: 0 <= m < |candidates| && TakenAt(s, candidates, m, load, now) && Segment(candidates[m]) == p)
  {
    hide Segment, TakenAt, ChangesAt, MergeAll;
    if candidates == [] {
      NoneTaken(s, load, now);
    } else {
      var n := |candidates| - 1;
      AcceptedAre(s, candidates[..n], load, now);
      forall m | 0 <= m < n
        ensures TakenAt(s, candidates[..n], m, load, now) <==> TakenAt(s, candidates, m, load, now)
      {
        SameBefore(s, candidates, load, now, m, n);
      }
      LastTaken(s, candidates, load, now);
      forall p | p in MergeAll(Opened(s), candidates, load, now).accepted
        ensures exists m :: 0 <= m < |candidates| && TakenAt(s, candidates, m, load, now) && Segment(candidates[m]) == p
      {
        if p in MergeAll(Opened(s), candidates[..n], load, now).accepted {
          var m :| 0 <= m < n && TakenAt(s, candidates[..n], m, load, now) && Segment(candidates[..n][m]) == p;
          assert TakenAt(s, candidates, m, load, now);
        }
      }
    }
  }

  lemma NoneTaken(s: State, load: Loader, now: Time)
    ensures MergeAll(Opened(s), [], load, now).accepted == [] && MergeAll(Opened(s), [], load, now).cohorts == {}
  {
  }

  function Response(candidate: Candidate): Cohort {
    Cohort(KeyNamed(candidate).authIndex, candidate.observation.lastObservedAt)
  }

  /** The changed responses are those of exactly the candidates that change something. */
  lemma {:induction false} ChangedAre(s: State, candidates: seq<Candidate>, load: Loader, now: Time, c: Cohort)
    ensures c in MergeAll(Opened(s), candidates, load, now).cohorts
       <==> exists m :: 0 <= m < |candidates| && ChangesAt(s, candidates, m, load, now) && c == Response(candidates[m])
  {
    hide Response, TakenAt, ChangesAt;
    if candidates != [] {
      var n := |candidates| - 1;
      ChangedAre(s, candidates[..n], load, now, c);
      forall m | 0 <= m < n
        ensures ChangesAt(s, candidates[..n], m, load, now) <==> ChangesAt(s, candidates, m, load, now)
      {
        SameBefore(s, candidates, load, now, m, n);
      }
      LastTaken(s, candidates, load, now);
      if c in MergeAll(Opened(s), candidates[..n], load, now).cohorts {
        var m :| 0 <= m < n && ChangesAt(s, candidates[..n], m, load, now) && c == Response(candidates[..n][m]);
        assert ChangesAt(s, candidates, m, load, now);
      }
    }
  }

  lemma LastTaken(s: State, candidates: seq<Candidate>, load: Loader, now: Time)
    requires candidates != []
    ensures var n := |candidates| - 1;
      var before, f := MergeAll(Opened(s), candidates[..n], load, now), MergeAll(Opened(s), candidates, load, now);
      && f.accepted == before.accepted + (if TakenAt(s, candidates, n, load, now) then [Segment(candidates[n])] else [])
      && f.cohorts
        == before.cohorts + (if ChangesAt(s, candidates, n, load, now) then {Response(candidates[n])} else {})
  {
    hide Segment, KeyNamed, KnowledgeOf, Usable, Opens, Repeats, Calibrates, Trusted, HasSegment, Merge, Keyed,
      CandidateCohort;
    var n := |candidates| - 1;
    TakenIs(Met(s, candidates, n, load, now), candidates[n], load, now);
  }

  // ----- what is written -----

  /** It must be written by now: on shutdown, with a changed response, or because it has waited long enough. */
  ghost predicate Pressing(b: Batch, cohorts: set<Cohort>, input: Input, k: Key)
    requires k in b.stable
  {
    var d := b.stable[k];
    || input.shutdown || d.immediate || Cohort(k.authIndex, d.observation.lastObservedAt) in cohorts
    || k !in b.current || b.current[k].lastMaterializedAt == 0
    || input.now >= b.current[k].lastMaterializedAt + input.heartbeat
  }

  /** Itself pressing, or seen in the same response as one that is. */
  ghost predicate Writes(b: Batch, cohorts: set<Cohort>, input: Input, k: Key) {
    && k in b.stable
    && exists j :: j in b.stable && j.authIndex == k.authIndex
                   && b.stable[j].observation.lastObservedAt == b.stable[k].observation.lastObservedAt
                   && Pressing(b, cohorts, input, j)
  }

  lemma WritesIs(b: Batch, cohorts: set<Cohort>, input: Input, k: Key)
    ensures k in DueOf(b, cohorts, input) <==> Writes(b, cohorts, input, k)
  {
    var m := Marked(b, cohorts);
    assert m.stable.Keys == b.stable.Keys;
    forall j | j in b.stable
      ensures StableCohort(j, m.stable[j]) == Cohort(j.authIndex, b.stable[j].observation.lastObservedAt)
      ensures Due(m, j, input.now, input.heartbeat, input.shutdown) <==> Pressing(b, cohorts, input, j)
    {
    }
    if k in DueOf(b, cohorts, input) {
      var j :| j in m.stable && Due(m, j, input.now, input.heartbeat, input.shutdown)
               && StableCohort(j, m.stable[j]) == StableCohort(k, m.stable[k]);
      assert Pressing(b, cohorts, input, j);
    }
  }

  /** The writer gets the segments of the batch and exactly the tails that must be written; only those leave. */
  lemma WrittenExactly(b: Batch, cohorts: set<Cohort>, input: Input)
    requires Inv(b)
    ensures forall p :: p in Submitted(b, cohorts, input)
                        <==> p in b.pending || exists k :: Writes(b, cohorts, input, k) && b.stable[k].observation == p
    ensures forall k :: k in Finish(b, cohorts, input).stable <==> k in b.stable && !Writes(b, cohorts, input, k)
    ensures forall k | k in Finish(b, cohorts, input).stable ::
      Finish(b, cohorts, input).stable[k].observation == b.stable[k].observation
  {
    hide Writes, DueOf, Finish, Due, DueSegments, KeysOf, MarkCohorts, Inv;
    MarkKeeps(b, cohorts);
    FinishParts(b, cohorts, input);
    FinishStores(b, cohorts, input);
    forall k ensures k in DueOf(b, cohorts, input) <==> Writes(b, cohorts, input, k) { WritesIs(b, cohorts, input, k); }
    var due := DueOf(b, cohorts, input);
    DueWithin(b, cohorts, input);
    DueSegmentsAre(b, cohorts, due);
  }

  lemma DueWithin(b: Batch, cohorts: set<Cohort>, input: Input)
    ensures DueOf(b, cohorts, input) <= b.stable.Keys
  {
  }

  lemma MarkKeeps(b: Batch, cohorts: set<Cohort>)
    ensures Marked(b, cohorts).stable.Keys == b.stable.Keys
    ensures forall k | k in b.stable :: Marked(b, cohorts).stable[k].observation == b.stable[k].observation
  {
  }

  lemma SegmentsListed(stable: map<Key, Deferred>, keys: seq<Key>, p: Observation)
    requires forall k | k in keys :: k in stable
    ensures p in StableSegments(stable, keys) <==> exists k :: k in keys && stable[k].observation == p
  {
    var tails := StableSegments(stable, keys);
    if p in tails {
      var i :| 0 <= i < |tails| && tails[i] == p;
      assert keys[i] in keys;
    }
    if k :| k in keys && stable[k].observation == p {
      var i :| 0 <= i < |keys| && keys[i] == k;
      assert tails[i] == p;
    }
  }

  lemma DueSegmentsAre(b: Batch, cohorts: set<Cohort>, due: set<Key>)
    requires due <= b.stable.Keys
    ensures forall p ::
      p in DueSegments(Marked(b, cohorts), due) <==> exists k :: k in due && b.stable[k].observation == p
  {
    hide Sorting.StrictTotalOrder, KeyLess, MarkCohorts, StableSegments;
    KeyOrder();
    MarkKeeps(b, cohorts);
    forall p
      ensures p in DueSegments(Marked(b, cohorts), due) <==> exists k :: k in due && b.stable[k].observation == p
    {
      SegmentsListed(Marked(b, cohorts).stable, Sorting.Ascending(due, KeyLess), p);
    }
  }

  // ----- a new segment reaches the writer -----

  /** The same segment, possibly lengthened or with a better boundary since. */
  predicate Continues(p: Observation, q: Observation) {
    && KeyOf(q) == KeyOf(p) && q.windowSeconds == p.windowSeconds && q.remainingPercent == p.remainingPercent
    && q.firstObservedAt == p.firstObservedAt && q.lastObservedAt >= p.lastObservedAt
    && q.observationCount >= p.observationCount
  }

  /** Later candidates leave segments in place; those of other windows do not touch them. */
  lemma SegmentStays(b: Batch, candidate: Candidate, load: Loader, now: Time, i: nat)
    requires Inv(b) && i < |b.pending|
    ensures var after := Merge(b, candidate, load, now).batch.pending;
      && i < |after| && Continues(b.pending[i], after[i])
      && (KeyNamed(candidate) != KeyOf(b.pending[i]) ==> after[i] == b.pending[i])
  {
    hide Admissible, Enact, Inv;
    var o := Keyed(candidate);
    var r := Recovered(b, KeyOf(o), load, now);
    SegmentIs(candidate);
    MergeIsEnact(b, candidate, load, now);
    if Admissible(candidate) && r.Some? {
      RecoveredInv(b, KeyOf(o), load, now);
      EnactStays(r.value, KeyOf(o), o, i);
    }
  }

  lemma EnactStays(b: Batch, key: Key, o: Observation, i: nat)
    requires Inv(b) && key in b.current && i < |b.pending| && WellFormed(o)
    ensures var after := Enact(b, key, b.current[key], o).batch.pending;
      && i < |after| && Continues(b.pending[i], after[i]) && (key != KeyOf(b.pending[i]) ==> after[i] == b.pending[i])
  {
    hide SameCycle;
    assert IndexMirrors(b, key);
  }

  lemma {:induction false} SegmentSurvives(s: State, candidates: seq<Candidate>, m: nat, load: Loader, now: Time,
      i: nat)
    requires Settled(s) && m <= |candidates| && i < |Met(s, candidates, m, load, now).pending|
    ensures var p := Met(s, candidates, m, load, now).pending[i];
      var after := MergeAll(Opened(s), candidates, load, now).batch.pending;
      && i < |after| && Continues(p, after[i])
      && ((forall j | m <= j < |candidates| :: KeyNamed(candidates[j]) != KeyOf(p)) ==> after[i] == p)
    decreases |candidates|
  {
    hide Merge, KeyNamed;
    var n := |candidates| - 1;
    if m == |candidates| {
      assert candidates[..m] == candidates;
    } else {
      assert candidates[..n][..m] == candidates[..m];
      SegmentSurvives(s, candidates[..n], m, load, now, i);
      MergeAllInv(s, candidates[..n], load, now);
      SegmentStays(MergeAll(Opened(s), candidates[..n], load, now).batch, candidates[n], load, now, i);
    }
  }

  /**
   Every candidate that opens a segment reaches the writer in this very batch: as it was observed, if no later
   candidate is of its window, and else with its window, percentage and first instant.
   */
  lemma OpenedIsSubmitted(s: State, input: Input, m: nat)
    requires Settled(s) && m < |Ordered(input.candidates, input.identities)|
    requires var candidates := Ordered(input.candidates, input.identities);
      var b := Met(s, candidates, m, input.load, input.now);
      var knowledge := KnowledgeOf(b, KeyNamed(candidates[m]), input.load, input.now);
      Usable(candidates[m]) && Opens(knowledge, candidates[m].observation, Trusted(candidates[m]))
    ensures var candidates := Ordered(input.candidates, input.identities);
      exists p :: p in Process(s, input).submitted && Continues(Segment(candidates[m]), p)
    ensures var candidates := Ordered(input.candidates, input.identities);
      (forall j | m < j < |candidates| :: KeyNamed(candidates[j]) != KeyNamed(candidates[m]))
      ==> Segment(candidates[m]) in Process(s, input).submitted
  {
    hide Merge, Usable, Opens, KnowledgeOf, Finish, DueOf, Segment, KeyNamed, Trusted, Ordered;
    var candidates := Ordered(input.candidates, input.identities);
    var b := Met(s, candidates, m, input.load, input.now);
    OpenedLeaves(b, candidates[m], input.load, input.now);
    SegmentIs(candidates[m]);
    assert candidates[..m + 1][..m] == candidates[..m];
    var after := Met(s, candidates, m + 1, input.load, input.now);
    var i := |after.pending| - 1;
    assert after.pending[i] == Segment(candidates[m]);
    SegmentSurvives(s, candidates, m + 1, input.load, input.now, i);
    var last := MergedBatch(s, input).batch.pending;
    assert last[i] in last;
  }
}
