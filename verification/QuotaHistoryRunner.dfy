/** The runner itself: maps and lists updated in place, proved against QuotaHistory's functions. */
module QuotaHistoryRunner {
  import opened QuotaHistory
  import QuotaHistoryInvariants
  import opened QuotaHistoryRuns
  import opened Wrappers
  import Sorting
  import Text

  class Runner {
    /** The remembered cycle of every window. */
    var current: map<Key, Current>
    /** The one deferred tail a window may have. */
    var stable: map<Key, Deferred>
    /** The current batch's segments and its windows whose recovery failed. */
    var pending: seq<Observation>
    var failedRecoveries: set<Key>
    const heartbeat: int

    ghost function Snapshot(): Batch
      reads this
    {
      Batch(current, stable, pending, failedRecoveries)
    }

    ghost function Stores(): State
      reads this
    {
      State(current, stable)
    }

    constructor (heartbeat: int)
      ensures Stores() == State(map[], map[]) && pending == [] && this.heartbeat == heartbeat
    {
      current, stable, pending, failedRecoveries := map[], map[], [], {};
      this.heartbeat := heartbeat;
    }

    method AppendDeferredStable(key: Key)
      modifies this`stable, this`pending
      ensures Snapshot() == SealTail(old(Snapshot()), key)
    {
      if key !in stable {
        return;
      }
      pending := pending + [stable[key].observation];
      stable := stable - {key};
    }

    method AppendChange(key: Key, remembered: Current, o: Observation)
      modifies this`current, this`pending
      ensures Snapshot() == AppendLive(old(Snapshot()), key, Changed(remembered, o), o)
    {
      pending := pending + [o];
      var c := remembered;
      if !c.found || c.windowSeconds != o.windowSeconds || !SameCycle(c, o) {
        c := FromObservation(o);
      } else {
        c := c.(hasTail := true, remainingPercent := o.remainingPercent);
        c := c.(lastObservedAt := o.lastObservedAt);
        c := c.(resetAtSource := o.resetAtSource, resetAt := o.resetAt);
      }
      c := c.(pendingIndex := |pending| - 1);
      current := current[key := c];
    }

    method MergeDeferredStable(key: Key, o: Observation, immediate: bool)
      modifies this`stable
      ensures Snapshot() == Defer(old(Snapshot()), key, o, immediate)
    {
      if key !in stable {
        stable := stable[key := Deferred(o, immediate)];
        return;
      }
      var deferred := stable[key];
      var segment := deferred.observation;
      segment := segment.(lastObservedAt := o.lastObservedAt,
                          observationCount := segment.observationCount + o.observationCount);
      segment := segment.(authoritative := segment.authoritative || o.authoritative);
      if o.authoritative || (segment.resetAtSource == "relative" && o.resetAtSource == "absolute") {
        segment := segment.(resetAtSource := o.resetAtSource, resetAt := o.resetAt);
      }
      stable := stable[key := Deferred(segment, deferred.immediate || immediate)];
    }

    /** The same-instant boundary calibration, on the live segment or as a new one. */
    method CalibrateTail(key: Key, calibrated: Current, o: Observation)
      modifies this
      ensures var s := SealTail(old(Snapshot()), key);
        Snapshot() ==
          if Live(calibrated, s.pending) then
            s.(pending := s.pending[calibrated.pendingIndex := CalibratedSegment(s.pending[calibrated.pendingIndex],
              o)],
               current := s.current[key := calibrated])
          else
            AppendLive(s, key, calibrated, o.(remainingPercent := calibrated.remainingPercent))
    {
      AppendDeferredStable(key);
      var c := calibrated;
      if 0 <= c.pendingIndex < |pending| {
        var p := pending[c.pendingIndex];
        p := p.(resetAtSource := o.resetAtSource, resetAt := o.resetAt);
        p := p.(observationCount := p.observationCount + o.observationCount, authoritative := p.authoritative
          || o.authoritative);
        pending := pending[c.pendingIndex := p];
      } else {
        pending := pending + [o.(remainingPercent := c.remainingPercent)];
        c := c.(pendingIndex := |pending| - 1);
      }
      current := current[key := c];
    }

    /** An equal percentage at a later instant: merged into the live segment, or deferred. */
    method ExtendTail(key: Key, calibrated: Current, o: Observation, boundaryUpdated: bool) returns (materialized: bool)
      modifies this
      ensures materialized == Live(calibrated, old(pending))
      ensures var b := old(Snapshot());
        var c := calibrated.(lastObservedAt := o.lastObservedAt);
        Snapshot() ==
          if Live(calibrated, b.pending) then
            b.(pending := b.pending[c.pendingIndex := ExtendedSegment(b.pending[c.pendingIndex], o, boundaryUpdated)],
               current := b.current[key := c])
          else
            var d := Defer(b, key, o, boundaryUpdated || o.authoritative);
            d.(current := d.current[key := c])
    {
      var c := calibrated;
      materialized := false;
      if 0 <= c.pendingIndex < |pending| {
        var merged := pending[c.pendingIndex];
        if boundaryUpdated {
          merged := merged.(resetAtSource := o.resetAtSource, resetAt := o.resetAt);
        }
        merged := merged.(lastObservedAt := o.lastObservedAt);
        merged := merged.(observationCount := merged.observationCount + o.observationCount);
        merged := merged.(authoritative := merged.authoritative || o.authoritative);
        pending := pending[c.pendingIndex := merged];
        materialized := true;
      } else {
        MergeDeferredStable(key, o, boundaryUpdated || o.authoritative);
      }
      c := c.(lastObservedAt := o.lastObservedAt);
      current := current[key := c];
    }

    /** The branches of the merge once the window's remembered cycle is at hand. */
    method MergeInto(key: Key, remembered: Current, o: Observation) returns (materialized: bool, ghost accepted: bool)
      modifies this
      ensures Enact(old(Snapshot()), key, remembered, o) == Merged(Snapshot(), accepted, materialized)
    {
      var c := remembered;
      accepted := true;
      if c.found {
        if c.windowSeconds != o.windowSeconds {
          if c.hasTail && o.lastObservedAt < c.lastObservedAt {
            return false, false;
          }
          AppendDeferredStable(key);
          AppendChange(key, c, o);
          return true, true;
        }
        var sameCycle := SameCycle(c, o);
        if !sameCycle {
          if (c.hasTail && o.lastObservedAt < c.lastObservedAt) || o.resetAt < c.resetAt {
            return false, false;
          }
          AppendDeferredStable(key);
          AppendChange(key, c, o);
          return true, true;
        }
        if c.hasTail && o.lastObservedAt < c.lastObservedAt {
          return false, false;
        }
        var boundaryUpgraded := c.resetAtSource == "relative" && o.resetAtSource == "absolute";
        var trustedCalibration := o.authoritative && (c.resetAtSource != o.resetAtSource || c.resetAt != o.resetAt);
        var boundaryUpdated := boundaryUpgraded || trustedCalibration;
        if boundaryUpdated {
          c := c.(resetAtSource := o.resetAtSource, resetAt := o.resetAt);
        }
        if c.hasTail && o.remainingPercent > c.remainingPercent && o.authoritative {
          AppendDeferredStable(key);
          AppendChange(key, c, o);
          return true, true;
        }
        if c.hasTail && o.lastObservedAt == c.lastObservedAt {
          if boundaryUpdated {
            CalibrateTail(key, c, o);
            return true, true;
          }
          return false, false;
        }
        if c.hasTail && o.remainingPercent > c.remainingPercent {
          return false, false;
        }
        if c.hasTail && o.remainingPercent == c.remainingPercent {
          materialized := ExtendTail(key, c, o, boundaryUpdated);
          return;
        }
      }
      AppendDeferredStable(key);
      AppendChange(key, c, o);
      materialized := true;
    }

    method MergeObservation(candidate: Candidate, load: Loader, now: Time)
        returns (materialized: bool, ghost accepted: bool)
      modifies this
      ensures Merge(old(Snapshot()), candidate, load, now) == Merged(Snapshot(), accepted, materialized)
    {
      var o := candidate.observation;
      var key := CandidateKey(candidate);
      if key.authIndex == "" || (key.windowRole != "primary" && key.windowRole != "secondary") {
        return false, false;
      }
      o := o.(authIndex := key.authIndex, windowRole := key.windowRole);
      o := o.(authoritative := Authoritative(candidate.source));
      if o.windowSeconds <= 0 || o.windowSeconds > MAX_INT64 / SECOND || o.resetAt == 0
         || o.remainingPercent < 0 || o.remainingPercent > 100 || o.observationCount < 1
         || o.firstObservedAt == 0 || o.lastObservedAt == 0 || o.firstObservedAt > o.lastObservedAt {
        return false, false;
      }
      var c: Current;
      if key in current {
        c := current[key];
      } else {
        if key in failedRecoveries {
          return false, false;
        }
        var recovered := load(key);
        if recovered.None? {
          failedRecoveries := failedRecoveries + {key};
          return false, false;
        }
        c := Recover(recovered.value);
        if c.found && c.hasTail {
          c := c.(lastMaterializedAt := now);
        }
        current := current[key := c];
      }
      materialized, accepted := MergeInto(key, c, o);
    }

    /** Marks every tail whose response already changed something this batch. */
    method MarkMaterialized(cohorts: set<Cohort>)
      modifies this`stable
      ensures stable == MarkCohorts(old(stable), cohorts)
    {
      var todo := stable.Keys;
      while todo != {}
        invariant todo <= stable.Keys == old(stable).Keys
        invariant forall k | k in stable ::
          stable[k] == if k in todo then old(stable)[k] else MarkCohorts(old(stable), cohorts)[k]
        decreases todo
      {
        var key :| key in todo;
        todo := todo - {key};
        var deferred := stable[key];
        if StableCohort(key, deferred) in cohorts {
          stable := stable[key := deferred.(immediate := true)];
        }
      }
    }

    /** The responses that hold a due tail. */
    method CollectDueCohorts(now: Time, all: bool) returns (cohorts: set<Cohort>)
      ensures cohorts == DueCohorts(Stores(), now, heartbeat, all)
    {
      cohorts := {};
      var todo := stable.Keys;
      while todo != {}
        invariant todo <= stable.Keys
        invariant forall c :: c in cohorts <==>
          exists k :: k in stable && k !in todo && Due(Stores(), k, now, heartbeat, all)
            && c == StableCohort(k, stable[k])
        decreases todo
      {
        var key :| key in todo;
        var deferred := stable[key];
        var lastMaterializedAt := if key in current then current[key].lastMaterializedAt else 0;
        var due := deferred.immediate || lastMaterializedAt == 0 || !(now < lastMaterializedAt + heartbeat);
        todo := todo - {key};
        if all || due {
          cohorts := cohorts + {StableCohort(key, deferred)};
        }
      }
    }

    /** Every tail of the given responses, in whatever order the map is read. */
    method CollectKeys(cohorts: set<Cohort>, ghost due: set<Key>) returns (keys: seq<Key>)
      requires due == set k | k in stable && StableCohort(k, stable[k]) in cohorts
      ensures multiset(keys) == multiset(due)
    {
      keys := [];
      var todo := stable.Keys;
      while todo != {}
        invariant todo <= stable.Keys
        invariant multiset(keys) == multiset(due - todo)
        decreases todo
      {
        var key :| key in todo;
        assert due - (todo - {key}) == if key in due then (due - todo) + {key} else due - todo;
        todo := todo - {key};
        if StableCohort(key, stable[key]) in cohorts {
          keys := keys + [key];
        }
      }
      assert due - todo == due;
    }

    /** Collects the due tails, together with the other window of the same response, in key order. */
    method AppendDueStable(now: Time, all: bool) returns (keys: seq<Key>)
      requires StableKeyed(Stores())
      modifies this`pending
      ensures forall k :: k in keys <==> k in DueKeys(Stores(), now, heartbeat, all)
      ensures pending == old(pending) + DueSegments(Stores(), DueKeys(Stores(), now, heartbeat, all))
    {
      var cohorts := CollectDueCohorts(now, all);
      ghost var due := DueKeys(Stores(), now, heartbeat, all);
      keys := CollectKeys(cohorts, due);
      SortedKeys(keys, due);
      keys := Sorting.Sort(keys, KeyLess);
      AppendSegments(keys);
    }

    method AppendSegments(keys: seq<Key>)
      requires forall k | k in keys :: k in stable
      modifies this`pending
      ensures pending == old(pending) + StableSegments(stable, keys)
    {
      for i := 0 to |keys|
        invariant pending == old(pending) + StableSegments(stable, keys[..i])
      {
        assert keys[i] in keys;
        assert StableSegments(stable, keys[..i + 1]) == StableSegments(stable, keys[..i])
          + [stable[keys[i]].observation];
        pending := pending + [stable[keys[i]].observation];
      }
      assert keys[..|keys|] == keys;
    }

    /** One writer call; a failure forgets the windows it held, a success restarts their clocks. */
    method Flush(stableKeys: seq<Key>, now: Time, ok: bool) returns (submitted: seq<Observation>)
      requires forall k | k in stableKeys :: k in stable
      modifies this`current, this`stable
      ensures submitted == Sorting.Sort(pending, SegmentLess)
      ensures Stores() == AfterFlush(old(Stores()), submitted, (set k | k in stableKeys), now, ok)
    {
      submitted := Sorting.Sort(pending, SegmentLess);
      if |submitted| == 0 {
        return;
      }
      if !ok {
        ForgetWindows(submitted);
        return;
      }
      DropTails(stableKeys);
      RestartClocks(submitted, now);
    }

    method ForgetWindows(submitted: seq<Observation>)
      modifies this`current, this`stable
      ensures current == old(current) - KeysOf(submitted)
      ensures stable == old(stable) - KeysOf(submitted)
    {
      for i := 0 to |submitted|
        invariant current == old(current) - KeysOf(submitted[..i])
        invariant stable == old(stable) - KeysOf(submitted[..i])
      {
        var key := KeyOf(submitted[i]);
        KeysOfPrefix(submitted, i);
        current := current - {key};
        stable := stable - {key};
      }
      assert submitted[..|submitted|] == submitted;
    }

    method DropTails(stableKeys: seq<Key>)
      modifies this`stable
      ensures stable == old(stable) - (set k | k in stableKeys)
    {
      for i := 0 to |stableKeys|
        invariant forall k :: k in stable <==> k in old(stable) && k !in stableKeys[..i]
        invariant forall k | k in stable :: stable[k] == old(stable)[k]
      {
        stable := stable - {stableKeys[i]};
      }
      assert stableKeys[..|stableKeys|] == stableKeys;
    }

    method RestartClocks(submitted: seq<Observation>, now: Time)
      modifies this`current
      ensures current == map k | k in old(current) ::
        if k in KeysOf(submitted) then old(current)[k].(lastMaterializedAt := now, pendingIndex := -1)
        else old(current)[k].(pendingIndex := -1)
    {
      for i := 0 to |submitted|
        invariant current.Keys == old(current).Keys
        invariant forall k | k in current ::
          current[k] == if k in KeysOf(submitted[..i]) then old(current)[k].(lastMaterializedAt := now,
            pendingIndex := -1)
                        else old(current)[k]
      {
        KeysOfPrefix(submitted, i);
        var key := KeyOf(submitted[i]);
        if key in current {
          current := current[key := current[key].(lastMaterializedAt := now, pendingIndex := -1)];
        }
      }
      assert submitted[..|submitted|] == submitted;
      current := map k | k in current :: current[k].(pendingIndex := -1);
    }

    /** Keeps the candidates whose account is known, in their order. */
    method VerifyCandidates(candidates: seq<Candidate>, identities: Option<seq<string>>)
        returns (verified: seq<Candidate>)
      ensures verified == Sorting.Filter(candidates, IsVerified(VerifiedAccounts(identities)))
    {
      var accounts: set<string> := {};
      if identities.Some? {
        var names := identities.value;
        for i := 0 to |names|
          invariant accounts == VerifiedAccounts(Some(names[..i]))
        {
          VerifiedPrefix(names, i);
          var authIndex := Text.TrimSpace(names[i]);
          if authIndex != "" {
            accounts := accounts + {authIndex};
          }
        }
        assert names[..|names|] == names;
      }
      verified := [];
      for i := 0 to |candidates|
        invariant verified == Sorting.Filter(candidates[..i], IsVerified(accounts))
      {
        Sorting.FilterAppend(candidates[..i], [candidates[i]], IsVerified(accounts));
        assert candidates[..i + 1] == candidates[..i] + [candidates[i]];
        if candidates[i].identityVerified {
          verified := verified + [candidates[i]];
        } else if Text.TrimSpace(candidates[i].observation.authIndex) in accounts {
          verified := verified + [candidates[i]];
        }
      }
      assert candidates[..|candidates|] == candidates;
    }

    /** The merge loop: every candidate in order, noting the responses that changed something. */
    method MergeSorted(sorted: seq<Candidate>, load: Loader, now: Time) returns (cohorts: set<Cohort>)
      modifies this
      ensures MergeAll(old(Snapshot()), sorted, load, now).batch == Snapshot()
      ensures MergeAll(old(Snapshot()), sorted, load, now).cohorts == cohorts
    {
      cohorts := {};
      for i := 0 to |sorted|
        invariant MergeAll(old(Snapshot()), sorted[..i], load, now).batch == Snapshot()
        invariant MergeAll(old(Snapshot()), sorted[..i], load, now).cohorts == cohorts
      {
        assert sorted[..i + 1][..i] == sorted[..i];
        var materialized, accepted := MergeObservation(sorted[i], load, now);
        if materialized {
          cohorts := cohorts + {CandidateCohort(sorted[i])};
        }
      }
      assert sorted[..|sorted|] == sorted;
    }

    /** Collects what must be written and hands it to the writer. */
    method FinishBatch(cohorts: set<Cohort>, input: Input) returns (submitted: seq<Observation>)
      requires QuotaHistoryInvariants.Inv(Snapshot()) && input.heartbeat == heartbeat
      modifies this
      ensures submitted == Submitted(old(Snapshot()), cohorts, input)
      ensures Stores() == Finish(old(Snapshot()), cohorts, input)
    {
      hide QuotaHistoryInvariants.Inv, AfterFlush, DueKeys, MarkCohorts, StableKeyed;
      ghost var b := Snapshot();
      FinishParts(b, cohorts, input);
      MarkMaterialized(cohorts);
      submitted := Materialize(Marked(b, cohorts), input);
    }

    /** The due tails join the batch, which is then flushed. */
    method Materialize(ghost marked: State, input: Input) returns (submitted: seq<Observation>)
      requires Stores() == marked && StableKeyed(marked) && input.heartbeat == heartbeat
      modifies this
      ensures var due := DueKeys(marked, input.now, input.heartbeat, input.shutdown);
        && submitted == Sorting.Sort(old(pending) + DueSegments(marked, due), SegmentLess)
        && Stores() == AfterFlush(marked, submitted, due, input.now, input.writeOk)
    {
      var stableKeys := AppendDueStable(input.now, input.shutdown);
      assert (set k | k in stableKeys) == DueKeys(marked, input.now, input.heartbeat, input.shutdown);
      submitted := Flush(stableKeys, input.now, input.writeOk);
    }

    /** One batch from its candidates to the writer call. */
    method ProcessBatch(input: Input) returns (submitted: seq<Observation>)
      requires QuotaHistoryInvariants.Settled(Stores()) && input.heartbeat == heartbeat
      modifies this
      ensures Process(old(Stores()), input).state == Stores()
      ensures Process(old(Stores()), input).submitted == submitted
      ensures QuotaHistoryInvariants.Settled(Stores())
    {
      var verified := VerifyCandidates(input.candidates, input.identities);
      var sorted := Sorting.Sort(verified, CandidateLess);
      failedRecoveries := {};
      pending := [];
      var cohorts := MergeSorted(sorted, input.load, input.now);
      QuotaHistoryInvariants.MergeAllInv(old(Stores()), sorted, input.load, input.now);
      submitted := FinishBatch(cohorts, input);
      ProcessSettles(old(Stores()), input);
    }

    /** A trusted answer replaces the queued Headers of the windows it covers. */
    method SplitPreferred(candidates: seq<Candidate>) returns (trusted: seq<Candidate>, headers: seq<Candidate>)
      ensures Preferred(candidates) == Split(trusted, headers)
    {
      var trustedKeys: set<Key>;
      trusted, trustedKeys := SplitTrusted(candidates);
      if |trusted| == 0 {
        AllHeaders(candidates);
        return [], candidates;
      }
      headers := SplitHeaders(candidates, trustedKeys);
    }

    method SplitTrusted(candidates: seq<Candidate>) returns (trusted: seq<Candidate>, trustedKeys: set<Key>)
      ensures trusted == Sorting.Filter(candidates, IsTrusted()) && trustedKeys == TrustedKeys(candidates)
    {
      hide TrustedKeys, CandidateKey;
      trusted, trustedKeys := [], {};
      NoneTrusted();
      for i := 0 to |candidates|
        invariant trusted == Sorting.Filter(candidates[..i], IsTrusted()) && trustedKeys == TrustedKeys(candidates[..i])
      {
        FilterNext(candidates, i, IsTrusted());
        TrustedPrefix(candidates, i);
        if Authoritative(candidates[i].source) {
          trusted := trusted + [candidates[i]];
          var key := CandidateKey(candidates[i]);
          if key.authIndex != "" && (key.windowRole == "primary" || key.windowRole == "secondary") {
            trustedKeys := trustedKeys + {key};
          }
        }
      }
      assert candidates[..|candidates|] == candidates;
    }

    method SplitHeaders(candidates: seq<Candidate>, trustedKeys: set<Key>) returns (headers: seq<Candidate>)
      ensures headers == Sorting.Filter(candidates, IsUncovered(trustedKeys))
    {
      hide CandidateKey;
      headers := [];
      for i := 0 to |candidates|
        invariant headers == Sorting.Filter(candidates[..i], IsUncovered(trustedKeys))
      {
        FilterNext(candidates, i, IsUncovered(trustedKeys));
        if !Authoritative(candidates[i].source) {
          if CandidateKey(candidates[i]) !in trustedKeys {
            headers := headers + [candidates[i]];
          }
        }
      }
      assert candidates[..|candidates|] == candidates;
    }
  }

  lemma NoneTrusted()
    ensures TrustedKeys([]) == {}
  {
  }

  lemma FilterNext(candidates: seq<Candidate>, i: nat, p: Candidate -> bool)
    requires i < |candidates|
    ensures Sorting.Filter(candidates[..i + 1], p) == Sorting.Filter(candidates[..i], p) + if p(candidates[i])
      then [candidates[i]] else []
  {
    Sorting.FilterAppend(candidates[..i], [candidates[i]], p);
    assert candidates[..i + 1] == candidates[..i] + [candidates[i]];
    Sorting.FilterCons(candidates[i], [], p);
    assert [candidates[i]] + [] == [candidates[i]];
  }

  lemma TrustedPrefix(candidates: seq<Candidate>, i: nat)
    requires i < |candidates|
    ensures TrustedKeys(candidates[..i + 1]) == TrustedKeys(candidates[..i])
      + (if Authoritative(candidates[i].source) && CandidateKey(candidates[i]).authIndex != ""
        && MainRole(CandidateKey(candidates[i]).windowRole)
         then {CandidateKey(candidates[i])} else {})
  {
    var longer := candidates[..i + 1];
    var shorter := candidates[..i];
    assert longer[i] == candidates[i];
    forall j | 0 <= j < i ensures longer[j] == shorter[j] {}
    forall k ensures k in TrustedKeys(longer) <==>
      k in TrustedKeys(shorter) || (k == CandidateKey(candidates[i]) && Authoritative(candidates[i].source)
        && k.authIndex != "" && MainRole(k.windowRole))
    {
      if k in TrustedKeys(shorter) {
        var j :| 0 <= j < i && Authoritative(shorter[j].source) && CandidateKey(shorter[j]) == k;
        assert longer[j] == shorter[j];
      }
      if k in TrustedKeys(longer) {
        var j :| 0 <= j < i + 1 && Authoritative(longer[j].source) && CandidateKey(longer[j]) == k
                 && k.authIndex != "" && MainRole(k.windowRole);
        assert j < i ==> longer[j] == shorter[j];
      }
    }
  }

  /** Without a trusted candidate every Header stays. */
  lemma {:induction false} AllHeaders(candidates: seq<Candidate>)
    requires Sorting.Filter(candidates, IsTrusted()) == []
    ensures Preferred(candidates) == Split([], candidates)
  {
    forall i | 0 <= i < |candidates| ensures !Authoritative(candidates[i].source) {
      assert candidates[i] in candidates;
      assert !IsTrusted()(candidates[i]);
    }
    assert TrustedKeys(candidates) == {};
    FilterAll(candidates, IsUncovered({}));
  }

  lemma {:induction false} FilterAll(s: seq<Candidate>, p: Candidate -> bool)
    requires forall x | x in s :: p(x)
    ensures Sorting.Filter(s, p) == s
  {
    if s != [] {
      FilterAll(s[1..], p);
      assert s == [s[0]] + s[1..];
    }
  }

  /**
   After the split no queued Header competes with a trusted answer for the same window, every trusted
   answer is kept, and a Header is dropped only because its window was answered.
   */
  lemma SplitCovers(candidates: seq<Candidate>)
    ensures var split := Preferred(candidates);
      && (forall c | c in candidates :: Authoritative(c.source) ==> c in split.trusted)
      && (forall c | c in split.headers :: c in candidates && !Authoritative(c.source))
      && (forall c, t | c in split.headers && t in split.trusted && CandidateKey(c) == CandidateKey(t) ::
            CandidateKey(c).authIndex == "" || !MainRole(CandidateKey(c).windowRole))
      && (forall c | c in candidates && c !in split.headers && !Authoritative(c.source) ::
            exists t :: t in split.trusted && CandidateKey(t) == CandidateKey(c))
  {
    var split := Preferred(candidates);
    forall c, t | c in split.headers && t in split.trusted && CandidateKey(c) == CandidateKey(t)
      ensures CandidateKey(c).authIndex == "" || !MainRole(CandidateKey(c).windowRole)
    {
      assert t in candidates && IsTrusted()(t) && IsUncovered(TrustedKeys(candidates))(c);
      var i :| 0 <= i < |candidates| && candidates[i] == t;
    }
    forall c | c in candidates && c !in split.headers && !Authoritative(c.source)
      ensures exists t :: t in split.trusted && CandidateKey(t) == CandidateKey(c)
    {
      assert !IsUncovered(TrustedKeys(candidates))(c);
      var i :| 0 <= i < |candidates| && Authoritative(candidates[i].source)
        && CandidateKey(candidates[i]) == CandidateKey(c);
      assert candidates[i] in candidates && IsTrusted()(candidates[i]);
      assert candidates[i] in split.trusted;
    }
  }

  lemma KeysOfPrefix(s: seq<Observation>, i: nat)
    requires i < |s|
    ensures KeysOf(s[..i + 1]) == KeysOf(s[..i]) + {KeyOf(s[i])}
  {
    assert s[..i + 1] == s[..i] + [s[i]];
    KeysOfConcat(s[..i], [s[i]]);
    assert KeysOf([s[i]]) == {KeyOf(s[i])} by {
      assert [s[i]][0] == s[i];
      assert KeyOf([s[i]][0]) in KeysOf([s[i]]);
    }
  }

  lemma VerifiedPrefix(names: seq<string>, i: nat)
    requires i < |names|
    ensures VerifiedAccounts(Some(names[..i + 1]))
         == VerifiedAccounts(Some(names[..i])) + if Text.TrimSpace(names[i]) != ""
           then {Text.TrimSpace(names[i])} else {}
  {
    var longer := VerifiedAccounts(Some(names[..i + 1]));
    forall a
      ensures a in longer <==> a in VerifiedAccounts(Some(names[..i])) || (a == Text.TrimSpace(names[i]) && a != "")
    {
      if a in VerifiedAccounts(Some(names[..i])) {
        var j :| 0 <= j < i && Text.TrimSpace(names[..i][j]) == a;
        assert names[..i + 1][j] == names[..i][j];
      }
      if a == Text.TrimSpace(names[i]) && a != "" {
        assert names[..i + 1][i] == names[i];
      }
      if a in longer {
        var j :| 0 <= j < i + 1 && Text.TrimSpace(names[..i + 1][j]) == a && a != "";
        assert j < i ==> names[..i][j] == names[..i + 1][j];
      }
    }
  }

  /** Sorting the collected keys gives the ascending listing, whatever order the map was read in. */
  lemma SortedKeys(keys: seq<Key>, due: set<Key>)
    requires multiset(keys) == multiset(due)
    ensures Sorting.StrictTotalOrder(KeyLess)
    ensures Sorting.Sort(keys, KeyLess) == Sorting.Ascending(due, KeyLess)
    ensures forall k :: k in keys <==> k in due
  {
    KeyOrder();
    Sorting.SortLists(keys, due, KeyLess);
    forall k ensures k in keys <==> k in due {
      assert k in keys <==> multiset(keys)[k] > 0;
      assert k in due <==> multiset(due)[k] > 0;
    }
  }
}
