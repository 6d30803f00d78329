/**
 What every step of the quota history state machine keeps: the remembered cycle mirrors the segment it can still
 extend.
 */
module QuotaHistoryInvariants {
  import opened QuotaHistory

  // ----- cycle identity -----

  /**
   Two resets belong to one cycle exactly when they lie within two minutes of each other, or when the
   new reset lies 2^63 ns (about 292 years) or more ahead: there the distance clamps to the least
   Duration, whose negation is itself and so passes for a small distance.
   */
  lemma SameCycleExactly(c: Current, o: Observation)
    ensures SameCycle(c, o) <==>
      && c.windowSeconds == o.windowSeconds
      && (-RESET_TOLERANCE <= c.resetAt - o.resetAt <= RESET_TOLERANCE || c.resetAt - o.resetAt <= MIN_INT64)
  {
  }

  /** Here a Header 292 years ahead passes for the same cycle, and its full percentage is refused as a rise. */
  lemma FarResetTakenForSameCycle()
    ensures
      var c := Current(true, 18000, "absolute", 1000 * SECOND, true, 50, 10 * SECOND, 10 * SECOND, -1);
      var o := Observation("a", "primary", 18000, "absolute", (1000 + 9223372037) * SECOND, 100, 20 * SECOND,
        20 * SECOND, 1, false);
      WellFormed(o) && SameCycle(c, o) && Judge(c, o).Reject?
  {
  }

  // ----- mirror -----

  /** The segment and the remembered cycle tell the same story, reset boundary included. */
  ghost predicate Mirrors(p: Observation, c: Current, key: Key) {
    && TailMirrors(p, c, key)
    && p.resetAtSource == c.resetAtSource
    && p.resetAt == c.resetAt
  }

  /** The same for a deferred tail, whose own boundary may still differ within the tolerance. */
  ghost predicate TailMirrors(p: Observation, c: Current, key: Key) {
    && KeyOf(p) == key
    && c.found && c.hasTail
    && p.windowSeconds == c.windowSeconds
    && p.remainingPercent == c.remainingPercent
    && p.lastObservedAt == c.lastObservedAt
    && p.firstObservedAt <= p.lastObservedAt
    && p.observationCount >= 1
  }

  ghost predicate IndexMirrors(b: Batch, k: Key)
    requires k in b.current
  {
    var c := b.current[k];
    c.pendingIndex == -1 || (Live(c, b.pending) && Mirrors(b.pending[c.pendingIndex], c, k))
  }

  ghost predicate StableMirrors(b: Batch, k: Key)
    requires k in b.stable
  {
    && k in b.current
    && b.current[k].pendingIndex == -1
    && TailMirrors(b.stable[k].observation, b.current[k], k)
  }

  /** Every pending segment is at or before the one its key can still extend. */
  ghost predicate PendingReferenced(b: Batch, i: nat)
    requires i < |b.pending|
  {
    var k := KeyOf(b.pending[i]);
    k in b.current && i <= b.current[k].pendingIndex < |b.pending|
  }

  ghost predicate Inv(b: Batch) {
    && (forall k | k in b.current :: IndexMirrors(b, k))
    && (forall k | k in b.stable :: StableMirrors(b, k))
    && (forall i: nat | i < |b.pending| :: PendingReferenced(b, i))
  }

  /** Between batches: nothing pending, no index alive. */
  ghost predicate Settled(s: State) {
    && (forall k | k in s.current :: s.current[k].pendingIndex == -1)
    && (forall k | k in s.stable :: k in s.current && TailMirrors(s.stable[k].observation, s.current[k], k))
  }

  /** A key never has both a deferred tail and a segment in the batch. */
  lemma DeferredOrPending(b: Batch, k: Key)
    requires Inv(b) && k in b.stable
    ensures !Live(b.current[k], b.pending)
    ensures k !in KeysOf(b.pending)
  {
    assert StableMirrors(b, k);
    forall i: nat | i < |b.pending| ensures KeyOf(b.pending[i]) != k {
      assert PendingReferenced(b, i);
    }
  }

  lemma AppendLiveInv(b: Batch, key: Key, c: Current, o: Observation)
    requires forall k | k in b.current && k != key :: IndexMirrors(b, k)
    requires forall k | k in b.stable :: k != key && StableMirrors(b, k)
    requires forall i: nat | i < |b.pending| && KeyOf(b.pending[i]) != key :: PendingReferenced(b, i)
    requires Mirrors(o, c, key)
    ensures Inv(AppendLive(b, key, c, o))
  {
    var b' := AppendLive(b, key, c, o);
    forall k | k in b'.current ensures IndexMirrors(b', k) {
      if k != key { assert IndexMirrors(b, k); }
    }
    forall k | k in b'.stable ensures StableMirrors(b', k) { assert StableMirrors(b, k); }
    forall i: nat | i < |b'.pending| ensures PendingReferenced(b', i) {
      if i < |b.pending| && KeyOf(b.pending[i]) != key { assert PendingReferenced(b, i); }
    }
  }

  /** Replacing the live segment of a key in place, together with its remembered cycle. */
  lemma UpdateLiveInv(b: Batch, key: Key, c: Current, p: Observation)
    requires Inv(b) && key in b.current && Live(b.current[key], b.pending)
    requires c.pendingIndex == b.current[key].pendingIndex && Mirrors(p, c, key)
    ensures Inv(b.(pending := b.pending[c.pendingIndex := p], current := b.current[key := c]))
  {
    var b' := b.(pending := b.pending[c.pendingIndex := p], current := b.current[key := c]);
    assert IndexMirrors(b, key);
    forall k | k in b'.current ensures IndexMirrors(b', k) { assert IndexMirrors(b, k); }
    forall k | k in b'.stable ensures StableMirrors(b', k) { assert StableMirrors(b, k); }
    forall i: nat | i < |b'.pending| ensures PendingReferenced(b', i) { assert PendingReferenced(b, i); }
  }

  lemma SealTailKeeps(b: Batch, key: Key)
    requires Inv(b)
    ensures var s := SealTail(b, key);
      && s.current == b.current && key !in s.stable
      && (forall k | k in s.current && k != key :: IndexMirrors(s, k))
      && (forall k | k in s.stable :: k != key && StableMirrors(s, k))
      && (forall i: nat | i < |s.pending| && KeyOf(s.pending[i]) != key :: PendingReferenced(s, i))
      && (key !in b.stable ==> s == b)
  {
    var s := SealTail(b, key);
    if key in b.stable {
      assert StableMirrors(b, key);
      forall k | k in s.current && k != key ensures IndexMirrors(s, k) { assert IndexMirrors(b, k); }
      forall k | k in s.stable ensures k != key && StableMirrors(s, k) { assert StableMirrors(b, k); }
      forall i: nat | i < |s.pending| && KeyOf(s.pending[i]) != key ensures PendingReferenced(s, i) {
        assert PendingReferenced(b, i);
      }
    }
  }

  lemma EnactChangeInv(b: Batch, key: Key, c: Current, o: Observation)
    requires Inv(b) && KeyOf(o) == key && WellFormed(o)
    ensures Inv(AppendLive(SealTail(b, key), key, Changed(c, o), o))
  {
    SealTailKeeps(b, key);
    AppendLiveInv(SealTail(b, key), key, Changed(c, o), o);
  }

  lemma EnactCalibrateInv(b: Batch, key: Key, o: Observation)
    requires Inv(b) && key in b.current && KeyOf(o) == key && WellFormed(o)
    requires Judge(b.current[key], o) == Calibrate
    ensures Inv(Enact(b, key, b.current[key], o).batch)
  {
    var c := b.current[key];
    assert IndexMirrors(b, key);
    SealTailKeeps(b, key);
    if key in b.stable {
      assert StableMirrors(b, key);
      assert !Live(c, SealTail(b, key).pending);
    }
    if Live(c, b.pending) {
      UpdateLiveInv(b, key, Calibrated(c, o), CalibratedSegment(b.pending[c.pendingIndex], o));
    } else {
      AppendLiveInv(SealTail(b, key), key, Calibrated(c, o), o.(remainingPercent := c.remainingPercent));
    }
  }

  lemma EnactExtendInv(b: Batch, key: Key, o: Observation)
    requires Inv(b) && key in b.current && KeyOf(o) == key && WellFormed(o)
    requires Judge(b.current[key], o) == Extend
    ensures Inv(Enact(b, key, b.current[key], o).batch)
  {
    var c := b.current[key];
    var c' := Calibrated(c, o).(lastObservedAt := o.lastObservedAt);
    assert IndexMirrors(b, key);
    if Live(c, b.pending) {
      UpdateLiveInv(b, key, c', ExtendedSegment(b.pending[c.pendingIndex], o, BoundaryUpdated(c, o)));
    } else {
      var b' := Enact(b, key, c, o).batch;
      if key in b.stable { assert StableMirrors(b, key); }
      forall k | k in b'.current ensures IndexMirrors(b', k) { assert k != key ==> IndexMirrors(b, k); }
      forall k | k in b'.stable ensures StableMirrors(b', k) { assert k != key ==> StableMirrors(b, k); }
      forall i: nat | i < |b'.pending| ensures PendingReferenced(b', i) { assert PendingReferenced(b, i); }
    }
  }

  lemma EnactInv(b: Batch, key: Key, o: Observation)
    requires Inv(b) && key in b.current && KeyOf(o) == key && WellFormed(o)
    ensures Inv(Enact(b, key, b.current[key], o).batch)
  {
    match Judge(b.current[key], o)
    case Reject =>
    case Change => EnactChangeInv(b, key, b.current[key], o);
    case Calibrate => EnactCalibrateInv(b, key, o);
    case Extend => EnactExtendInv(b, key, o);
  }

  lemma LoadInv(b: Batch, key: Key, stored: Stored, now: Time)
    requires Inv(b) && key !in b.current
    ensures Inv(b.(current := b.current[key := Loaded(stored, now)]))
  {
    var b' := b.(current := b.current[key := Loaded(stored, now)]);
    forall k | k in b'.current ensures IndexMirrors(b', k) { assert k != key ==> IndexMirrors(b, k); }
    forall k | k in b'.stable ensures StableMirrors(b', k) { assert StableMirrors(b, k); }
    forall i: nat | i < |b'.pending| ensures PendingReferenced(b', i) { assert PendingReferenced(b, i); }
  }

  lemma MergeInv(b: Batch, candidate: Candidate, load: Loader, now: Time)
    requires Inv(b)
    ensures Inv(Merge(b, candidate, load, now).batch)
  {
    var o := Keyed(candidate);
    var key := KeyOf(o);
    if Admissible(candidate) {
      if key in b.current {
        EnactInv(b, key, o);
      } else if key !in b.failed && load(key).Some? {
        LoadInv(b, key, load(key).value, now);
        EnactInv(b.(current := b.current[key := Loaded(load(key).value, now)]), key, o);
      } else {
        var b' := Merge(b, candidate, load, now).batch;
        forall k | k in b'.current ensures IndexMirrors(b', k) { assert IndexMirrors(b, k); }
        forall k | k in b'.stable ensures StableMirrors(b', k) { assert StableMirrors(b, k); }
        forall i: nat | i < |b'.pending| ensures PendingReferenced(b', i) { assert PendingReferenced(b, i); }
      }
    }
  }

  /** The mirror holds in every state the merge loop passes through. */
  lemma {:induction false} MergeAllInv(s: State, candidates: seq<Candidate>, load: Loader, now: Time)
    requires Settled(s)
    ensures Inv(MergeAll(Opened(s), candidates, load, now).batch)
  {
    if candidates != [] {
      var n := |candidates| - 1;
      MergeAllInv(s, candidates[..n], load, now);
      MergeInv(MergeAll(Opened(s), candidates[..n], load, now).batch, candidates[n], load, now);
    }
  }
}
