/** What the header window keeps: how many identities, and which ones. */
module HeaderCacheLaws {
  import opened HeaderCache

  // ----- how many -----

  lemma ReceivedSize(p: Pending, s: Snapshot)
    requires |p| <= IDENTITY_LIMIT
    ensures |p| <= |Received(p, s)| <= IDENTITY_LIMIT
    ensures |p| == IDENTITY_LIMIT ==> |Received(p, s)| == IDENTITY_LIMIT
  {
    hide IsOldest, Newer, Merge, KeyOf, OldestKey;
    var key := KeyOf(s);
    PutSize(p, key, if key in p then Merge(p[key], s) else s);
    if key !in p && |p| >= IDENTITY_LIMIT && p.Keys != {} {
      OldestIsLeast(p);
      Swapped(p, OldestKey(p), key, s);
    } else if p.Keys == {} {
      Empty(p);
    }
  }

  lemma PutSize(p: Pending, key: string, s: Snapshot)
    ensures |p[key := s]| == |p| + if key in p then 0 else 1
  {
  }

  lemma Empty(p: Pending)
    requires p.Keys == {}
    ensures |p| == 0
  {
    assert |p| == |p.Keys|;
  }

  lemma Swapped(p: Pending, out: string, key: string, s: Snapshot)
    requires out in p && key !in p
    ensures |(p - {out})[key := s]| == |p|
  {
    var q := (p - {out})[key := s];
    assert q.Keys == (p.Keys - {out}) + {key};
    assert |q| == |q.Keys| && |p| == |p.Keys|;
  }

  /** The window never holds more than a thousand identities. */
  lemma {:induction false} WindowBounded(arrivals: seq<Snapshot>)
    ensures |ReceivedAll(map[], arrivals)| <= IDENTITY_LIMIT
  {
    if arrivals != [] {
      var n := |arrivals| - 1;
      WindowBounded(arrivals[..n]);
      ReceivedSize(ReceivedAll(map[], arrivals[..n]), arrivals[n]);
    }
  }

  // ----- which ones -----

  lemma BeforeIsOrder(a: Instant, b: Instant, c: Instant)
    ensures !Before(a, a)
    ensures Before(a, b) ==> !Before(b, a)
    ensures !Before(a, b) && !Before(b, c) ==> !Before(a, c)
  {
  }

  lemma MergeObserved(existing: Snapshot, candidate: Snapshot)
    ensures var m := Merge(existing, candidate);
      && m.observedAt == (if Newer(candidate, existing) then candidate.observedAt else existing.observedAt)
      && !Before(m.observedAt, existing.observedAt) && !Before(m.observedAt, candidate.observedAt)
  {
    hide MergeAdditional, MainAt;
  }

  /** A kept identity is not older than anything in `gone`. */
  ghost predicate AllAbove(p: Pending, at: Instant) {
    forall k | k in p :: !Before(p[k].observedAt, at)
  }

  lemma OldestIsLeast(p: Pending)
    requires p.Keys != {}
    ensures OldestKey(p) in p && AllAbove(p, p[OldestKey(p)].observedAt)
  {
    var o := OldestKey(p);
    forall k | k in p ensures !Before(p[k].observedAt, p[o].observedAt) {
      if k != o { assert Precedes(p, o, k); }
    }
  }

  /** What lies below all kept identities still does after one more arrival. */
  lemma AboveStays(p: Pending, s: Snapshot, at: Instant)
    requires |p| == IDENTITY_LIMIT && AllAbove(p, at)
    ensures AllAbove(Received(p, s), at)
  {
    hide Newer, Merge, KeyOf, OldestKey, Before;
    var key := KeyOf(s);
    assert p.Keys != {} by { assert |p| == |p.Keys|; }
    if key in p {
      MergeObserved(p[key], s);
      BeforeIsOrder(Merge(p[key], s).observedAt, p[key].observedAt, at);
    } else {
      OldestIsLeast(p);
      NewerIsNotBefore(s, p[OldestKey(p)]);
      BeforeIsOrder(s.observedAt, p[OldestKey(p)].observedAt, at);
    }
  }

  /** An identity that just dropped out, or was not let in, lies below all that are kept. */
  lemma DroppedBelow(p: Pending, s: Snapshot, key: string)
    requires |p| == IDENTITY_LIMIT && (key in p || key == KeyOf(s)) && key !in Received(p, s)
    ensures key in p ==> AllAbove(Received(p, s), p[key].observedAt)
    ensures key == KeyOf(s) ==> AllAbove(Received(p, s), s.observedAt)
  {
    hide Merge, KeyOf, OldestKey, Before, Newer;
    assert p.Keys != {} by { assert |p| == |p.Keys|; }
    OldestIsLeast(p);
    var o := OldestKey(p);
    NewerIsNotBefore(s, p[o]);
    if key in p {
      assert key == o;
      AboveStays(p, s, p[o].observedAt);
    } else {
      forall k | k in p ensures !Before(p[k].observedAt, s.observedAt) {
        BeforeTotal(s.observedAt, p[o].observedAt);
        BeforeIsOrder(p[k].observedAt, p[o].observedAt, s.observedAt);
      }
    }
  }

  lemma BeforeTotal(a: Instant, b: Instant)
    ensures Before(a, b) ==> !Before(b, a)
  {
  }

  /** An arrival is either still represented, by something no older, or all kept identities are no older. */
  ghost predicate Accounted(p: Pending, s: Snapshot) {
    if KeyOf(s) in p then !Before(p[KeyOf(s)].observedAt, s.observedAt)
    else |p| == IDENTITY_LIMIT && AllAbove(p, s.observedAt)
  }

  lemma AccountedStays(p: Pending, s: Snapshot, next: Snapshot)
    requires |p| <= IDENTITY_LIMIT && Accounted(p, s)
    ensures Accounted(Received(p, next), s)
  {
    hide Merge, OldestKey, Before, Newer, KeyOf;
    ReceivedSize(p, next);
    var key := KeyOf(s);
    if key in p {
      if KeyOf(next) == key {
        MergeObserved(p[key], next);
        BeforeIsOrder(Merge(p[key], next).observedAt, p[key].observedAt, s.observedAt);
      } else if key !in Received(p, next) {
        assert |p| == IDENTITY_LIMIT;
        DroppedBelow(p, next, key);
        LowerStillBelow(Received(p, next), p[key].observedAt, s.observedAt);
      }
    } else {
      AboveStays(p, next, s.observedAt);
      if key in Received(p, next) {
        assert p.Keys != {} by { assert |p| == |p.Keys|; }
        OldestIsLeast(p);
        NewerIsNotBefore(next, p[OldestKey(p)]);
        BeforeIsOrder(next.observedAt, p[OldestKey(p)].observedAt, s.observedAt);
      }
    }
  }

  lemma LowerStillBelow(p: Pending, high: Instant, low: Instant)
    requires AllAbove(p, high) && !Before(high, low)
    ensures AllAbove(p, low)
  {
    forall k | k in p ensures !Before(p[k].observedAt, low) { BeforeIsOrder(p[k].observedAt, high, low); }
  }

  lemma NewcomerAccounted(p: Pending, s: Snapshot)
    requires |p| <= IDENTITY_LIMIT
    ensures Accounted(Received(p, s), s)
  {
    hide OldestKey, Before, Newer, KeyOf, Merge;
    ReceivedSize(p, s);
    var key := KeyOf(s);
    if key in p {
      MergeObserved(p[key], s);
    } else if key in Received(p, s) {
      assert Received(p, s)[key] == s;
      BeforeIsOrder(s.observedAt, s.observedAt, s.observedAt);
    } else {
      DroppedBelow(p, s, key);
    }
  }

  /**
   When identities had to be left out the window is full, and no arrival of an identity left out is later
   than what any kept identity shows.
   */
  lemma {:induction false} ExcludedNotLater(arrivals: seq<Snapshot>, i: nat)
    requires i < |arrivals| && KeyOf(arrivals[i]) !in ReceivedAll(map[], arrivals)
    ensures var p := ReceivedAll(map[], arrivals);
      |p| == IDENTITY_LIMIT && forall k | k in p :: !Before(p[k].observedAt, arrivals[i].observedAt)
  {
    hide Before, KeyOf, Received;
    ArrivalAccounted(arrivals, i);
  }

  /** The same with the other half: a kept identity shows nothing older than any of its arrivals. */
  lemma {:induction false} ArrivalAccounted(arrivals: seq<Snapshot>, i: nat)
    requires i < |arrivals|
    ensures Accounted(ReceivedAll(map[], arrivals), arrivals[i])
    decreases |arrivals|
  {
    hide Accounted, KeyOf, Received;
    var n := |arrivals| - 1;
    WindowBounded(arrivals[..n]);
    if i == n {
      NewcomerAccounted(ReceivedAll(map[], arrivals[..n]), arrivals[n]);
    } else {
      assert arrivals[..n][i] == arrivals[i];
      ArrivalAccounted(arrivals[..n], i);
      AccountedStays(ReceivedAll(map[], arrivals[..n]), arrivals[i], arrivals[n]);
    }
  }
}
