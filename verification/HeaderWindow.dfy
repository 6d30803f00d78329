/** The header window as the service keeps it: one map under a lock, swapped out whole at each flush. */
module HeaderWindow {
  import opened HeaderCache
  import opened HeaderCacheLaws
  import opened Wrappers
  import Text

  class Window {
    var pending: Pending
    var closing: bool
    var wake: bool

    ghost predicate Valid()
      reads this
    {
      |pending| <= IDENTITY_LIMIT
    }

    constructor ()
      ensures Valid() && pending == map[] && !closing && !wake
    {
      pending, closing, wake := map[], false, false;
    }

    /** Refused only once the service is closing; nil entries are passed over. Whatever waits leaves a wake signal. */
    method TryAppend(snapshots: seq<Option<Snapshot>>) returns (accepted: bool)
      requires Valid()
      modifies this`pending, this`wake
      ensures Valid()
      ensures accepted <==> snapshots == [] || !closing
      ensures pending == if accepted then ReceivedAll(old(pending), Present(snapshots)) else old(pending)
      ensures wake == (old(wake) || (accepted && snapshots != [] && pending != map[]))
    {
      if |snapshots| == 0 {
        return true;
      }
      if closing {
        return false;
      }
      MergePending(snapshots);
      if |pending| != 0 && !wake {
        wake := true;
      }
      accepted := true;
    }

    method MergePending(snapshots: seq<Option<Snapshot>>)
      requires Valid()
      modifies this`pending
      ensures Valid() && pending == ReceivedAll(old(pending), Present(snapshots))
    {
      hide Received;
      for i := 0 to |snapshots|
        invariant Valid() && pending == ReceivedAll(old(pending), Present(snapshots[..i]))
      {
        PresentNext(old(pending), snapshots, i);
        if snapshots[i].None? {
          continue;
        }
        ReceivedSize(pending, snapshots[i].value);
        MergeOne(snapshots[i].value);
      }
      assert snapshots[..|snapshots|] == snapshots;
    }

    /** One arrival: merged, let in, or let in for the oldest. */
    method MergeOne(s: Snapshot)
      modifies this`pending
      ensures pending == Received(old(pending), s)
    {
      hide Merge, Newer, KeyOf;
      var key := KeyOf(s);
      if key in pending {
        var merged := MergeSnapshots(pending[key], s);
        pending := pending[key := merged];
        return;
      }
      if |pending| < IDENTITY_LIMIT {
        pending := pending[key := s];
        return;
      }
      Occupied(pending);
      var oldest := OldestPending();
      if !Newer(s, pending[oldest]) {
        return;
      }
      pending := pending - {oldest};
      pending := pending[key := s];
    }

    /** A scan in no particular order; equal times are told apart by key. */
    method OldestPending() returns (key: string)
      requires pending.Keys != {}
      ensures key == OldestKey(pending)
    {
      hide Precedes;
      SomeOldest(pending);
      key :| key in pending;
      var rest := pending.Keys - {key};
      while rest != {}
        invariant key in pending && rest <= pending.Keys && key !in rest
        invariant forall k | k in pending && k !in rest && k != key :: Precedes(pending, key, k)
        decreases rest
      {
        var k :| k in rest;
        ScanStep(pending, rest, key, k);
        if Earlier(k, key) {
          key := k;
        }
        rest := rest - {k};
      }
      OldestUnique(pending, key, OldestKey(pending));
    }

    predicate Earlier(k: string, key: string)
      requires k in pending && key in pending
      reads this
    {
      Before(pending[k].observedAt, pending[key].observedAt)
        || (pending[k].observedAt == pending[key].observedAt && Text.Less(k, key))
    }

    /** Everything accepted so far, and a fresh map in its place. */
    method Take() returns (taken: Pending)
      modifies this`pending
      ensures taken == old(pending) && pending == map[] && Valid()
    {
      taken := pending;
      pending := map[];
    }
  }

  function Present(snapshots: seq<Option<Snapshot>>): seq<Snapshot> {
    if snapshots == [] then []
    else
      var n := |snapshots| - 1;
      Present(snapshots[..n]) + if snapshots[n].Some? then [snapshots[n].value] else []
  }

  lemma PresentNext(p: Pending, snapshots: seq<Option<Snapshot>>, i: nat)
    requires i < |snapshots|
    ensures ReceivedAll(p, Present(snapshots[..i + 1]))
         == if snapshots[i].Some? then Received(ReceivedAll(p, Present(snapshots[..i])), snapshots[i].value)
            else ReceivedAll(p, Present(snapshots[..i]))
  {
    hide Received;
    var before := Present(snapshots[..i]);
    assert snapshots[..i + 1][..i] == snapshots[..i] && snapshots[..i + 1][i] == snapshots[i];
    if snapshots[i].Some? {
      assert (before + [snapshots[i].value])[..|before|] == before;
    } else {
      assert Present(snapshots[..i + 1]) == before + [] == before;
    }
  }

  lemma Occupied(p: Pending)
    requires |p| >= IDENTITY_LIMIT
    ensures p.Keys != {}
  {
    assert |p| == |p.Keys|;
  }

  lemma ScanStep(p: Pending, rest: set<string>, key: string, k: string)
    requires key in p && rest <= p.Keys && key !in rest && k in rest
    requires forall j | j in p && j !in rest && j != key :: Precedes(p, key, j)
    ensures Precedes(p, k, key) ==> forall j | j in p && j !in rest && j != k :: Precedes(p, k, j)
    ensures !Precedes(p, k, key) ==> Precedes(p, key, k)
    ensures Precedes(p, k, key) <==>
      Before(p[k].observedAt, p[key].observedAt) || (p[k].observedAt == p[key].observedAt && Text.Less(k, key))
  {
    PrecedesTotal(p, k, key);
    if Precedes(p, k, key) {
      forall j | j in p && j !in rest && j != k ensures Precedes(p, k, j) {
        if j != key { PrecedesTransitive(p, k, key, j); }
      }
    }
  }

  method MergeSnapshots(existing: Snapshot, candidate: Snapshot) returns (r: Snapshot)
    ensures r == Merge(existing, candidate)
  {
    hide PutAll, Times;
    if existing.usage.None? || candidate.usage.None? {
      if Newer(candidate, existing) {
        return candidate;
      }
      return existing;
    }
    var e, c := existing.usage.value, candidate.usage.value;
    var base, baseUsage, otherUsage := existing, e, c;
    if Newer(candidate, existing) {
      base, baseUsage, otherUsage := candidate, c, e;
    }
    var plan := baseUsage.planType;
    if Text.TrimSpace(plan) == "" {
      plan := otherUsage.planType;
    }
    var existingAt, candidateAt := MainAt(existing), MainAt(candidate);
    var main: Option<int>, mainAt: Instant := None, None;
    if c.main.Some? && (e.main.None? || !Before(candidateAt, existingAt)) {
      main, mainAt := c.main, candidateAt;
    } else if e.main.Some? {
      main, mainAt := e.main, existingAt;
    }
    var limits, at := MergeAdditionalLimits(existing, e.additional, candidate, c.additional);
    r := base.(usage := Some(Usage(plan, main, limits)), mainAt := mainAt, additionalAt := at);
  }

  /** Keeps the old order; a namesake is replaced in place unless it is newer. */
  method MergeAdditionalLimits(existing: Snapshot, mine: seq<Additional>, candidate: Snapshot, theirs: seq<Additional>)
    returns (merged: seq<Additional>, observedAtByLimit: map<string, Instant>)
    ensures HeaderCache.Merged(merged, observedAtByLimit) == MergeAdditional(existing, mine, candidate, theirs)
  {
    if |mine| == 0 && |theirs| == 0 {
      return [], map[];
    }
    merged := mine;
    observedAtByLimit := map[];
    for i := 0 to |mine|
      invariant observedAtByLimit == Times(existing, mine[..i])
    {
      assert mine[..i + 1][..i] == mine[..i] && mine[..i + 1][i] == mine[i];
      observedAtByLimit := observedAtByLimit[mine[i].name := AdditionalAt(existing, mine[i].name)];
    }
    assert mine[..|mine|] == mine;
    ghost var start := HeaderCache.Merged(mine, Times(existing, mine));
    for i := 0 to |theirs|
      invariant HeaderCache.Merged(merged, observedAtByLimit) == PutAll(start, candidate, theirs[..i])
    {
      assert theirs[..i + 1][..i] == theirs[..i] && theirs[..i + 1][i] == theirs[i];
      merged, observedAtByLimit := PutLimit(merged, observedAtByLimit, theirs[i],
        AdditionalAt(candidate, theirs[i].name));
    }
    assert theirs[..|theirs|] == theirs;
  }

  method PutLimit(limits: seq<Additional>, at: map<string, Instant>, candidate: Additional, candidateAt: Instant)
    returns (merged: seq<Additional>, observedAt: map<string, Instant>)
    ensures HeaderCache.Merged(merged, observedAt) == PutOne(HeaderCache.Merged(limits, at), candidate, candidateAt)
  {
    merged, observedAt := limits, at;
    for index := 0 to |limits|
      invariant merged == limits && observedAt == at && index <= Find(limits, candidate.name)
    {
      if limits[index].name != candidate.name {
        continue;
      }
      if !(candidate.name in at && Before(candidateAt, at[candidate.name])) {
        merged := merged[index := candidate];
        observedAt := observedAt[candidate.name := candidateAt];
      }
      return;
    }
    merged := merged + [candidate];
    observedAt := observedAt[candidate.name := candidateAt];
  }
}
