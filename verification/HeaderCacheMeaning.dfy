/** What the header window holds, said of the snapshots that arrived. */
module HeaderCacheMeaning {
  import opened HeaderCache
  import opened HeaderCacheLaws
  import opened HeaderCacheNewest
  import opened Wrappers
  import Text

  /** Filed under its own index, or without one under its provider and kind of login. */
  function Identity(s: Snapshot): string {
    if Text.TrimSpace(s.authIndex) != "" then Text.TrimSpace(s.authIndex) else s.provider + ['\0'] + s.authType
  }

  /** A snapshot without a time is earlier than any with one. */
  predicate Earlier(s: Snapshot, t: Snapshot) {
    t.observedAt.Some? && (s.observedAt.None? || s.observedAt.value < t.observedAt.value)
  }

  /** None is later, and those that came after it are earlier. */
  predicate IsNewest(ss: seq<Snapshot>, i: nat) {
    && i < |ss|
    && (forall k | 0 <= k < |ss| :: !Earlier(ss[i], ss[k]))
    && forall k | i < k < |ss| :: Earlier(ss[k], ss[i])
  }

  predicate CopiedFrom(r: Snapshot, s: Snapshot) {
    && r.authIndex == s.authIndex && r.provider == s.provider && r.authType == s.authType
    && r.observedAt == s.observedAt && r.fields == s.fields
  }

  lemma MergeCopies(existing: Snapshot, candidate: Snapshot)
    ensures CopiedFrom(Merge(existing, candidate), if Earlier(candidate, existing) then existing else candidate)
    ensures existing.usage.None? && candidate.usage.None? ==>
      Merge(existing, candidate) == if Earlier(candidate, existing) then existing else candidate
  {
    hide MergeAdditional, MainAt;
  }

  /** Everything that has no rule of its own comes from the newest snapshot, the later one on a tie. */
  lemma {:induction false} CopiedFromNewest(ss: seq<Snapshot>) returns (i: nat)
    requires ss != []
    ensures IsNewest(ss, i) && CopiedFrom(Fold(ss), ss[i])
    ensures (forall k | 0 <= k < |ss| :: ss[k].usage.None?) ==> Fold(ss) == ss[i]
  {
    hide Merge, CopiedFrom;
    var n := |ss| - 1;
    if n == 0 {
      i := 0;
      SameCopied(ss[0]);
    } else {
      var front := ss[..n];
      var j := CopiedFromNewest(front);
      MergeCopies(Fold(front), ss[n]);
      NewestNext(ss, j, Fold(front));
      i := if Earlier(ss[n], Fold(front)) then j else n;
      CopiedThrough(Fold(ss), if Earlier(ss[n], Fold(front)) then Fold(front) else ss[n], ss[i], front[j]);
    }
  }

  lemma SameCopied(s: Snapshot)
    ensures CopiedFrom(s, s)
  {
  }

  lemma CopiedThrough(r: Snapshot, base: Snapshot, s: Snapshot, t: Snapshot)
    requires CopiedFrom(r, base) && (base == s || (CopiedFrom(base, t) && s == t))
    ensures CopiedFrom(r, s)
  {
  }

  lemma NewestNext(ss: seq<Snapshot>, j: nat, folded: Snapshot)
    requires |ss| > 1 && IsNewest(ss[..|ss| - 1], j) && CopiedFrom(folded, ss[j])
    ensures IsNewest(ss, if Earlier(ss[|ss| - 1], folded) then j else |ss| - 1)
  {
    var n := |ss| - 1;
    forall k | 0 <= k < n ensures ss[..n][k] == ss[k] {}
    assert forall k | 0 <= k < n :: !Earlier(ss[j], ss[..n][k]);
    assert forall k | j < k < n :: Earlier(ss[..n][k], ss[j]);
  }

  // ----- which identities -----

  function Identities(arrivals: seq<Snapshot>): set<string> {
    set i | 0 <= i < |arrivals| :: Identity(arrivals[i])
  }

  lemma IdentitiesNext(arrivals: seq<Snapshot>)
    requires arrivals != []
    ensures var n := |arrivals| - 1; Identities(arrivals) == Identities(arrivals[..n]) + {Identity(arrivals[n])}
    ensures KeyOf(arrivals[|arrivals| - 1]) == Identity(arrivals[|arrivals| - 1])
  {
    var n := |arrivals| - 1;
    forall key | key in Identities(arrivals) ensures key in Identities(arrivals[..n]) + {Identity(arrivals[n])} {
      var i :| 0 <= i < |arrivals| && Identity(arrivals[i]) == key;
      assert i < n ==> arrivals[..n][i] == arrivals[i];
    }
    forall key | key in Identities(arrivals[..n]) ensures key in Identities(arrivals) {
      var i :| 0 <= i < n && Identity(arrivals[..n][i]) == key;
      assert arrivals[i] == arrivals[..n][i];
    }
    assert Identity(arrivals[n]) in Identities(arrivals);
  }

  /** At most a thousand identities are held, each of them that of an arrival. */
  lemma {:induction false} HeldArrived(arrivals: seq<Snapshot>)
    ensures ReceivedAll(map[], arrivals).Keys <= Identities(arrivals) && |ReceivedAll(map[], arrivals)| <= 1000
  {
    hide Merge, Identity, KeyOf, Newer, OldestKey, Identities;
    WindowBounded(arrivals);
    if arrivals != [] {
      HeldArrived(arrivals[..|arrivals| - 1]);
      IdentitiesNext(arrivals);
    }
  }

  /** If no more than a thousand identities arrive, every one of them is held. */
  lemma {:induction false} AllHeld(arrivals: seq<Snapshot>)
    requires |Identities(arrivals)| <= 1000
    ensures ReceivedAll(map[], arrivals).Keys == Identities(arrivals)
  {
    hide Merge, Identity, KeyOf, Newer, OldestKey, Identities;
    if arrivals == [] {
      NoIdentities();
    } else {
      var n := |arrivals| - 1;
      IdentitiesNext(arrivals);
      var before, key := Identities(arrivals[..n]), Identity(arrivals[n]);
      if key !in before { assert |before + {key}| == |before| + 1; } else { assert before + {key} == before; }
      AllHeld(arrivals[..n]);
      var p := ReceivedAll(map[], arrivals[..n]);
      assert |p| == |p.Keys|;
    }
  }

  lemma NoIdentities()
    ensures Identities([]) == {}
  {
  }

  lemma {:induction false} OfIdentity(arrivals: seq<Snapshot>, key: string)
    ensures Of(arrivals, key) != [] <==> key in Identities(arrivals)
  {
    hide Identity, KeyOf, Identities;
    if arrivals == [] {
      NoIdentities();
    } else {
      OfIdentity(arrivals[..|arrivals| - 1], key);
      IdentitiesNext(arrivals);
    }
  }

  lemma FewerIdentities(arrivals: seq<Snapshot>, n: nat)
    requires n <= |arrivals|
    ensures |Identities(arrivals[..n])| <= |Identities(arrivals)|
  {
    hide Identity;
    var some, all := Identities(arrivals[..n]), Identities(arrivals);
    forall key | key in some ensures key in all {
      var i :| 0 <= i < n && Identity(arrivals[..n][i]) == key;
      assert arrivals[i] == arrivals[..n][i];
    }
    assert all == some + (all - some);
    assert |all| == |some| + |all - some|;
  }

  /** And then what is held of each is the fold of all its arrivals in their order. */
  lemma HeldAreFolds(arrivals: seq<Snapshot>, key: string)
    requires |Identities(arrivals)| <= 1000
    ensures key in ReceivedAll(map[], arrivals) <==> key in Identities(arrivals)
    ensures key in Identities(arrivals) ==> Of(arrivals, key) != []
    ensures key in ReceivedAll(map[], arrivals) ==> ReceivedAll(map[], arrivals)[key] == Fold(Of(arrivals, key))
  {
    hide ReceivedAll, Of, Fold, Identities;
    AllHeld(arrivals);
    OfIdentity(arrivals, key);
    forall n | 0 <= n <= |arrivals| ensures Of(arrivals[..n], key) != [] ==> key in ReceivedAll(map[], arrivals[..n]) {
      FewerIdentities(arrivals, n);
      AllHeld(arrivals[..n]);
      OfIdentity(arrivals[..n], key);
    }
    if key in Identities(arrivals) { KeptIsFold(arrivals, key); }
  }

  /** Nothing held is earlier, and of what is as early this has the least key. */
  predicate GoesFirst(p: Pending, out: string) {
    out in p && forall k | k in p && k != out ::
      Earlier(p[out], p[k]) || (p[out].observedAt == p[k].observedAt && Text.Less(out, k))
  }

  /** A full window takes in a new identity in place of the earliest one, unless it is earlier than all of them. */
  lemma FullWindow(p: Pending, s: Snapshot)
    requires |p| == 1000 && Identity(s) !in p
    ensures if forall k | k in p :: Earlier(s, p[k]) then Received(p, s) == p
      else exists out :: GoesFirst(p, out) && Received(p, s) == (p - {out})[Identity(s) := s]
  {
    hide Merge;
    assert KeyOf(s) == Identity(s) by { IdentitiesNext([s]); }
    assert p.Keys != {} by { assert |p.Keys| == |p|; }
    var out := OldestKey(p);
    forall k | k in p && k != out
      ensures Earlier(p[out], p[k]) || (p[out].observedAt == p[k].observedAt && Text.Less(out, k))
    {
      assert Precedes(p, out, k);
    }
    assert GoesFirst(p, out);
  }
}
