/** Of an identity that stays in the window, every part comes from the newest snapshot that carried it. */
module HeaderCacheNewest {
  import opened HeaderCache
  import opened Wrappers

  /** A snapshot as it is built from one response: Codex, dated, each further limit named once. */
  ghost predicate Raw(s: Snapshot) {
    && s.usage.Some? && s.observedAt.Some? && s.mainAt.None? && s.additionalAt == map[]
    && DistinctNames(s.usage.value.additional)
  }

  predicate DistinctNames(limits: seq<Additional>) {
    forall i, j | 0 <= i < j < |limits| :: limits[i].name != limits[j].name
  }

  function MainOf(s: Snapshot): Option<int> {
    if s.usage.Some? then s.usage.value.main else None
  }

  function LimitIn(limits: seq<Additional>, name: string): Option<int> {
    var i := Find(limits, name);
    if i < |limits| then Some(limits[i].limit) else None
  }

  function LimitOf(s: Snapshot, name: string): Option<int> {
    if s.usage.Some? then LimitIn(s.usage.value.additional, name) else None
  }

  /** A part of a snapshot: the main limit, or the further limit of a name. */
  datatype Part = Main | Named(name: string)

  function PartOf(s: Snapshot, part: Part): Option<int> {
    match part
    case Main => MainOf(s)
    case Named(name) => LimitOf(s, name)
  }

  function PartAt(s: Snapshot, part: Part): Instant {
    match part
    case Main => MainAt(s)
    case Named(name) => AdditionalAt(s, name)
  }

  // ----- one merge -----

  lemma {:induction false} FindAppend(limits: seq<Additional>, last: Additional, name: string)
    ensures LimitIn(limits + [last], name)
         == if LimitIn(limits, name).Some? then LimitIn(limits, name) else if last.name == name then Some(last.limit)
           else None
  {
    if limits == [] {
      assert [] + [last] == [last] && [last][1..] == [];
    } else if limits[0].name != name {
      assert (limits + [last])[1..] == limits[1..] + [last];
      FindAppend(limits[1..], last, name);
    }
  }

  lemma {:induction false} FindUpdate(limits: seq<Additional>, i: nat, c: Additional, name: string)
    requires i == Find(limits, c.name) < |limits|
    ensures LimitIn(limits[i := c], name) == if name == c.name then Some(c.limit) else LimitIn(limits, name)
  {
    if i > 0 {
      assert limits[i := c][1..] == limits[1..][i - 1 := c];
      FindUpdate(limits[1..], i - 1, c, name);
    } else {
      assert limits[i := c][1..] == limits[1..];
    }
  }

  /** Every listed name has its time. */
  ghost predicate Timed(m: Merged) {
    forall name | LimitIn(m.limits, name).Some? :: name in m.at
  }

  lemma PutOneEffect(m: Merged, c: Additional, at: Instant, name: string)
    requires Timed(m)
    ensures Timed(PutOne(m, c, at))
    ensures var r := PutOne(m, c, at);
      if name != c.name then LimitIn(r.limits, name) == LimitIn(m.limits, name)
        && (name in m.at ==> name in r.at && r.at[name] == m.at[name])
      else if LimitIn(m.limits, name).Some? && Before(at, m.at[name]) then r == m
      else LimitIn(r.limits, name) == Some(c.limit) && name in r.at && r.at[name] == at
  {
    var r := PutOne(m, c, at);
    var i := Find(m.limits, c.name);
    forall other ensures LimitIn(r.limits, other).Some? ==> other in r.at {
      if i == |m.limits| { FindAppend(m.limits, c, other); } else { FindUpdate(m.limits, i, c, other); }
    }
    if i == |m.limits| { FindAppend(m.limits, c, name); } else { FindUpdate(m.limits, i, c, name); }
  }

  lemma {:induction false} PutAllEffect(m: Merged, s: Snapshot, candidates: seq<Additional>, name: string)
    requires Timed(m) && DistinctNames(candidates)
    ensures Timed(PutAll(m, s, candidates))
    ensures var r, c := PutAll(m, s, candidates), LimitIn(candidates, name);
      if c.None? || (LimitIn(m.limits, name).Some? && Before(AdditionalAt(s, name), m.at[name]))
      then LimitIn(r.limits, name) == LimitIn(m.limits, name)
        && (name in m.at ==> name in r.at && r.at[name] == m.at[name])
      else LimitIn(r.limits, name) == c && name in r.at && r.at[name] == AdditionalAt(s, name)
  {
    hide PutOne;
    if candidates == [] {
    } else {
      var n := |candidates| - 1;
      var last := candidates[n];
      PutAllEffect(m, s, candidates[..n], name);
      PutOneEffect(PutAll(m, s, candidates[..n]), last, AdditionalAt(s, last.name), name);
      assert candidates == candidates[..n] + [last];
      FindAppend(candidates[..n], last, name);
      if last.name == name {
        assert LimitIn(candidates[..n], name).None?;
      }
    }
  }

  lemma {:induction false} TimesEffect(s: Snapshot, limits: seq<Additional>, name: string)
    ensures name in Times(s, limits) <==> LimitIn(limits, name).Some?
    ensures name in Times(s, limits) ==> Times(s, limits)[name] == AdditionalAt(s, name)
  {
    if limits != [] {
      var n := |limits| - 1;
      TimesEffect(s, limits[..n], name);
      assert limits == limits[..n] + [limits[n]];
      FindAppend(limits[..n], limits[n], name);
    }
  }

  /** Any part after a merge: the candidate's if it carries one not older, else what was there. */
  lemma MergePart(existing: Snapshot, candidate: Snapshot, part: Part)
    requires existing.usage.Some? && Raw(candidate)
    ensures var m := Merge(existing, candidate);
      && m.usage.Some?
      && if PartOf(candidate, part).Some?
            && (PartOf(existing, part).None? || !Before(candidate.observedAt, PartAt(existing, part)))
         then PartOf(m, part) == PartOf(candidate, part) && PartAt(m, part) == candidate.observedAt
         else PartOf(m, part) == PartOf(existing, part)
              && (PartOf(m, part).Some? && PartAt(existing, part).Some? ==> PartAt(m, part) == PartAt(existing, part))
  {
    hide PutAll, Times;
    match part
    case Main =>
    case Named(name) =>
      var mine, theirs := existing.usage.value.additional, candidate.usage.value.additional;
      var start := HeaderCache.Merged(mine, Times(existing, mine));
      forall other ensures LimitIn(mine, other).Some? ==> other in start.at { TimesEffect(existing, mine, other); }
      TimesEffect(existing, mine, name);
      PutAllEffect(start, candidate, theirs, name);
  }

  // ----- a whole history of one identity -----

  function Fold(ss: seq<Snapshot>): Snapshot
    requires ss != []
  {
    if |ss| == 1 then ss[0] else Merge(Fold(ss[..|ss| - 1]), ss[|ss| - 1])
  }

  /** The arrival a part must come from: it carries it, and no other that does is newer, or as new and later. */
  ghost predicate NewestCarrier(ss: seq<Snapshot>, part: Part, i: int) {
    && 0 <= i < |ss| && PartOf(ss[i], part).Some?
    && (forall j | 0 <= j < i && PartOf(ss[j], part).Some? :: !Before(ss[i].observedAt, ss[j].observedAt))
    && (forall j | i < j < |ss| && PartOf(ss[j], part).Some? :: Before(ss[j].observedAt, ss[i].observedAt))
  }

  /** Every part is that of its newest carrier; a part no arrival carries is absent. */
  lemma {:induction false} PartsNewest(ss: seq<Snapshot>, part: Part) returns (i: int)
    requires ss != [] && forall k | 0 <= k < |ss| :: Raw(ss[k])
    ensures Fold(ss).usage.Some?
    ensures if exists k :: 0 <= k < |ss| && PartOf(ss[k], part).Some?
            then NewestCarrier(ss, part, i) && PartOf(Fold(ss), part) == PartOf(ss[i], part)
              && PartAt(Fold(ss), part) == ss[i].observedAt
            else PartOf(Fold(ss), part).None?
    decreases |ss|
  {
    hide Merge, PartOf, PartAt, Raw, NewestCarrier, Before;
    var n := |ss| - 1;
    RawUsage(ss[n]);
    if n == 0 {
      i := 0;
      RawPart(ss[0], part);
      if PartOf(ss[0], part).Some? { LastCarries(ss, part, -1); }
    } else {
      var front := ss[..n];
      i := PartsNewest(front, part);
      MergePart(Fold(front), ss[n], part);
      assert forall k | 0 <= k < n :: front[k] == ss[k];
      if exists k :: 0 <= k < n && PartOf(front[k], part).Some? { CarrierListed(front, part, i); RawUsage(ss[i]); }
      if PartOf(ss[n], part).Some? && (PartOf(Fold(front), part).None? || !Before(ss[n].observedAt, ss[i].observedAt)) {
        LastCarries(ss, part, if PartOf(Fold(front), part).None? then -1 else i);
        i := n;
      } else if PartOf(Fold(front), part).Some? {
        CarrierKept(ss, part, i);
      }
    }
  }

  lemma CarrierListed(ss: seq<Snapshot>, part: Part, i: int)
    requires NewestCarrier(ss, part, i)
    ensures 0 <= i < |ss| && PartOf(ss[i], part).Some?
  {
  }

  /** The last arrival takes over, from the carrier before it or from none. */
  lemma LastCarries(ss: seq<Snapshot>, part: Part, i: int)
    requires ss != [] && PartOf(ss[|ss| - 1], part).Some?
    requires if i < 0 then forall k | 0 <= k < |ss| - 1 :: PartOf(ss[k], part).None?
             else NewestCarrier(ss[..|ss| - 1], part, i) && !Before(ss[|ss| - 1].observedAt, ss[i].observedAt)
    ensures NewestCarrier(ss, part, |ss| - 1)
  {
    hide PartOf;
    var n := |ss| - 1;
    if i >= 0 {
      forall j | 0 <= j < n && PartOf(ss[j], part).Some? ensures !Before(ss[n].observedAt, ss[j].observedAt) {
        assert ss[..n][j] == ss[j];
        if j != i { NotBeforeChain(ss[n].observedAt, ss[i].observedAt, ss[j].observedAt); }
      }
    }
  }

  lemma CarrierKept(ss: seq<Snapshot>, part: Part, i: int)
    requires ss != [] && NewestCarrier(ss[..|ss| - 1], part, i)
    requires PartOf(ss[|ss| - 1], part).Some? ==> Before(ss[|ss| - 1].observedAt, ss[i].observedAt)
    ensures NewestCarrier(ss, part, i)
  {
    hide PartOf;
    var front := ss[..|ss| - 1];
    assert forall k | 0 <= k < |front| :: front[k] == ss[k];
  }

  lemma RawUsage(s: Snapshot)
    requires Raw(s)
    ensures s.usage.Some? && s.observedAt.Some?
  {
  }

  lemma NotBeforeChain(a: Instant, b: Instant, c: Instant)
    requires !Before(a, b) && (!Before(b, c) || Before(c, b))
    ensures !Before(a, c)
  {
  }

  lemma RawPart(s: Snapshot, part: Part)
    requires Raw(s)
    ensures PartOf(s, part).Some? ==> PartAt(s, part) == s.observedAt
  {
  }

  // ----- arrival order -----

  ghost predicate DistinctTimes(ss: seq<Snapshot>) {
    forall i, j | 0 <= i < j < |ss| :: ss[i].observedAt != ss[j].observedAt
  }

  /** With distinct times, no part depends on the order of arrival. */
  lemma PartsAnyOrder(ss: seq<Snapshot>, tt: seq<Snapshot>, part: Part)
    requires ss != [] && multiset(ss) == multiset(tt) && DistinctTimes(ss)
    requires forall k | 0 <= k < |ss| :: Raw(ss[k])
    ensures tt != [] && PartOf(Fold(ss), part) == PartOf(Fold(tt), part)
  {
    hide Fold, PartOf, PartAt, Raw;
    assert |multiset(ss)| == |multiset(tt)|;
    SameElements(ss, tt);
    SameElements(tt, ss);
    forall k | 0 <= k < |tt| ensures Raw(tt[k]) { assert tt[k] in ss; }
    var i := PartsNewest(ss, part);
    var j := PartsNewest(tt, part);
    if k :| 0 <= k < |ss| && PartOf(ss[k], part).Some? {
      assert ss[k] in tt;
      var x :| 0 <= x < |tt| && tt[x] == ss[k];
      assert PartOf(tt[x], part).Some?;
      assert ss[i] in tt && tt[j] in ss;
      var a :| 0 <= a < |tt| && tt[a] == ss[i];
      var b :| 0 <= b < |ss| && ss[b] == tt[j];
      SameInstant(ss[i].observedAt, tt[j].observedAt);
      assert i == b;
    } else {
      forall k | 0 <= k < |tt| ensures PartOf(tt[k], part).None? { assert tt[k] in ss; }
    }
  }

  lemma SameElements(ss: seq<Snapshot>, tt: seq<Snapshot>)
    requires multiset(ss) == multiset(tt)
    ensures forall s | s in ss :: s in tt
  {
    forall s | s in ss ensures s in tt {
      assert s in multiset(ss);
    }
  }

  lemma SameInstant(a: Instant, b: Instant)
    ensures !Before(a, b) && !Before(b, a) ==> a == b
    ensures Before(a, b) ==> !Before(b, a)
  {
  }

  // ----- in the window -----

  function Of(arrivals: seq<Snapshot>, key: string): seq<Snapshot> {
    if arrivals == [] then []
    else
      var n := |arrivals| - 1;
      Of(arrivals[..n], key) + if KeyOf(arrivals[n]) == key then [arrivals[n]] else []
  }

  /** Never evicted and never refused since its first arrival. */
  ghost predicate KeptThroughout(arrivals: seq<Snapshot>, key: string) {
    forall n | 0 <= n <= |arrivals| :: Of(arrivals[..n], key) != [] ==> key in ReceivedAll(map[], arrivals[..n])
  }

  lemma {:induction false} OnlyArrived(arrivals: seq<Snapshot>, key: string)
    ensures key in ReceivedAll(map[], arrivals) ==> Of(arrivals, key) != []
  {
    hide Merge, KeyOf, Newer, OldestKey;
    if arrivals != [] { OnlyArrived(arrivals[..|arrivals| - 1], key); }
  }

  lemma FoldNext(ss: seq<Snapshot>, s: Snapshot)
    ensures Fold(ss + [s]) == if ss == [] then s else Merge(Fold(ss), s)
  {
    hide Merge;
    if ss != [] { assert (ss + [s])[..|ss|] == ss; }
  }

  /** What the window holds for such an identity is the fold of all its arrivals. */
  lemma {:induction false} KeptIsFold(arrivals: seq<Snapshot>, key: string)
    requires KeptThroughout(arrivals, key) && Of(arrivals, key) != []
    ensures key in ReceivedAll(map[], arrivals) && ReceivedAll(map[], arrivals)[key] == Fold(Of(arrivals, key))
    decreases |arrivals|
  {
    hide Merge, KeyOf, Newer, OldestKey, Fold;
    var n := |arrivals| - 1;
    var front := arrivals[..n];
    assert arrivals[..|arrivals|] == arrivals;
    forall m | 0 <= m <= n ensures Of(front[..m], key) != [] ==> key in ReceivedAll(map[], front[..m]) {
      assert front[..m] == arrivals[..m];
    }
    OnlyArrived(front, key);
    FoldNext(Of(front, key), arrivals[n]);
    if Of(front, key) != [] {
      KeptIsFold(front, key);
      assert KeyOf(arrivals[n]) != key ==> Of(arrivals, key) == Of(front, key);
    }
  }
}
