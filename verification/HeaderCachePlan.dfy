/** The plan type of a merged snapshot: when it depends on the order of arrival, and when it does not. */
module HeaderCachePlan {
  import opened HeaderCache
  import opened HeaderCacheNewest
  import opened Wrappers
  import Sorting
  import Text

  function PlanOf(s: Snapshot): string {
    if s.usage.Some? then s.usage.value.planType else ""
  }

  predicate Blank(plan: string) {
    Text.TrimSpace(plan) == ""
  }

  /** What one merge does to the plan: the newer snapshot's, unless that is blank. */
  lemma MergePlan(existing: Snapshot, candidate: Snapshot)
    requires existing.usage.Some? && candidate.usage.Some?
    ensures var base, other := if Newer(candidate, existing) then candidate
      else existing, if Newer(candidate, existing) then existing else candidate;
      var m := Merge(existing, candidate);
      && m.usage.Some? && m.observedAt == base.observedAt
      && PlanOf(m) == if Blank(PlanOf(base)) then PlanOf(other) else PlanOf(base)
  {
    hide MergeAdditional, MainAt;
  }

  predicate Dated(ss: seq<Snapshot>) {
    forall k | 0 <= k < |ss| :: ss[k].usage.Some? && ss[k].observedAt.Some?
  }

  /** The last arrival of all by observation time. */
  predicate NewestAt(ss: seq<Snapshot>, n: nat) {
    n < |ss| && forall k | 0 <= k < |ss| && k != n :: Before(ss[k].observedAt, ss[n].observedAt)
  }

  /** Whatever order the snapshots arrive in, the plan comes out the same. */
  ghost predicate PlanAnyOrder(ss: seq<Snapshot>)
    requires ss != []
  {
    forall tt | multiset(tt) == multiset(ss) && tt != [] :: PlanOf(Fold(tt)) == PlanOf(Fold(ss))
  }

  // ----- folding -----

  /** The merged snapshot is dated like the newest so far. */
  lemma {:induction false} FoldDated(ss: seq<Snapshot>)
    requires Dated(ss) && ss != []
    ensures Fold(ss).usage.Some? && Fold(ss).observedAt.Some?
    ensures forall k | 0 <= k < |ss| :: ss[k].observedAt.value <= Fold(ss).observedAt.value
    ensures exists k :: 0 <= k < |ss| && ss[k].observedAt == Fold(ss).observedAt
  {
    hide Merge;
    if |ss| > 1 {
      var n := |ss| - 1;
      FoldDated(ss[..n]);
      MergePlan(Fold(ss[..n]), ss[n]);
      var k :| 0 <= k < n && ss[..n][k].observedAt == Fold(ss[..n]).observedAt;
      assert ss[k].observedAt == Fold(ss[..n]).observedAt;
      forall j | 0 <= j < n
        ensures ss[j].observedAt.value <= Fold(ss[..n]).observedAt.value
      {
        assert ss[..n][j] == ss[j];
      }
    }
  }

  /** The newest snapshot's plan, unless blank, wins from anywhere. */
  lemma {:induction false} NewestPlanWins(ss: seq<Snapshot>, n: nat)
    requires Dated(ss) && NewestAt(ss, n) && !Blank(PlanOf(ss[n]))
    ensures PlanOf(Fold(ss)) == PlanOf(ss[n])
    decreases |ss|
  {
    hide Merge, Blank, PlanOf;
    if |ss| > 1 {
      var m := |ss| - 1;
      FoldDated(ss[..m]);
      MergePlan(Fold(ss[..m]), ss[m]);
      var k :| 0 <= k < m && ss[..m][k].observedAt == Fold(ss[..m]).observedAt;
      if n < m {
        forall j | 0 <= j < m && j != n
          ensures Before(ss[..m][j].observedAt, ss[..m][n].observedAt)
        {
          assert ss[..m][j] == ss[j];
        }
        NewestPlanWins(ss[..m], n);
        assert ss[..m][n].observedAt.value <= Fold(ss[..m]).observedAt.value;
      } else {
        assert ss[k].observedAt == Fold(ss[..m]).observedAt;
      }
    }
  }

  /** Once a plan is not blank, older arrivals leave it alone. */
  lemma {:induction false} FirstPlanStays(ss: seq<Snapshot>, n: nat, p: string)
    requires Dated(ss) && NewestAt(ss, 0) && 1 <= n <= |ss| && !Blank(p) && PlanOf(Fold(ss[..n])) == p
    ensures PlanOf(Fold(ss)) == p
    decreases |ss|
  {
    hide Merge, Blank, PlanOf;
    if n == |ss| {
      assert ss[..n] == ss;
    } else {
      var m := |ss| - 1;
      assert ss[..m][..n] == ss[..n];
      forall j | 0 <= j < m && j != 0
        ensures Before(ss[..m][j].observedAt, ss[..m][0].observedAt)
      {
        assert ss[..m][j] == ss[j];
      }
      FirstPlanStays(ss[..m], n, p);
      FoldDated(ss[..m]);
      assert ss[..m][0].observedAt.value <= Fold(ss[..m]).observedAt.value;
      MergePlan(Fold(ss[..m]), ss[m]);
    }
  }

  /** The plan that comes out is one that came in, and not blank if any was not. */
  lemma {:induction false} PlanFromSome(ss: seq<Snapshot>)
    requires Dated(ss) && ss != []
    ensures exists k :: 0 <= k < |ss| && PlanOf(ss[k]) == PlanOf(Fold(ss))
    ensures Blank(PlanOf(Fold(ss))) ==> forall k | 0 <= k < |ss| :: Blank(PlanOf(ss[k]))
  {
    hide Merge, Blank, PlanOf;
    if |ss| > 1 {
      var n := |ss| - 1;
      PlanFromSome(ss[..n]);
      FoldDated(ss[..n]);
      MergePlan(Fold(ss[..n]), ss[n]);
      var k :| 0 <= k < n && PlanOf(ss[..n][k]) == PlanOf(Fold(ss[..n]));
      assert PlanOf(ss[k]) == PlanOf(Fold(ss[..n]));
      if Blank(PlanOf(Fold(ss))) {
        forall j | 0 <= j < n ensures Blank(PlanOf(ss[j])) { assert ss[..n][j] == ss[j]; }
      }
    } else {
      assert PlanOf(ss[0]) == PlanOf(Fold(ss));
    }
  }

  // ----- all blank -----

  /** Among blank plans only, the outcome is the spelling of one that is not the newest. */
  lemma {:induction false} BlankFromOlder(ss: seq<Snapshot>)
    requires Dated(ss) && |ss| > 1 && DistinctTimes(ss) && forall k | 0 <= k < |ss| :: Blank(PlanOf(ss[k]))
    ensures exists k :: 0 <= k < |ss| && PlanOf(ss[k]) == PlanOf(Fold(ss)) && ss[k].observedAt != Fold(ss).observedAt
    decreases |ss|
  {
    hide Merge, Blank, PlanOf;
    var n := |ss| - 1;
    var front := ss[..n];
    FoldDated(front);
    PlanFromSome(front);
    MergePlan(Fold(front), ss[n]);
    var m :| 0 <= m < n && front[m].observedAt == Fold(front).observedAt;
    assert ss[m].observedAt != ss[n].observedAt;
    var p :| 0 <= p < n && PlanOf(front[p]) == PlanOf(Fold(front));
    assert Blank(PlanOf(ss[p]));
    if Newer(ss[n], Fold(front)) {
      assert PlanOf(ss[p]) == PlanOf(Fold(ss)) && front[p].observedAt.value <= Fold(front).observedAt.value;
      assert ss[p].observedAt != ss[n].observedAt;
    } else {
      assert PlanOf(ss[n]) == PlanOf(Fold(ss));
    }
  }

  // ----- arrival order -----

  ghost predicate SomePlanned(ss: seq<Snapshot>) {
    exists k :: 0 <= k < |ss| && !Blank(PlanOf(ss[k]))
  }

  /**
   The newest snapshot names its plan; or all that name one name the same; or none does and all but the
   newest are blank in the same way.
   */
  ghost predicate PlanSettled(ss: seq<Snapshot>, n: nat)
    requires n < |ss|
  {
    || !Blank(PlanOf(ss[n]))
    || (if SomePlanned(ss)
        then forall i, j | 0 <= i < |ss| && 0 <= j < |ss| && !Blank(PlanOf(ss[i]))
          && !Blank(PlanOf(ss[j])) :: PlanOf(ss[i]) == PlanOf(ss[j])
        else forall i, j | 0 <= i < |ss| && 0 <= j < |ss| && i != n && j != n :: PlanOf(ss[i]) == PlanOf(ss[j]))
  }

  lemma Permuted(ss: seq<Snapshot>, tt: seq<Snapshot>)
    requires multiset(ss) == multiset(tt) && Dated(ss) && DistinctTimes(ss)
    ensures |tt| == |ss| && Dated(tt) && DistinctTimes(tt)
    ensures forall s :: s in ss <==> s in tt
  {
    Sorting.SameMembers(ss, tt);
    forall k | 0 <= k < |tt| ensures tt[k].usage.Some? && tt[k].observedAt.Some? { assert tt[k] in ss; }
    forall i, j | 0 <= i < j < |tt| ensures tt[i].observedAt != tt[j].observedAt {
      assert tt[i] in ss && tt[j] in ss;
      var x :| 0 <= x < |ss| && ss[x] == tt[i];
      if tt[i] == tt[j] {
        Sorting.DuplicateCounted(tt, i, j);
        Single(ss, x);
      }
    }
  }

  lemma Single(ss: seq<Snapshot>, x: nat)
    requires DistinctTimes(ss) && x < |ss|
    ensures multiset(ss)[ss[x]] == 1
  {
    assert ss == ss[..x] + [ss[x]] + ss[x + 1..];
    assert ss[x] !in ss[..x] && ss[x] !in ss[x + 1..];
  }

  lemma NewestPermuted(ss: seq<Snapshot>, n: nat, tt: seq<Snapshot>) returns (m: nat)
    requires multiset(ss) == multiset(tt) && Dated(ss) && DistinctTimes(ss) && NewestAt(ss, n)
    ensures NewestAt(tt, m) && tt[m] == ss[n]
  {
    Permuted(ss, tt);
    assert ss[n] in tt;
    m :| 0 <= m < |tt| && tt[m] == ss[n];
    forall k | 0 <= k < |tt| && k != m ensures Before(tt[k].observedAt, tt[m].observedAt) {
      assert tt[k] in ss;
      var x :| 0 <= x < |ss| && ss[x] == tt[k];
      assert x != n;
    }
  }

  lemma SettledSame(ss: seq<Snapshot>, n: nat, tt: seq<Snapshot>)
    requires multiset(ss) == multiset(tt) && Dated(ss) && DistinctTimes(ss) && NewestAt(ss, n) && PlanSettled(ss, n)
    ensures tt != [] && PlanOf(Fold(tt)) == PlanOf(Fold(ss))
  {
    hide Blank, PlanOf, Fold;
    Permuted(ss, tt);
    var m := NewestPermuted(ss, n, tt);
    if !Blank(PlanOf(ss[n])) {
      NewestPlanWins(ss, n);
      NewestPlanWins(tt, m);
    } else {
      var a := Carrier(ss, n);
      var b := Carrier(tt, m);
      assert tt[b] in ss;
      var c :| 0 <= c < |ss| && ss[c] == tt[b];
      assert SomePlanned(ss) <==> SomePlanned(tt) by { SomePlannedSame(ss, tt); SomePlannedSame(tt, ss); }
    }
  }

  lemma SomePlannedSame(ss: seq<Snapshot>, tt: seq<Snapshot>)
    requires forall s :: s in ss <==> s in tt
    ensures SomePlanned(ss) ==> SomePlanned(tt)
  {
    if k :| 0 <= k < |ss| && !Blank(PlanOf(ss[k])) {
      assert ss[k] in tt;
      var x :| 0 <= x < |tt| && tt[x] == ss[k];
    }
  }

  /** An arrival whose plan is the outcome: one that names a plan if any does, else one that is not the newest. */
  lemma Carrier(ss: seq<Snapshot>, n: nat) returns (k: nat)
    requires Dated(ss) && DistinctTimes(ss) && NewestAt(ss, n)
    ensures k < |ss| && PlanOf(ss[k]) == PlanOf(Fold(ss))
    ensures if SomePlanned(ss) then !Blank(PlanOf(ss[k])) else |ss| > 1 ==> k != n
  {
    hide Blank, PlanOf, Fold;
    PlanFromSome(ss);
    if SomePlanned(ss) || |ss| == 1 {
      k :| 0 <= k < |ss| && PlanOf(ss[k]) == PlanOf(Fold(ss));
    } else {
      BlankFromOlder(ss);
      FoldDated(ss);
      k :| 0 <= k < |ss| && PlanOf(ss[k]) == PlanOf(Fold(ss)) && ss[k].observedAt != Fold(ss).observedAt;
      var x :| 0 <= x < |ss| && ss[x].observedAt == Fold(ss).observedAt;
      assert k == n ==> x == n;
    }
  }

  /** With the newest in front, any one other snapshot can be placed second, or last. */
  lemma Rearranged(ss: seq<Snapshot>, n: nat, i: nat) returns (rest: seq<Snapshot>)
    requires Dated(ss) && DistinctTimes(ss) && NewestAt(ss, n) && i < |ss| && i != n
    ensures multiset([ss[n], ss[i]] + rest) == multiset(ss) == multiset([ss[n]] + rest + [ss[i]])
  {
    assert ss[i] in multiset(ss) - multiset{ss[n]};
    rest := Sorting.TakeTwo(ss, ss[n], ss[i]);
  }

  lemma NewestFirst(ss: seq<Snapshot>, n: nat, tt: seq<Snapshot>)
    requires multiset(ss) == multiset(tt) && Dated(ss) && DistinctTimes(ss) && NewestAt(ss, n) && tt != []
      && tt[0] == ss[n]
    ensures Dated(tt) && NewestAt(tt, 0)
  {
    Permuted(ss, tt);
    var m := NewestPermuted(ss, n, tt);
    if m != 0 { assert false; }
  }

  /** A plan can be made the outcome by letting it arrive right behind a newest blank one. */
  lemma SecondDecides(ss: seq<Snapshot>, n: nat, i: nat)
    requires Dated(ss) && DistinctTimes(ss) && NewestAt(ss, n) && PlanAnyOrder(ss)
    requires i < |ss| && Blank(PlanOf(ss[n])) && !Blank(PlanOf(ss[i]))
    ensures PlanOf(Fold(ss)) == PlanOf(ss[i])
  {
    hide Blank, PlanOf, Merge, Fold, Dated, DistinctTimes;
    assert i != n;
    var rest := Rearranged(ss, n, i);
    var tt := [ss[n], ss[i]] + rest;
    NewestFirst(ss, n, tt);
    SecondStays(ss[n], ss[i], rest);
    assert PlanOf(Fold(tt)) == PlanOf(Fold(ss));
  }

  lemma SecondStays(first: Snapshot, second: Snapshot, rest: seq<Snapshot>)
    requires Dated([first, second] + rest) && NewestAt([first, second] + rest, 0)
    requires Blank(PlanOf(first)) && !Blank(PlanOf(second))
    ensures PlanOf(Fold([first, second] + rest)) == PlanOf(second)
  {
    hide Blank, PlanOf, Merge;
    var tt := [first, second] + rest;
    assert tt[0] == first && tt[1] == second;
    assert Before(tt[1].observedAt, tt[0].observedAt);
    assert tt[..2] == [first] + [second];
    FoldNext([first], second);
    MergePlan(first, second);
    FirstPlanStays(tt, 2, PlanOf(second));
  }

  /** Among blank plans the last arrival decides, if it is older. */
  lemma LastDecides(ss: seq<Snapshot>, n: nat, i: nat)
    requires Dated(ss) && DistinctTimes(ss) && NewestAt(ss, n) && PlanAnyOrder(ss)
    requires i < |ss| && i != n && !SomePlanned(ss)
    ensures PlanOf(Fold(ss)) == PlanOf(ss[i])
  {
    hide Blank, PlanOf, Merge, Fold;
    var rest := Rearranged(ss, n, i);
    var front := [ss[n]] + rest;
    var tt := front + [ss[i]];
    NewestFirst(ss, n, tt);
    assert PlanOf(Fold(tt)) == PlanOf(Fold(ss));
    forall k | 0 <= k < |front| ensures Blank(PlanOf(front[k])) {
      Permuted(ss, tt);
      assert front[k] == tt[k] && tt[k] in ss;
    }
    LastOlderBlank(front, ss[i]);
  }

  lemma LastOlderBlank(front: seq<Snapshot>, s: Snapshot)
    requires front != [] && Dated(front + [s]) && NewestAt(front + [s], 0)
      && forall k | 0 <= k < |front| :: Blank(PlanOf(front[k]))
    ensures PlanOf(Fold(front + [s])) == PlanOf(s)
  {
    hide Blank, PlanOf, Fold, Dated, NewestAt, Merge;
    FrontOlder(front, s);
    FoldNext(front, s);
    FoldDated(front);
    assert front[0].observedAt.value <= Fold(front).observedAt.value;
    MergePlan(Fold(front), s);
    PlanFromSome(front);
  }

  lemma FrontOlder(front: seq<Snapshot>, s: Snapshot)
    requires front != [] && Dated(front + [s]) && NewestAt(front + [s], 0)
    ensures Dated(front) && s.usage.Some? && s.observedAt.Some? && front[0].observedAt.Some?
    ensures s.observedAt.value < front[0].observedAt.value
  {
    var tt := front + [s];
    assert tt[|front|] == s && tt[0] == front[0];
    forall k | 0 <= k < |front| ensures front[k].usage.Some? && front[k].observedAt.Some? { assert tt[k] == front[k]; }
    assert Before(tt[|front|].observedAt, tt[0].observedAt);
  }

  /** With distinct times, the plan does not depend on the order of arrival exactly when it is settled. */
  lemma PlanAnyOrderExactly(ss: seq<Snapshot>, n: nat)
    requires Dated(ss) && DistinctTimes(ss) && NewestAt(ss, n)
    ensures PlanAnyOrder(ss) <==> PlanSettled(ss, n)
  {
    hide Blank, PlanOf, Fold;
    if PlanSettled(ss, n) {
      forall tt | multiset(tt) == multiset(ss) && tt != [] ensures PlanOf(Fold(tt)) == PlanOf(Fold(ss)) {
        SettledSame(ss, n, tt);
      }
    }
    if PlanAnyOrder(ss) && Blank(PlanOf(ss[n])) {
      if SomePlanned(ss) {
        forall i | 0 <= i < |ss| && !Blank(PlanOf(ss[i]))
          ensures PlanOf(ss[i]) == PlanOf(Fold(ss))
        {
          SecondDecides(ss, n, i);
        }
      } else {
        forall i | 0 <= i < |ss| && i != n ensures PlanOf(ss[i]) == PlanOf(Fold(ss)) { LastDecides(ss, n, i); }
      }
    }
  }

  function Planned(plan: string, at: int): Snapshot {
    Snapshot("a", "codex", "oauth", Some(at), Some(Usage(plan, None, [])), 0, None, map[])
  }

  /** Here it does depend: a newest blank plan takes over what has been seen so far. */
  lemma PlanTypeDependsOnOrder()
    ensures var a, b, c := Planned("x", 1), Planned("", 3), Planned("y", 2);
      PlanOf(Fold([a, b, c])) == "x" && PlanOf(Fold([c, b, a])) == "y"
  {
    var a, b, c := Planned("x", 1), Planned("", 3), Planned("y", 2);
    assert [a, b, c][..2] == [a, b] && [a, b][..1] == [a] && [c, b, a][..2] == [c, b] && [c, b][..1] == [c];
    assert Text.TrimSpace("") == "";
    assert Text.TrimSpace("x") == "x" && Text.TrimSpace("y") == "y";
    assert Fold([a, b]) == Merge(a, b) && Fold([c, b]) == Merge(c, b);
  }
}
