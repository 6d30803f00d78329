/** The order in which a batch's candidates arrive. */
module QuotaHistoryArrival {
  import opened QuotaHistory
  import Sorting

  /** No two candidates observe one window at one instant. */
  ghost predicate DistinctInstants(candidates: seq<Candidate>) {
    forall i, j | 0 <= i < j < |candidates| && CandidateKey(candidates[i]) == CandidateKey(candidates[j]) ::
      candidates[i].observation.lastObservedAt != candidates[j].observation.lastObservedAt
  }

  lemma CandidatesApart(candidates: seq<Candidate>)
    requires DistinctInstants(candidates)
    ensures Sorting.ToldApart(candidates, CandidateLess)
  {
    forall i, j | 0 <= i < j < |candidates|
      ensures CandidateLess(candidates[i], candidates[j]) || CandidateLess(candidates[j], candidates[i])
    {
      KeyLessTotal(CandidateKey(candidates[i]), CandidateKey(candidates[j]));
    }
  }

  /** With distinct instants a batch does the same, state, accepted and submitted, for every order of its candidates. */
  lemma AnyArrivalOrder(s: State, input: Input, other: seq<Candidate>)
    requires multiset(other) == multiset(input.candidates) && DistinctInstants(input.candidates)
    ensures Process(s, input.(candidates := other)) == Process(s, input)
  {
    hide CandidateLess, DistinctInstants, IsVerified, Verified;
    var p := IsVerified(VerifiedAccounts(input.identities));
    CandidateOrder();
    CandidatesApart(input.candidates);
    Sorting.FilterPermuted(input.candidates, other, p);
    Sorting.FilterApart(input.candidates, CandidateLess, p);
    Sorting.SortPermuted(Sorting.Filter(input.candidates, p), Sorting.Filter(other, p), CandidateLess);
    assert Ordered(other, input.identities) == Ordered(input.candidates, input.identities);
    FinishAlike(s, input, input.(candidates := other));
  }

  lemma FinishAlike(s: State, input: Input, other: Input)
    requires other == input.(candidates := other.candidates)
    requires Ordered(other.candidates, other.identities) == Ordered(input.candidates, input.identities)
    ensures Process(s, other) == Process(s, input)
  {
    hide Ordered, MergeAll, DueKeys, DueSegments, AfterFlush;
  }
}
