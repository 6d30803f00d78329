/**
 Reset boundaries of deferred tails. A tail is opened with the boundary of its first observation, while
 its window keeps the boundary it had; here is when the two agree again.
 */
module QuotaHistoryBoundaries {
  import opened QuotaHistory
  import opened QuotaHistoryInvariants
  import opened QuotaHistoryRuns
  import opened Wrappers

  datatype Boundary = Boundary(source: string, at: Time)

  function OfWindow(c: Current): Boundary {
    Boundary(c.resetAtSource, c.resetAt)
  }

  function OfObservation(o: Observation): Boundary {
    Boundary(o.resetAtSource, o.resetAt)
  }

  // ----- one observation -----

  /** An authoritative boundary replaces any; an absolute one replaces a relative one. */
  function Stepped(x: Boundary, o: Observation): Boundary {
    if o.authoritative || (x.source == "relative" && o.resetAtSource == "absolute") then OfObservation(o) else x
  }

  /** A calibrated window and an extended tail take an observation's boundary by the same rule. */
  lemma BothStep(c: Current, d: Deferred, o: Observation, immediate: bool)
    ensures OfWindow(Calibrated(c, o)) == Stepped(OfWindow(c), o)
    ensures OfObservation(DeferredWith(d, o, immediate).observation) == Stepped(OfObservation(d.observation), o)
  {
  }

  function SteppedAll(x: Boundary, os: seq<Observation>): Boundary {
    if os == [] then x else Stepped(SteppedAll(x, os[..|os| - 1]), os[|os| - 1])
  }

  // ----- the story of a tail -----

  /** The boundary of a window when its tail was opened, and everything the tail has taken since. */
  datatype Story = Story(before: Boundary, deferrals: seq<Observation>)

  function Continued(b: Batch, story: Story, candidate: Candidate, load: Loader, now: Time, k: Key): Story {
    if KeyOf(Keyed(candidate)) != k || !Defers(b, candidate, load, now) then story
    else if k in b.stable then story.(deferrals := story.deferrals + [Keyed(candidate)])
    else Story(OfWindow(Recovered(b, k, load, now).value.current[k]), [Keyed(candidate)])
  }

  function StoryIn(s: State, story: Story, candidates: seq<Candidate>, load: Loader, now: Time, k: Key): Story {
    if candidates == [] then story
    else
      var n := |candidates| - 1;
      Continued(MergeAll(Opened(s), candidates[..n], load, now).batch, StoryIn(s, story, candidates[..n], load, now, k),
                candidates[n], load, now, k)
  }

  /** Over a whole run; it matters only while the window has a tail. */
  ghost function StoryAfter(inputs: seq<Input>, k: Key): Story {
    if inputs == [] then Story(Boundary("", 0), [])
    else
      var n := |inputs| - 1;
      StoryIn(StateAfter(inputs[..n]), StoryAfter(inputs[..n], k), Ordered(inputs[n].candidates, inputs[n].identities),
              inputs[n].load, inputs[n].now, k)
  }

  /** Tail and window carry what the story says. */
  ghost predicate Told(b: Batch, story: Story, k: Key) {
    k in b.stable ==>
      && k in b.current && story.deferrals != []
      && OfObservation(b.stable[k].observation) == SteppedAll(OfObservation(story.deferrals[0]), story.deferrals[1..])
      && OfWindow(b.current[k]) == SteppedAll(story.before, story.deferrals)
  }

  lemma EnactElsewhere(b: Batch, key: Key, o: Observation, k: Key)
    requires key in b.current && k != key
    ensures var r := Enact(b, key, b.current[key], o).batch;
      && (k in r.stable <==> k in b.stable) && (k in r.stable ==> r.stable[k] == b.stable[k])
      && (k in r.current <==> k in b.current) && (k in r.current ==> r.current[k] == b.current[k])
  {
    hide Judge;
  }

  /** The tail of the window itself: deferred into, sealed, or left alone together with its window. */
  lemma EnactHere(b: Batch, key: Key, o: Observation)
    requires Inv(b) && key in b.current
    ensures var c, r := b.current[key], Enact(b, key, b.current[key], o).batch;
      if Judge(c, o) == Extend && !Live(c, b.pending) then
        && key in r.stable && key in r.current && OfWindow(r.current[key]) == Stepped(OfWindow(c), o)
        && OfObservation(r.stable[key].observation)
           == if key in b.stable then Stepped(OfObservation(b.stable[key].observation), o) else OfObservation(o)
      else key in r.stable ==> r == b
  {
    hide SameCycle;
    if key in b.stable { DeferredOrPending(b, key); }
  }

  lemma SteppedNext(x: Boundary, os: seq<Observation>, o: Observation)
    ensures SteppedAll(x, os + [o]) == Stepped(SteppedAll(x, os), o)
    ensures SteppedAll(x, []) == x
    ensures os != [] ==> (os + [o])[0] == os[0] && (os + [o])[1..] == os[1..] + [o]
    ensures [o][1..] == [] && SteppedAll(x, [o]) == Stepped(x, o)
  {
    assert (os + [o])[..|os|] == os;
    assert os != [] ==> (os + [o])[1..] == os[1..] + [o];
    assert [o][..0] == [];
  }

  lemma MergeTold(b: Batch, story: Story, candidate: Candidate, load: Loader, now: Time, k: Key)
    requires Inv(b) && Told(b, story, k)
    ensures Told(Merge(b, candidate, load, now).batch, Continued(b, story, candidate, load, now, k), k)
  {
    hide Inv, Enact, Judge, Admissible, Stepped, SteppedAll, Merge;
    var o := Keyed(candidate);
    var r := Recovered(b, KeyOf(o), load, now);
    MergeIsEnact(b, candidate, load, now);
    if Admissible(candidate) && r.Some? {
      RecoveredInv(b, KeyOf(o), load, now);
      if KeyOf(o) != k {
        EnactElsewhere(r.value, KeyOf(o), o, k);
      } else {
        TailInMemory(b, k);
        EnactHere(r.value, k, o);
        SteppedNext(story.before, story.deferrals, o);
        if story.deferrals != [] { SteppedNext(OfObservation(story.deferrals[0]), story.deferrals[1..], o); }
        SteppedNext(OfWindow(r.value.current[k]), [], o);
        SteppedNext(OfObservation(o), [], o);
      }
    }
  }

  lemma TailInMemory(b: Batch, k: Key)
    requires Inv(b)
    ensures k in b.stable ==> k in b.current
  {
    if k in b.stable { assert StableMirrors(b, k); }
  }

  lemma {:induction false} MergeAllTold(s: State, story: Story, candidates: seq<Candidate>, load: Loader, now: Time,
      k: Key)
    requires Settled(s) && Told(Opened(s), story, k)
    ensures Told(MergeAll(Opened(s), candidates, load, now).batch, StoryIn(s, story, candidates, load, now, k), k)
  {
    hide Told, Merge, Continued;
    if candidates != [] {
      var n := |candidates| - 1;
      MergeAllInv(s, candidates[..n], load, now);
      MergeAllTold(s, story, candidates[..n], load, now, k);
      MergeTold(MergeAll(Opened(s), candidates[..n], load, now).batch, StoryIn(s, story, candidates[..n], load, now, k),
                candidates[n], load, now, k);
    }
  }

  /** A tail that outlives a batch keeps its boundary, and so does its window. */
  lemma BoundariesKept(b: Batch, cohorts: set<Cohort>, input: Input, k: Key)
    requires Inv(b) && k in Finish(b, cohorts, input).stable
    ensures k in b.stable && k in b.current && k in Finish(b, cohorts, input).current
    ensures OfObservation(Finish(b, cohorts, input).stable[k].observation) == OfObservation(b.stable[k].observation)
    ensures OfWindow(Finish(b, cohorts, input).current[k]) == OfWindow(b.current[k])
  {
    hide Finish, Submitted, KeysOf;
    FinishParts(b, cohorts, input);
    FinishStores(b, cohorts, input);
    assert StableMirrors(b, k);
    assert k !in DueOf(b, cohorts, input);
  }

  lemma {:induction false} RunTold(inputs: seq<Input>, k: Key)
    ensures Told(Opened(StateAfter(inputs)), StoryAfter(inputs, k), k)
  {
    hide SteppedAll, Finish, StoryIn, Ordered;
    if inputs != [] {
      var n := |inputs| - 1;
      var s, input := StateAfter(inputs[..n]), inputs[n];
      var candidates := Ordered(input.candidates, input.identities);
      RunSettled(inputs[..n]);
      RunTold(inputs[..n], k);
      MergeAllTold(s, StoryAfter(inputs[..n], k), candidates, input.load, input.now, k);
      MergeAllInv(s, candidates, input.load, input.now);
      var folded := MergedBatch(s, input);
      if k in StateAfter(inputs).stable { BoundariesKept(folded.batch, folded.cohorts, input, k); }
    }
  }

  // ----- when two boundaries meet -----

  function FirstAbsolute(os: seq<Observation>): Option<Boundary> {
    if os == [] then None
    else if FirstAbsolute(os[..|os| - 1]).Some? then FirstAbsolute(os[..|os| - 1])
    else if os[|os| - 1].resetAtSource == "absolute" then Some(OfObservation(os[|os| - 1])) else None
  }

  /** A relative boundary gives way to the first absolute one. */
  function Upgraded(x: Boundary, os: seq<Observation>): Boundary {
    if x.source == "relative" && FirstAbsolute(os).Some? then FirstAbsolute(os).value else x
  }

  predicate AnyAuthoritative(os: seq<Observation>) {
    exists i :: 0 <= i < |os| && os[i].authoritative
  }

  lemma AuthoritativeNext(os: seq<Observation>)
    requires os != []
    ensures AnyAuthoritative(os) <==> AnyAuthoritative(os[..|os| - 1]) || os[|os| - 1].authoritative
  {
    var n := |os| - 1;
    if i :| 0 <= i < n && os[..n][i].authoritative { assert os[i].authoritative; }
    if i :| 0 <= i < |os| && os[i].authoritative { assert i < n ==> os[..n][i].authoritative; }
  }

  lemma {:induction false} UnauthorizedUpgrades(x: Boundary, os: seq<Observation>)
    requires !AnyAuthoritative(os)
    ensures SteppedAll(x, os) == Upgraded(x, os)
    ensures FirstAbsolute(os).Some? ==> FirstAbsolute(os).value.source == "absolute"
  {
    if os != [] {
      AuthoritativeNext(os);
      UnauthorizedUpgrades(x, os[..|os| - 1]);
    }
  }

  lemma {:induction false} AuthorityUnites(x: Boundary, y: Boundary, os: seq<Observation>)
    requires AnyAuthoritative(os)
    ensures SteppedAll(x, os) == SteppedAll(y, os)
  {
    AuthoritativeNext(os);
    if !os[|os| - 1].authoritative { AuthorityUnites(x, y, os[..|os| - 1]); }
  }

  /** What the tail took and what the window had give way to the same boundary. */
  predicate Meets(story: Story)
    requires story.deferrals != []
  {
    var os := story.deferrals;
    AnyAuthoritative(os) || Upgraded(OfObservation(os[0]), os[1..]) == Upgraded(story.before, os)
  }

  lemma MeetsExactly(story: Story)
    requires story.deferrals != []
    ensures SteppedAll(OfObservation(story.deferrals[0]), story.deferrals[1..])
            == SteppedAll(story.before, story.deferrals)
            <==> Meets(story)
  {
    hide Upgraded, SteppedAll, Stepped, AnyAuthoritative;
    var os := story.deferrals;
    var first, rest := os[0], os[1..];
    SteppedFirst(story.before, os);
    AuthoritativeFirst(os);
    if AnyAuthoritative(rest) {
      AuthorityUnites(OfObservation(first), Stepped(story.before, first), rest);
    } else if first.authoritative {
      assert Stepped(story.before, first) == OfObservation(first) by { AuthorityTakes(story.before, first); }
    } else {
      UnauthorizedUpgrades(OfObservation(first), rest);
      UnauthorizedUpgrades(story.before, os);
    }
  }

  lemma AuthorityTakes(x: Boundary, o: Observation)
    requires o.authoritative
    ensures Stepped(x, o) == OfObservation(o)
  {
  }

  /**
   After any run and any part of a further batch, a deferred tail carries its window's boundary exactly if
   one of the observations it took was authoritative, or if the boundary the window had when the tail was
   opened, and that of the first observation, give way to the same; batches in between do not matter.
   */
  lemma TailBoundaryExactly(inputs: seq<Input>, candidates: seq<Candidate>, load: Loader, now: Time, k: Key)
    requires k in MergeAll(Opened(StateAfter(inputs)), candidates, load, now).batch.stable
    ensures var b := MergeAll(Opened(StateAfter(inputs)), candidates, load, now).batch;
      var story := StoryIn(StateAfter(inputs), StoryAfter(inputs, k), candidates, load, now, k);
      && k in b.current && story.deferrals != []
      && (OfObservation(b.stable[k].observation) == OfWindow(b.current[k]) <==> Meets(story))
  {
    hide StateAfter, MergeAll, SteppedAll, Meets;
    RunSettled(inputs);
    RunTold(inputs, k);
    MergeAllTold(StateAfter(inputs), StoryAfter(inputs, k), candidates, load, now, k);
    MeetsExactly(StoryIn(StateAfter(inputs), StoryAfter(inputs, k), candidates, load, now, k));
  }

  lemma {:induction false} SteppedFirst(x: Boundary, os: seq<Observation>)
    requires os != []
    ensures SteppedAll(x, os) == SteppedAll(Stepped(x, os[0]), os[1..])
  {
    hide Stepped;
    var n := |os| - 1;
    if n == 0 {
      assert os[..0] == [] && os[1..] == [];
    } else {
      SteppedFirst(x, os[..n]);
      assert os[1..][..n - 1] == os[..n][1..] && os[1..][n - 1] == os[n];
    }
  }

  lemma AuthoritativeFirst(os: seq<Observation>)
    requires os != []
    ensures AnyAuthoritative(os) <==> os[0].authoritative || AnyAuthoritative(os[1..])
  {
    if i :| 0 <= i < |os[1..]| && os[1..][i].authoritative { assert os[i + 1].authoritative; }
    if i :| 0 <= i < |os| && os[i].authoritative { assert i > 0 ==> os[1..][i - 1].authoritative; }
  }

  /** They may differ: a Header repeats the percentage with a reset one second later, which only the tail records. */
  lemma TailBoundaryMayDiffer()
    ensures
      var c := Current(true, 18000, "absolute", 1000 * SECOND, true, 50, 10 * SECOND, 10 * SECOND, -1);
      var o := Observation("a", "primary", 18000, "absolute", 1001 * SECOND, 50, 20 * SECOND, 20 * SECOND, 1, false);
      var k := Key("a", "primary");
      var b := Batch(map[k := c], map[], [], {});
      && Inv(b)
      && var b' := Enact(b, k, c, o).batch;
      && k in b'.stable && k in b'.current
      && OfObservation(b'.stable[k].observation) != OfWindow(b'.current[k])
  {
  }
}
