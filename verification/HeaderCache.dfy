/**
 The one-minute window of response-header snapshots: at most a thousand identities, each with its newest
 main limit and its newest limit of every further name.
 */
module HeaderCache {
  import opened Wrappers
  import Text

  const IDENTITY_LIMIT: nat := 1000

  /** An instant, or none where the source has the zero time. */
  type Instant = Option<int>

  datatype Additional = Additional(name: string, limit: int)

  datatype Usage = Usage(planType: string, main: Option<int>, additional: seq<Additional>)

  /** `usage` is absent for providers without a merge rule; `fields` stands for everything copied along. */
  datatype Snapshot = Snapshot(
    authIndex: string,
    provider: string,
    authType: string,
    observedAt: Instant,
    usage: Option<Usage>,
    fields: int,
    mainAt: Instant,
    additionalAt: map<string, Instant>)

  type Pending = map<string, Snapshot>

  // ----- instants -----

  /** A missing instant is before every real one. */
  predicate Before(candidate: Instant, existing: Instant) {
    if candidate.None? then existing.Some? else existing.Some? && candidate.value < existing.value
  }

  predicate Newer(candidate: Snapshot, existing: Snapshot) {
    if candidate.observedAt.None? then existing.observedAt.None?
    else if existing.observedAt.None? then true
    else !(candidate.observedAt.value < existing.observedAt.value)
  }

  lemma NewerIsNotBefore(candidate: Snapshot, existing: Snapshot)
    ensures Newer(candidate, existing) <==> !Before(candidate.observedAt, existing.observedAt)
  {
  }

  // ----- merging two snapshots of one identity -----

  function MainAt(s: Snapshot): Instant {
    if s.usage.None? || s.usage.value.main.None? then None
    else if s.mainAt.Some? then s.mainAt
    else s.observedAt
  }

  function AdditionalAt(s: Snapshot, name: string): Instant {
    if name in s.additionalAt then s.additionalAt[name] else s.observedAt
  }

  /** Where a name stands in a list, or the list's length. */
  function Find(limits: seq<Additional>, name: string): (i: nat)
    ensures i <= |limits| && (i < |limits| ==> limits[i].name == name)
    ensures forall k | 0 <= k < i :: limits[k].name != name
  {
    if limits == [] then 0 else if limits[0].name == name then 0 else Find(limits[1..], name) + 1
  }

  datatype Merged = Merged(limits: seq<Additional>, at: map<string, Instant>)

  function Times(s: Snapshot, limits: seq<Additional>): map<string, Instant> {
    if limits == [] then map[]
    else Times(s, limits[..|limits| - 1])[limits[|limits| - 1].name := AdditionalAt(s, limits[|limits| - 1].name)]
  }

  /** One candidate limit: replaces its namesake unless older, or joins the end. */
  function PutOne(m: Merged, candidate: Additional, at: Instant): Merged {
    var i := Find(m.limits, candidate.name);
    if i == |m.limits| then Merged(m.limits + [candidate], m.at[candidate.name := at])
    else if candidate.name in m.at && Before(at, m.at[candidate.name]) then m
    else Merged(m.limits[i := candidate], m.at[candidate.name := at])
  }

  function PutAll(m: Merged, s: Snapshot, candidates: seq<Additional>): Merged {
    if candidates == [] then m
    else
      var last := candidates[|candidates| - 1];
      PutOne(PutAll(m, s, candidates[..|candidates| - 1]), last, AdditionalAt(s, last.name))
  }

  function MergeAdditional(existing: Snapshot, mine: seq<Additional>, candidate: Snapshot,
      theirs: seq<Additional>): Merged {
    if mine == [] && theirs == [] then Merged([], map[])
      else PutAll(Merged(mine, Times(existing, mine)), candidate, theirs)
  }

  /** The newer snapshot is the base; main limit and further limits are chosen each on its own. */
  function Merge(existing: Snapshot, candidate: Snapshot): Snapshot {
    if existing.usage.None? || candidate.usage.None? then
      if Newer(candidate, existing) then candidate else existing
    else
      var e, c := existing.usage.value, candidate.usage.value;
      var base := if Newer(candidate, existing) then candidate else existing;
      var baseUsage, other := if Newer(candidate, existing) then c else e, if Newer(candidate, existing) then e else c;
      var plan := if Text.TrimSpace(baseUsage.planType) == "" then other.planType else baseUsage.planType;
      var takesMain := c.main.Some? && (e.main.None? || !Before(MainAt(candidate), MainAt(existing)));
      var main := if takesMain then c.main else e.main;
      var mainAt := if takesMain then MainAt(candidate) else if e.main.Some? then MainAt(existing) else None;
      var merged := MergeAdditional(existing, e.additional, candidate, c.additional);
      base.(usage := Some(Usage(plan, main, merged.limits)), mainAt := mainAt, additionalAt := merged.at)
  }

  // ----- the bounded map -----

  function KeyOf(s: Snapshot): string {
    var authIndex := Text.TrimSpace(s.authIndex);
    if authIndex == "" then s.provider + "\0" + s.authType else authIndex
  }

  /** Older, or equally old with the lesser key. */
  predicate Precedes(p: Pending, a: string, b: string)
    requires a in p && b in p
  {
    Before(p[a].observedAt, p[b].observedAt) || (p[a].observedAt == p[b].observedAt && Text.Less(a, b))
  }

  ghost predicate IsOldest(p: Pending, key: string) {
    key in p && forall k | k in p && k != key :: Precedes(p, key, k)
  }

  lemma {:induction false} OldestExists(p: Pending) returns (key: string)
    requires p.Keys != {}
    ensures IsOldest(p, key)
    decreases |p|
  {
    var k :| k in p;
    var rest := p - {k};
    if rest.Keys == {} {
      key := k;
      assert forall j | j in p :: j == k || j in rest.Keys;
    } else {
      var o := OldestExists(rest);
      PrecedesTotal(p, k, o);
      if Precedes(p, k, o) {
        key := k;
        forall j | j in p && j != k ensures Precedes(p, k, j) {
          if j != o { assert Precedes(rest, o, j); PrecedesTransitive(p, k, o, j); }
        }
      } else {
        key := o;
        forall j | j in p && j != o ensures Precedes(p, o, j) {
          if j != k { assert Precedes(rest, o, j); }
        }
      }
    }
  }

  lemma PrecedesTotal(p: Pending, a: string, b: string)
    requires a in p && b in p
    ensures a == b || Precedes(p, a, b) || Precedes(p, b, a)
    ensures !(Precedes(p, a, b) && Precedes(p, b, a))
  {
    Text.LessTotal(a, b);
  }

  lemma PrecedesTransitive(p: Pending, a: string, b: string, c: string)
    requires a in p && b in p && c in p && Precedes(p, a, b) && Precedes(p, b, c)
    ensures Precedes(p, a, c)
  {
    if p[a].observedAt == p[b].observedAt == p[c].observedAt {
      Text.LessTransitive(a, b, c);
    }
  }

  lemma OldestUnique(p: Pending, a: string, b: string)
    requires IsOldest(p, a) && IsOldest(p, b)
    ensures a == b
  {
    if a != b { PrecedesTotal(p, a, b); }
  }

  lemma SomeOldest(p: Pending)
    requires p.Keys != {}
    ensures exists key :: IsOldest(p, key)
  {
    var key := OldestExists(p);
  }

  ghost function OldestKey(p: Pending): (key: string)
    requires p.Keys != {}
    ensures IsOldest(p, key)
  {
    SomeOldest(p);
    var key :| IsOldest(p, key);
    key
  }

  /** One arrival. */
  ghost function Received(p: Pending, s: Snapshot): Pending {
    var key := KeyOf(s);
    if key in p then p[key := Merge(p[key], s)]
    else if |p| < IDENTITY_LIMIT || p.Keys == {} then p[key := s]
    else if Newer(s, p[OldestKey(p)]) then (p - {OldestKey(p)})[key := s]
    else p
  }

  ghost function ReceivedAll(p: Pending, arrivals: seq<Snapshot>): Pending {
    if arrivals == [] then p else Received(ReceivedAll(p, arrivals[..|arrivals| - 1]), arrivals[|arrivals| - 1])
  }
}
