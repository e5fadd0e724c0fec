/**
 * The transaction's decision rules and queries as functions of the values
 * they look at: the status store, the tag filter, the catalog's resources.
 */
module TransactionRules {
  import opened Wrappers
  import opened Resources

  /** `failed?`: a status is stored for the reference and its failure is set. */
  predicate Failed(statuses: map<string, Status>, ref: string) {
    ref in statuses && statuses[ref].Failed()
  }

  /**
   * `report.resource_statuses.values.detect { |s| s.failed? }`: the first
   * failed status in insertion order, or None when no stored status failed.
   */
  function FirstFailed(order: seq<string>, statuses: map<string, Status>): (r: Option<Status>)
    ensures r.None? ==> forall i :: 0 <= i < |order| ==> !Failed(statuses, order[i])
    ensures r.Some? ==>
      exists i :: (0 <= i < |order| && Failed(statuses, order[i]) && r.value == statuses[order[i]]
                   && forall j :: 0 <= j < i ==> !Failed(statuses, order[j]))
    decreases |order|
  {
    if order == [] then None
    else if Failed(statuses, order[0]) then Some(statuses[order[0]])
    else
      var r := FirstFailed(order[1..], statuses);
      assert forall j :: 1 <= j < |order| ==> order[j] == order[1..][j - 1];
      r
  }

  /** `any_failed?` */
  predicate AnyFailed(order: seq<string>, statuses: map<string, Status>) {
    FirstFailed(order, statuses).Some?
  }

  /**
   * When `order` lists every stored reference, `any_failed?` holds exactly
   * when some stored status is failed; so it is false for an empty store.
   */
  lemma AnyFailedIff(order: seq<string>, statuses: map<string, Status>)
    requires forall ref :: ref in statuses ==> ref in order
    ensures AnyFailed(order, statuses) <==> exists ref :: Failed(statuses, ref)
    ensures statuses == map[] ==> !AnyFailed(order, statuses)
  {
    if ref :| Failed(statuses, ref) {
      var i :| 0 <= i < |order| && order[i] == ref;
      assert Failed(statuses, order[i]);
    }
  }

  /** The catalog resource has a stored status whose changed flag is set. */
  predicate HasChanged(statuses: map<string, Status>, r: Resource) {
    Ref(r) in statuses && statuses[Ref(r)].changed
  }

  /**
   * `changed?`: the catalog's resources whose status says they changed,
   * and no others; ChangedAppend shows they keep catalog order.
   */
  function Changed(resources: seq<Resource>, statuses: map<string, Status>): (r: seq<Resource>)
    ensures forall x :: x in r <==> x in resources && HasChanged(statuses, x)
    ensures |r| <= |resources|
    decreases |resources|
  {
    if resources == [] then []
    else
      var rest := Changed(resources[1..], statuses);
      assert forall x :: x in resources <==> x == resources[0] || x in resources[1..];
      if HasChanged(statuses, resources[0]) then [resources[0]] + rest else rest
  }

  /**
   * `changed?` keeps catalog order: the changed resources of a catalog
   * made of two parts are those of the first part followed by those of
   * the second.
   */
  lemma {:induction false} ChangedAppend(a: seq<Resource>, b: seq<Resource>, statuses: map<string, Status>)
    ensures Changed(a + b, statuses) == Changed(a, statuses) + Changed(b, statuses)
    decreases |a|
  {
    if a != [] {
      assert (a + b)[0] == a[0] && (a + b)[1..] == a[1..] + b;
      ChangedAppend(a[1..], b, statuses);
    } else {
      assert a + b == b;
    }
  }

  /**
   * `missing_tags?`: a non-empty filter is active and the resource is
   * tagged with none of its tags.
   */
  predicate MissingTags(filter: seq<string>, r: Resource) {
    |filter| > 0 && !TaggedWithAny(r, filter)
  }

  /**
   * A resource tagged with any one of the filter's tags is not missing tags,
   * and with no filter nothing is.
   */
  lemma TaggedIsNotMissing(filter: seq<string>, r: Resource, tag: string)
    ensures tag in filter && tag in r.tags ==> !MissingTags(filter, r)
    ensures filter == [] ==> !MissingTags(filter, r)
  {
    if tag in filter && tag in r.tags {
      var i :| 0 <= i < |filter| && filter[i] == tag;
      assert TaggedWithAny(r, filter);
    }
  }

  /** `failed_dependencies?`: some dependency has a stored failed status. */
  predicate FailedDependencies(r: Resource, statuses: map<string, Status>) {
    exists i :: 0 <= i < |r.dependencies| && Failed(statuses, r.dependencies[i])
  }

  /** `skip?`: any one of the four reasons is enough. */
  predicate Skip(filter: seq<string>, r: Resource, statuses: map<string, Status>) {
    MissingTags(filter, r) || !r.scheduled || FailedDependencies(r, statuses) || r.virtual
  }

  /** `resource_status(resource).skipped = true`: the existing or a fresh status, marked skipped. */
  function MarkedSkipped(statuses: map<string, Status>, ref: string): (s: Status)
    ensures s.skipped && s.resourceRef == (if ref in statuses then statuses[ref].resourceRef else ref)
    ensures ref in statuses ==> s == statuses[ref].(skipped := true)
    ensures ref !in statuses ==> s == FreshStatus(ref).(skipped := true)
  {
    (if ref in statuses then statuses[ref] else FreshStatus(ref)).(skipped := true)
  }

  /** The status store after `apply`: a returned status is stored under its reference, a raise stores nothing. */
  function AfterApply(statuses: map<string, Status>, e: Evaluation): (m: map<string, Status>)
    ensures e.Evaluated? ==> m.Keys == statuses.Keys + {e.status.resourceRef} && m[e.status.resourceRef] == e.status
    ensures e.Evaluated? ==> forall k :: k in statuses && k != e.status.resourceRef ==> m[k] == statuses[k]
    ensures e.Raised? ==> m == statuses
  {
    match e
    case Evaluated(s) => statuses[s.resourceRef := s]
    case Raised(_) => statuses
  }

  /** An event queued with `queue_event(resource, event)`. */
  datatype QueuedEvent = QueuedEvent(resourceRef: string, event: Event)

  /** One queued entry per event, in the events' order. */
  function Queued(ref: string, events: seq<Event>): (q: seq<QueuedEvent>)
    ensures |q| == |events|
    ensures forall i :: 0 <= i < |q| ==> q[i] == QueuedEvent(ref, events[i])
  {
    seq(|events|, i requires 0 <= i < |events| => QueuedEvent(ref, events[i]))
  }

  // ---------------------------------------------------------------- prefetch

  predicate Prefetchable(r: Resource) {
    r.provider.Some? && r.provider.value.prefetches
  }

  /** Files one resource under its provider, keyed by its name: a later resource with the same name wins. */
  function AddToGroup(groups: map<string, map<string, Resource>>, r: Resource): map<string, map<string, Resource>> {
    if Prefetchable(r) then
      var p := r.provider.value.name;
      groups[p := (if p in groups then groups[p] else map[])[r.name := r]]
    else groups
  }

  /** The provider-to-(name-to-resource) maps `prefetch` hands to each provider class. */
  function PrefetchGroups(rs: seq<Resource>): map<string, map<string, Resource>>
    decreases |rs|
  {
    if rs == [] then map[] else AddToGroup(PrefetchGroups(rs[..|rs| - 1]), rs[|rs| - 1])
  }

  /**
   * Prefetch groups by NAME: every entry is a prefetchable resource of the
   * catalog filed under its own provider and its own name (not its title),
   * and every prefetchable resource's name is present under its provider.
   */
  lemma {:induction false} PrefetchKeyedByName(rs: seq<Resource>)
    ensures forall p, n :: p in PrefetchGroups(rs) && n in PrefetchGroups(rs)[p] ==>
      var r := PrefetchGroups(rs)[p][n];
      r in rs && r.name == n && Prefetchable(r) && r.provider.value.name == p
    ensures forall r :: r in rs && Prefetchable(r) ==>
      r.provider.value.name in PrefetchGroups(rs) && r.name in PrefetchGroups(rs)[r.provider.value.name]
    decreases |rs|
  {
    if rs != [] {
      var init := rs[..|rs| - 1];
      PrefetchKeyedByName(init);
      assert forall r :: r in rs <==> r in init || r == rs[|rs| - 1];
    }
  }

  // ------------------------------------------------------------- generation

  /** The candidates `add_resource` accepted (tagged and finished) and those it refused as duplicates. */
  datatype Generation = Generation(accepted: seq<Resource>, duplicates: seq<Resource>)

  predicate HasRef(resources: seq<Resource>, ref: string) {
    exists i :: 0 <= i < |resources| && Ref(resources[i]) == ref
  }

  /**
   * `generate_additional_resources` over a catalog: each candidate is tagged
   * with the generator's tags, then added; a candidate whose reference is
   * already in the catalog is a duplicate and is dropped unfinished.
   */
  function Generate(catalog: seq<Resource>, candidates: seq<Resource>, tags: set<string>): Generation
    decreases |candidates|
  {
    if candidates == [] then Generation([], [])
    else
      var c := TagWith(candidates[0], tags);
      if HasRef(catalog, Ref(c)) then
        var g := Generate(catalog, candidates[1..], tags);
        Generation(g.accepted, [c] + g.duplicates)
      else
        var f := Finish(c);
        var g := Generate(catalog + [f], candidates[1..], tags);
        Generation([f] + g.accepted, g.duplicates)
  }

  /**
   * One step of generation for a candidate the catalog (`base` plus what was
   * accepted so far) does not hold yet: it is finished and accepted.
   */
  lemma GenerateAcceptStep(base: seq<Resource>, accepted: seq<Resource>, candidates: seq<Resource>,
                           tags: set<string>, whole: Generation)
    requires candidates != [] && !HasRef(base + accepted, Ref(TagWith(candidates[0], tags)))
    requires whole.accepted == accepted + Generate(base + accepted, candidates, tags).accepted
    ensures whole.accepted == (accepted + [Finish(TagWith(candidates[0], tags))])
      + Generate(base + (accepted + [Finish(TagWith(candidates[0], tags))]), candidates[1..], tags).accepted
    ensures Generate(base + accepted, candidates, tags).duplicates
      == Generate(base + (accepted + [Finish(TagWith(candidates[0], tags))]), candidates[1..], tags).duplicates
  {
    var f := Finish(TagWith(candidates[0], tags));
    assert base + accepted + [f] == base + (accepted + [f]);
  }

  /** One step of generation for a candidate whose reference is taken: it is set aside as a duplicate. */
  lemma GenerateRejectStep(catalog: seq<Resource>, duplicates: seq<Resource>, candidates: seq<Resource>,
                           tags: set<string>, whole: Generation)
    requires candidates != [] && HasRef(catalog, Ref(TagWith(candidates[0], tags)))
    requires whole.duplicates == duplicates + Generate(catalog, candidates, tags).duplicates
    ensures whole.duplicates == (duplicates + [TagWith(candidates[0], tags)])
      + Generate(catalog, candidates[1..], tags).duplicates
    ensures Generate(catalog, candidates, tags).accepted == Generate(catalog, candidates[1..], tags).accepted
  {
  }

  /** The reference-free resources the catalog does not already hold. */
  predicate Fresh(catalog: seq<Resource>, accepted: seq<Resource>) {
    && (forall i :: 0 <= i < |accepted| ==> !HasRef(catalog, Ref(accepted[i])))
    && (forall i, j :: 0 <= i < j < |accepted| ==> Ref(accepted[i]) != Ref(accepted[j]))
  }

  /**
   * Every candidate ends up either accepted or a duplicate; every accepted
   * resource is finished and carries the generator's tags.
   */
  lemma {:induction false} GenerateAcceptedFinished(catalog: seq<Resource>, candidates: seq<Resource>, tags: set<string>)
    ensures |Generate(catalog, candidates, tags).accepted| + |Generate(catalog, candidates, tags).duplicates| == |candidates|
    ensures forall a :: a in Generate(catalog, candidates, tags).accepted ==> a.finished && tags <= a.tags
    decreases |candidates|
  {
    if candidates != [] {
      var c := TagWith(candidates[0], tags);
      if HasRef(catalog, Ref(c)) {
        GenerateAcceptedFinished(catalog, candidates[1..], tags);
      } else {
        GenerateAcceptedFinished(catalog + [Finish(c)], candidates[1..], tags);
      }
    }
  }

  lemma HasRefAppend(a: seq<Resource>, b: seq<Resource>, ref: string)
    ensures HasRef(a + b, ref) <==> HasRef(a, ref) || HasRef(b, ref)
  {
    if HasRef(a + b, ref) {
      var k :| 0 <= k < |a + b| && Ref((a + b)[k]) == ref;
      if k >= |a| {
        assert b[k - |a|] == (a + b)[k];
      }
    }
    if HasRef(a, ref) {
      var k :| 0 <= k < |a| && Ref(a[k]) == ref;
      assert (a + b)[k] == a[k];
    }
    if HasRef(b, ref) {
      var k :| 0 <= k < |b| && Ref(b[k]) == ref;
      assert (a + b)[|a| + k] == b[k];
    }
  }

  /** No accepted resource collides with the catalog or with another accepted one. */
  lemma {:induction false} GenerateAcceptedFresh(catalog: seq<Resource>, candidates: seq<Resource>, tags: set<string>)
    ensures Fresh(catalog, Generate(catalog, candidates, tags).accepted)
    decreases |candidates|
  {
    if candidates != [] {
      var c := TagWith(candidates[0], tags);
      if HasRef(catalog, Ref(c)) {
        GenerateAcceptedFresh(catalog, candidates[1..], tags);
      } else {
        var f := Finish(c);
        GenerateAcceptedFresh(catalog + [f], candidates[1..], tags);
        var g := Generate(catalog + [f], candidates[1..], tags);
        assert [f][0] == f;
        forall i | 0 <= i < |g.accepted|
          ensures !HasRef(catalog, Ref(g.accepted[i])) && Ref(g.accepted[i]) != Ref(f)
        {
          HasRefAppend(catalog, [f], Ref(g.accepted[i]));
        }
        assert forall i :: 1 <= i < |g.accepted| + 1 ==> ([f] + g.accepted)[i] == g.accepted[i - 1];
      }
    }
  }

  /** A duplicate collides with the catalog or with a resource accepted before it. */
  lemma {:induction false} GenerateDuplicatesCollide(catalog: seq<Resource>, candidates: seq<Resource>, tags: set<string>)
    ensures forall i :: 0 <= i < |Generate(catalog, candidates, tags).duplicates| ==>
      HasRef(catalog + Generate(catalog, candidates, tags).accepted, Ref(Generate(catalog, candidates, tags).duplicates[i]))
    decreases |candidates|
  {
    if candidates != [] {
      var c := TagWith(candidates[0], tags);
      var rest := candidates[1..];
      if HasRef(catalog, Ref(c)) {
        GenerateDuplicatesCollide(catalog, rest, tags);
        var g := Generate(catalog, rest, tags);
        assert Generate(catalog, candidates, tags) == Generation(g.accepted, [c] + g.duplicates);
        HasRefAppend(catalog, g.accepted, Ref(c));
        var d := [c] + g.duplicates;
        forall i | 0 <= i < |d|
          ensures HasRef(catalog + g.accepted, Ref(d[i]))
        {
          if i > 0 {
            assert d[i] == g.duplicates[i - 1];
          }
        }
      } else {
        var f := Finish(c);
        GenerateDuplicatesCollide(catalog + [f], rest, tags);
        var g := Generate(catalog + [f], rest, tags);
        assert Generate(catalog, candidates, tags) == Generation([f] + g.accepted, g.duplicates);
        assert catalog + [f] + g.accepted == catalog + ([f] + g.accepted);
      }
    }
  }

  /** Generation never finishes a duplicate: it is dropped as the candidate was, only tagged. */
  lemma {:induction false} GenerateDuplicatesUnfinished(catalog: seq<Resource>, candidates: seq<Resource>, tags: set<string>)
    requires forall i :: 0 <= i < |candidates| ==> !candidates[i].finished
    ensures forall d :: d in Generate(catalog, candidates, tags).duplicates ==> !d.finished
    decreases |candidates|
  {
    if candidates != [] {
      var c := TagWith(candidates[0], tags);
      var rest := candidates[1..];
      assert forall i :: 0 <= i < |rest| ==> rest[i] == candidates[i + 1];
      if HasRef(catalog, Ref(c)) {
        GenerateDuplicatesUnfinished(catalog, rest, tags);
      } else {
        assert forall i :: 0 <= i < |rest| ==> !rest[i].finished;
        GenerateDuplicatesUnfinished(catalog + [Finish(c)], rest, tags);
        var g := Generate(catalog + [Finish(c)], rest, tags);
        assert Generate(catalog, candidates, tags) == Generation([Finish(c)] + g.accepted, g.duplicates);
      }
    }
  }

  lemma HasRefSingle(x: Resource, ref: string)
    ensures HasRef([x], ref) <==> Ref(x) == ref
  {
    assert [x][0] == x;
  }

  /**
   * The candidate at `i` is new: its reference is neither in the catalog
   * nor carried by an earlier candidate.
   */
  predicate NewAt(catalog: seq<Resource>, candidates: seq<Resource>, i: int)
    requires 0 <= i < |candidates|
  {
    !HasRef(catalog + candidates[..i], Ref(candidates[i]))
  }

  /** The catalog generation goes on with after it has dealt with candidate `c`. */
  function AfterCandidate(catalog: seq<Resource>, c: Resource, tags: set<string>): seq<Resource> {
    if HasRef(catalog, Ref(TagWith(c, tags))) then catalog else catalog + [Finish(TagWith(c, tags))]
  }

  /** Whether a later candidate is new does not change once the first candidate has been dealt with. */
  lemma NewAtShift(catalog: seq<Resource>, candidates: seq<Resource>, tags: set<string>, i: int)
    requires 0 < i < |candidates|
    ensures NewAt(catalog, candidates, i) <==> NewAt(AfterCandidate(catalog, candidates[0], tags), candidates[1..], i - 1)
  {
    var c, rest, ref := candidates[0], candidates[1..], Ref(candidates[i]);
    var next := AfterCandidate(catalog, c, tags);
    assert rest[i - 1] == candidates[i];
    assert candidates[..i] == [c] + rest[..i - 1];
    assert catalog + candidates[..i] == (catalog + [c]) + rest[..i - 1];
    HasRefAppend(catalog + [c], rest[..i - 1], ref);
    HasRefAppend(next, rest[..i - 1], ref);
    HasRefAppend(catalog, [c], ref);
    HasRefSingle(c, ref);
    if !HasRef(catalog, Ref(TagWith(c, tags))) {
      HasRefAppend(catalog, [Finish(TagWith(c, tags))], ref);
      HasRefSingle(Finish(TagWith(c, tags)), ref);
    }
  }

  /** Generation dealing with its first candidate: accepted exactly when it is new. */
  lemma GenerateStep(catalog: seq<Resource>, candidates: seq<Resource>, tags: set<string>)
    requires candidates != []
    ensures NewAt(catalog, candidates, 0) ==>
      && Generate(catalog, candidates, tags).accepted ==
           [Finish(TagWith(candidates[0], tags))] + Generate(AfterCandidate(catalog, candidates[0], tags), candidates[1..], tags).accepted
      && Generate(catalog, candidates, tags).duplicates ==
           Generate(AfterCandidate(catalog, candidates[0], tags), candidates[1..], tags).duplicates
    ensures !NewAt(catalog, candidates, 0) ==>
      && Generate(catalog, candidates, tags).accepted ==
           Generate(AfterCandidate(catalog, candidates[0], tags), candidates[1..], tags).accepted
      && Generate(catalog, candidates, tags).duplicates ==
           [TagWith(candidates[0], tags)] + Generate(AfterCandidate(catalog, candidates[0], tags), candidates[1..], tags).duplicates
  {
    assert catalog + candidates[..0] == catalog;
  }

  /**
   * Every candidate is sorted by whether it is new: a new candidate,
   * tagged and finished, is accepted; any other, tagged, is a duplicate.
   */
  lemma {:induction false} GenerateSortsCandidates(catalog: seq<Resource>, candidates: seq<Resource>, tags: set<string>)
    ensures forall i :: 0 <= i < |candidates| && NewAt(catalog, candidates, i) ==>
      Finish(TagWith(candidates[i], tags)) in Generate(catalog, candidates, tags).accepted
    ensures forall i :: 0 <= i < |candidates| && !NewAt(catalog, candidates, i) ==>
      TagWith(candidates[i], tags) in Generate(catalog, candidates, tags).duplicates
    decreases |candidates|
  {
    if candidates != [] {
      var next, rest := AfterCandidate(catalog, candidates[0], tags), candidates[1..];
      GenerateSortsCandidates(next, rest, tags);
      GenerateStep(catalog, candidates, tags);
      forall i | 0 < i < |candidates|
        ensures NewAt(catalog, candidates, i) ==> Finish(TagWith(candidates[i], tags)) in Generate(catalog, candidates, tags).accepted
        ensures !NewAt(catalog, candidates, i) ==> TagWith(candidates[i], tags) in Generate(catalog, candidates, tags).duplicates
      {
        NewAtShift(catalog, candidates, tags, i);
        assert rest[i - 1] == candidates[i];
      }
    }
  }

  /**
   * Generation makes nothing up: every accepted resource is a new
   * candidate, tagged and finished, and every duplicate is a candidate
   * that is not new, tagged.
   */
  lemma {:induction false} GenerateFromCandidates(catalog: seq<Resource>, candidates: seq<Resource>, tags: set<string>)
    ensures forall a :: a in Generate(catalog, candidates, tags).accepted ==>
      exists i :: 0 <= i < |candidates| && NewAt(catalog, candidates, i) && a == Finish(TagWith(candidates[i], tags))
    ensures forall d :: d in Generate(catalog, candidates, tags).duplicates ==>
      exists i :: 0 <= i < |candidates| && !NewAt(catalog, candidates, i) && d == TagWith(candidates[i], tags)
    decreases |candidates|
  {
    if candidates != [] {
      var next, rest := AfterCandidate(catalog, candidates[0], tags), candidates[1..];
      GenerateFromCandidates(next, rest, tags);
      GenerateStep(catalog, candidates, tags);
      var g := Generate(next, rest, tags);
      forall a | a in g.accepted
        ensures exists i :: 0 <= i < |candidates| && NewAt(catalog, candidates, i) && a == Finish(TagWith(candidates[i], tags))
      {
        var j :| 0 <= j < |rest| && NewAt(next, rest, j) && a == Finish(TagWith(rest[j], tags));
        NewAtShift(catalog, candidates, tags, j + 1);
        assert candidates[j + 1] == rest[j];
      }
      forall d | d in g.duplicates
        ensures exists i :: 0 <= i < |candidates| && !NewAt(catalog, candidates, i) && d == TagWith(candidates[i], tags)
      {
        var j :| 0 <= j < |rest| && !NewAt(next, rest, j) && d == TagWith(rest[j], tags);
        NewAtShift(catalog, candidates, tags, j + 1);
        assert candidates[j + 1] == rest[j];
      }
    }
  }

  /** A single candidate is accepted, tagged and finished, exactly when the catalog does not hold its reference. */
  lemma GenerateSingle(catalog: seq<Resource>, x: Resource, tags: set<string>)
    ensures !HasRef(catalog, Ref(x)) ==> Generate(catalog, [x], tags) == Generation([Finish(TagWith(x, tags))], [])
    ensures HasRef(catalog, Ref(x)) ==> Generate(catalog, [x], tags) == Generation([], [TagWith(x, tags)])
  {
    assert [x][1..] == [];
  }

  /** A candidate that collides with the catalog yields nothing. */
  lemma AllDuplicates(catalog: seq<Resource>, candidates: seq<Resource>, tags: set<string>)
    requires forall i :: 0 <= i < |candidates| ==> HasRef(catalog, Ref(candidates[i]))
    ensures Generate(catalog, candidates, tags).accepted == []
    ensures Generate(catalog, candidates, tags).duplicates ==
      seq(|candidates|, i requires 0 <= i < |candidates| => TagWith(candidates[i], tags))
    decreases |candidates|
  {
    if candidates != [] {
      AllDuplicates(catalog, candidates[1..], tags);
    }
  }
}
