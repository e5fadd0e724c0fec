/**
 * The transaction and the objects it owns or shares: the report that holds
 * the status store, the event manager, the resource harness, the catalog
 * and the global settings. Each is a class whose methods update its fields
 * in place; the decisions they take are the functions of TransactionRules.
 */
module TransactionEngine {
  import opened Wrappers
  import opened Resources
  import Tagging = Tags
  import TransactionRules

  /** The global configuration; the transaction reads only its `:tags` setting. */
  class Settings {
    var tags: string

    constructor (tags: string)
      ensures this.tags == tags
    {
      this.tags := tags;
    }
  }

  /** The catalog the transaction walks, its resources in graph order. */
  class Catalog {
    var resources: seq<Resource>

    constructor (resources: seq<Resource>)
      ensures this.resources == resources
    {
      this.resources := resources;
    }

    /**
     * `add_resource(resource) { |r| ... }`: a resource whose reference is
     * already present is a duplicate and is refused; otherwise the block
     * `onAdd` runs on it and the result is stored.
     */
    method AddResource(r: Resource, onAdd: Resource -> Resource) returns (added: bool)
      modifies this`resources
      ensures added <==> !TransactionRules.HasRef(old(resources), Ref(r))
      ensures resources == if added then old(resources) + [onAdd(r)] else old(resources)
    {
      added := true;
      for i := 0 to |resources|
        invariant added <==> forall k :: 0 <= k < i ==> Ref(resources[k]) != Ref(r)
      {
        if Ref(resources[i]) == Ref(r) {
          added := false;
        }
      }
      if added {
        resources := resources + [onAdd(r)];
      }
    }
  }

  /**
   * The report: the status store the transaction shares (a map from
   * reference to status, plus the order in which references were first
   * stored), the timings it was given and how often metrics were calculated.
   */
  class Report {
    var resourceStatuses: map<string, Status>
    var order: seq<string>
    var times: seq<(string, real)>
    var metricsCalculations: nat

    ghost predicate Valid()
      reads this
    {
      && (forall ref :: ref in resourceStatuses <==> ref in order)
      && (forall ref :: ref in resourceStatuses ==> resourceStatuses[ref].resourceRef == ref)
      && (forall i, j :: 0 <= i < j < |order| ==> order[i] != order[j])
    }

    constructor ()
      ensures Valid()
      ensures resourceStatuses == map[] && order == [] && times == [] && metricsCalculations == 0
    {
      resourceStatuses, order, times, metricsCalculations := map[], [], [], 0;
    }

    /** Stores the status under its own reference, replacing any earlier one. */
    method AddResourceStatus(s: Status)
      requires Valid()
      modifies this`resourceStatuses, this`order
      ensures Valid()
      ensures resourceStatuses == old(resourceStatuses)[s.resourceRef := s]
      ensures order == if s.resourceRef in old(resourceStatuses) then old(order) else old(order) + [s.resourceRef]
    {
      if s.resourceRef !in resourceStatuses {
        order := order + [s.resourceRef];
      }
      resourceStatuses := resourceStatuses[s.resourceRef := s];
    }

    method AddTimes(name: string, seconds: real)
      modifies this`times
      ensures times == old(times) + [(name, seconds)]
    {
      times := times + [(name, seconds)];
    }

    method CalculateMetrics()
      modifies this`metricsCalculations
      ensures metricsCalculations == old(metricsCalculations) + 1
    {
      metricsCalculations := metricsCalculations + 1;
    }
  }

  /** Records queued events and the resources whose events were processed. */
  class EventManager {
    var transaction: Transaction?
    var events: seq<TransactionRules.QueuedEvent>
    var processed: seq<string>

    constructor ()
      ensures transaction == null && events == [] && processed == []
    {
      transaction, events, processed := null, [], [];
    }

    /** `queue_event(resource, event)` */
    method QueueEvent(r: Resource, e: Event)
      modifies this`events
      ensures events == old(events) + [TransactionRules.QueuedEvent(Ref(r), e)]
    {
      events := events + [TransactionRules.QueuedEvent(Ref(r), e)];
    }

    /** `process_events(resource)`; delivery to subscribers is not part of this model. */
    method ProcessEvents(r: Resource)
      modifies this`processed
      ensures processed == old(processed) + [Ref(r)]
    {
      processed := processed + [Ref(r)];
    }
  }

  /** Applies one resource; what it does to the system is the opaque `evaluate`. */
  class ResourceHarness {
    var transaction: Transaction?
    const evaluate: Resource -> Evaluation

    constructor (evaluate: Resource -> Evaluation)
      ensures transaction == null && this.evaluate == evaluate
    {
      this.transaction := null;
      this.evaluate := evaluate;
    }
  }

  /** A lookup key: `resource_status` accepts a resource or its reference string. */
  datatype StatusKey = ByResource(resource: Resource) | ByRef(ref: string)

  function KeyRef(k: StatusKey): string {
    match k
    case ByResource(r) => Ref(r)
    case ByRef(ref) => ref
  }

  /** What `tags=` is given: a list of tags or one string. */
  datatype TagAssignment = TagList(list: seq<string>) | TagString(text: string)

  /** A string assignment is split on commas and trimmed; a list is kept as it is. */
  function AssignedTags(a: TagAssignment): (t: seq<string>)
    ensures a.TagList? ==> t == a.list
    ensures a.TagString? ==> t == Tagging.SplitTags(a.text)
  {
    match a
    case TagList(list) => list
    case TagString(text) => Tagging.SplitTags(text)
  }

  const DuplicateNotice := "Duplicate generated resource; skipping"

  /** The `info` lines logged for the candidates generation dropped as duplicates. */
  function DuplicateNotices(dups: seq<Resource>): (log: seq<LogEntry>)
    ensures |log| == |dups|
    ensures forall i :: 0 <= i < |dups| ==> log[i] == LogEntry(Info, Ref(dups[i]), DuplicateNotice)
  {
    if dups == [] then []
    else DuplicateNotices(dups[..|dups| - 1]) + [LogEntry(Info, Ref(dups[|dups| - 1]), DuplicateNotice)]
  }

  lemma DuplicateNoticesAppend(dups: seq<Resource>, d: Resource)
    ensures DuplicateNotices(dups + [d]) == DuplicateNotices(dups) + [LogEntry(Info, Ref(d), DuplicateNotice)]
  {
    assert (dups + [d])[..|dups|] == dups;
  }

  /** The line `apply` logs on the resource: the harness's error, when it raised. */
  function ApplyLog(r: Resource, e: Evaluation): seq<LogEntry> {
    if e.Raised? then [LogEntry(Err, Ref(r), e.message)] else []
  }

  /** The events `apply` queues: those of the returned status, in order. */
  function ApplyEvents(r: Resource, e: Evaluation): seq<TransactionRules.QueuedEvent> {
    if e.Evaluated? then TransactionRules.Queued(Ref(r), e.status.events) else []
  }

  lemma PrefixTrans<T>(a: seq<T>, b: seq<T>, c: seq<T>)
    requires a <= b && b <= c
    ensures a <= c
  {
  }

  /** Every one of the resources was processed at or after position `n` of the processed list. */
  predicate AllProcessedSince(rs: seq<Resource>, processed: seq<string>, n: nat) {
    n <= |processed| && forall k :: 0 <= k < |rs| ==> Ref(rs[k]) in processed[n..]
  }

  /** Processing more resources keeps the earlier ones processed. */
  lemma AllProcessedGrows(rs: seq<Resource>, a: seq<string>, b: seq<string>, n: nat)
    requires AllProcessedSince(rs, a, n) && a <= b
    ensures AllProcessedSince(rs, b, n)
  {
    forall k | 0 <= k < |rs|
      ensures Ref(rs[k]) in b[n..]
    {
      var j :| 0 <= j < |a[n..]| && a[n..][j] == Ref(rs[k]);
      assert b[n..][j] == a[n..][j];
    }
  }

  /** After one more resource is processed last, the first `i + 1` resources are processed. */
  lemma ProcessedOneMore(rs: seq<Resource>, i: nat, a: seq<string>, b: seq<string>, n: nat)
    requires i < |rs| && AllProcessedSince(rs[..i], a, n) && a <= b && |a| < |b| && b[|b| - 1] == Ref(rs[i])
    ensures AllProcessedSince(rs[..i + 1], b, n)
  {
    AllProcessedGrows(rs[..i], a, b, n);
    assert b[n..][|b| - 1 - n] == Ref(rs[i]);
    var done, before := rs[..i + 1], rs[..i];
    forall k | 0 <= k < |done|
      ensures Ref(done[k]) in b[n..]
    {
      if k < i {
        assert done[k] == before[k];
      }
    }
  }

  class Transaction {
    const catalog: Catalog
    const report: Report
    const eventManager: EventManager
    const resourceHarness: ResourceHarness
    const settings: Settings
    /** The resources a generator resource makes with a named method (`eval_generate`, `generate`). */
    const generate: (Resource, string) -> seq<Resource>

    /** The tag filter: None until it is read from the setting or assigned. */
    var tagFilter: Option<seq<string>>
    /** Lines logged on resources' `err` and `info` channels. */
    var log: seq<LogEntry>
    /** How many times the `:tags` setting was read. */
    ghost var settingReads: nat
    /** The references of the resources handed to `apply`, in the order it was called. */
    ghost var applied: seq<string>

    ghost predicate Valid()
      reads report, eventManager, resourceHarness
    {
      report.Valid() && eventManager.transaction == this && resourceHarness.transaction == this
    }

    /** The tag filter as the next read of `tags` will give it. */
    ghost function EffectiveTags(): seq<string>
      reads this, settings
    {
      if tagFilter.Some? then tagFilter.value else Tagging.SplitTags(settings.tags)
    }

    /** A new transaction over a catalog: it creates its own report, event manager and harness, each pointing back to it. */
    constructor (catalog: Catalog, settings: Settings,
                 evaluate: Resource -> Evaluation, generate: (Resource, string) -> seq<Resource>)
      ensures Valid()
      ensures fresh(report) && fresh(eventManager) && fresh(resourceHarness)
      ensures this.catalog == catalog && this.settings == settings && this.generate == generate
      ensures resourceHarness.evaluate == evaluate
      ensures report.resourceStatuses == map[] && report.times == [] && report.metricsCalculations == 0
      ensures eventManager.events == [] && eventManager.processed == []
      ensures tagFilter == None && log == [] && settingReads == 0 && applied == []
    {
      this.catalog := catalog;
      this.settings := settings;
      this.generate := generate;
      report := new Report();
      eventManager := new EventManager();
      resourceHarness := new ResourceHarness(evaluate);
      tagFilter := None;
      log := [];
      settingReads := 0;
      applied := [];
      new;
      eventManager.transaction := this;
      resourceHarness.transaction := this;
    }

    // ------------------------------------------------------- status store

    /** The stored status for a reference, without creating one. */
    function StatusOf(ref: string): (s: Option<Status>)
      reads report
      ensures s.Some? <==> ref in report.resourceStatuses
      ensures s.Some? ==> s.value == report.resourceStatuses[ref]
    {
      if ref in report.resourceStatuses then Some(report.resourceStatuses[ref]) else None
    }

    /** `add_resource_status(status)`: stored in the report, under the status's own reference. */
    method AddResourceStatus(s: Status)
      requires Valid()
      modifies report`resourceStatuses, report`order
      ensures Valid()
      ensures report.resourceStatuses == old(report.resourceStatuses)[s.resourceRef := s]
      ensures report.order ==
        if s.resourceRef in old(report.resourceStatuses) then old(report.order) else old(report.order) + [s.resourceRef]
      ensures StatusOf(s.resourceRef) == Some(s)
    {
      report.AddResourceStatus(s);
    }

    /**
     * `resource_status(resource_or_ref)`: the stored status; on a miss a
     * fresh status is created, stored and returned.
     */
    method ResourceStatus(k: StatusKey) returns (s: Status)
      requires Valid()
      modifies report`resourceStatuses, report`order
      ensures Valid()
      ensures KeyRef(k) in old(report.resourceStatuses) ==>
        && s == old(report.resourceStatuses)[KeyRef(k)]
        && report.resourceStatuses == old(report.resourceStatuses) && report.order == old(report.order)
      ensures KeyRef(k) !in old(report.resourceStatuses) ==>
        && s == FreshStatus(KeyRef(k))
        && report.resourceStatuses == old(report.resourceStatuses)[KeyRef(k) := s]
        && report.order == old(report.order) + [KeyRef(k)]
    {
      var ref := KeyRef(k);
      if ref in report.resourceStatuses {
        s := report.resourceStatuses[ref];
      } else {
        s := FreshStatus(ref);
        report.AddResourceStatus(s);
      }
    }

    // ------------------------------------------------------------ queries

    /** `failed?(resource)` */
    function IsFailed(r: Resource): (b: bool)
      reads report
      ensures b <==> StatusOf(Ref(r)).Some? && StatusOf(Ref(r)).value.Failed()
    {
      TransactionRules.Failed(report.resourceStatuses, Ref(r))
    }

    /** `any_failed?`: some stored status is failed; never for an empty store. */
    function AnyFailed(): (b: bool)
      requires Valid()
      reads report, eventManager, resourceHarness
      ensures b <==> exists ref :: TransactionRules.Failed(report.resourceStatuses, ref)
      ensures report.resourceStatuses == map[] ==> !b
    {
      TransactionRules.AnyFailedIff(report.order, report.resourceStatuses);
      TransactionRules.AnyFailed(report.order, report.resourceStatuses)
    }

    /** `changed?`: exactly the catalog's resources whose stored status says they changed. */
    function ChangedResources(): (rs: seq<Resource>)
      reads catalog, report
      ensures forall x :: x in rs <==>
        x in catalog.resources && Ref(x) in report.resourceStatuses && report.resourceStatuses[Ref(x)].changed
    {
      TransactionRules.Changed(catalog.resources, report.resourceStatuses)
    }

    /** `events`, delegated to the event manager. */
    function Events(): (es: seq<TransactionRules.QueuedEvent>)
      reads eventManager
      ensures es == eventManager.events
    {
      eventManager.events
    }

    /** `add_times(name => seconds, ...)`: one report `add_times` call per entry, in order. */
    method AddTimes(entries: seq<(string, real)>)
      modifies report`times
      ensures report.times == old(report.times) + entries
    {
      for i := 0 to |entries|
        invariant report.times == old(report.times) + entries[..i]
      {
        report.AddTimes(entries[i].0, entries[i].1);
        assert entries[..i + 1] == entries[..i] + [entries[i]];
      }
      assert entries[..|entries|] == entries;
    }

    /** `generate_report`: calculates the metrics and returns the very same report. */
    method GenerateReport() returns (r: Report)
      modifies report`metricsCalculations
      ensures r == report
      ensures report.metricsCalculations == old(report.metricsCalculations) + 1
    {
      report.CalculateMetrics();
      r := report;
    }

    // --------------------------------------------------------------- tags

    /** `tags`: the assigned filter, or on first read the `:tags` setting split on commas. */
    method Tags() returns (t: seq<string>)
      modifies this`tagFilter, this`settingReads
      ensures tagFilter == Some(t) && t == old(EffectiveTags())
      ensures old(tagFilter).Some? ==> t == old(tagFilter).value && settingReads == old(settingReads)
      ensures old(tagFilter).None? ==> t == Tagging.SplitTags(settings.tags) && settingReads == old(settingReads) + 1
    {
      if tagFilter.None? {
        tagFilter := Some(Tagging.SplitTags(settings.tags));
        settingReads := settingReads + 1;
      }
      t := tagFilter.value;
    }

    /** `tags=`: overrides the setting, which is then never read. */
    method SetTags(a: TagAssignment)
      modifies this`tagFilter
      ensures tagFilter == Some(AssignedTags(a))
    {
      tagFilter := Some(AssignedTags(a));
    }

    // ------------------------------------------------------- skip policy

    /** `missing_tags?(resource)` */
    method MissingTags(r: Resource) returns (b: bool)
      modifies this`tagFilter, this`settingReads
      ensures tagFilter == Some(old(EffectiveTags()))
      ensures settingReads == old(settingReads) + (if old(tagFilter).None? then 1 else 0)
      ensures b == TransactionRules.MissingTags(tagFilter.value, r)
    {
      var filter := Tags();
      b := |filter| > 0 && !TaggedWithAny(r, filter);
    }

    /** `skip?(resource)`: missing tags, not scheduled, failed dependencies or virtual. */
    method Skip(r: Resource) returns (b: bool)
      modifies this`tagFilter, this`settingReads
      ensures tagFilter == Some(old(EffectiveTags()))
      ensures settingReads == old(settingReads) + (if old(tagFilter).None? then 1 else 0)
      ensures b == TransactionRules.Skip(tagFilter.value, r, report.resourceStatuses)
    {
      var missing := MissingTags(r);
      b := missing || !r.scheduled
        || TransactionRules.FailedDependencies(r, report.resourceStatuses) || r.virtual;
    }

    // ---------------------------------------------------------- applying

    /**
     * `apply(resource)`: the harness's status is stored and each of its
     * events is queued in order; if the harness raises, the error goes to
     * the resource's `err` channel and NO status is stored.
     */
    method Apply(r: Resource)
      requires Valid()
      modifies this`log, this`applied, report`resourceStatuses, report`order, eventManager`events
      ensures Valid()
      ensures applied == old(applied) + [Ref(r)] && AppliedAlone(r, old(log))
      ensures report.resourceStatuses ==
        TransactionRules.AfterApply(old(report.resourceStatuses), resourceHarness.evaluate(r))
      ensures resourceHarness.evaluate(r).Evaluated? ==>
        && eventManager.events == old(eventManager.events)
             + TransactionRules.Queued(Ref(r), resourceHarness.evaluate(r).status.events)
        && log == old(log)
      ensures resourceHarness.evaluate(r).Raised? ==>
        && eventManager.events == old(eventManager.events)
        && log == old(log) + [LogEntry(Err, Ref(r), resourceHarness.evaluate(r).message)]
    {
      applied := applied + [Ref(r)];
      var outcome := resourceHarness.evaluate(r);
      match outcome {
        case Evaluated(status) =>
          report.AddResourceStatus(status);
          var events := status.events;
          for i := 0 to |events|
            modifies eventManager`events
            invariant eventManager.events == old(eventManager.events) + TransactionRules.Queued(Ref(r), events[..i])
          {
            eventManager.QueueEvent(r, events[i]);
            assert events[..i + 1] == events[..i] + [events[i]];
          }
          assert events[..|events|] == events;
        case Raised(message) =>
          log := log + [LogEntry(Err, Ref(r), message)];
      }
    }

    /**
     * `generate_additional_resources(generator, method)`: each candidate is
     * tagged with the generator's tags and added to the catalog, which
     * finishes it; a duplicate is logged at info level and dropped.
     */
    method GenerateAdditionalResources(generator: Resource, methodName: string) returns (made: seq<Resource>)
      modifies this`log, catalog`resources
      ensures made == TransactionRules.Generate(old(catalog.resources), generate(generator, methodName), generator.tags).accepted
      ensures catalog.resources == old(catalog.resources) + made
      ensures log == old(log) + DuplicateNotices(
        TransactionRules.Generate(old(catalog.resources), generate(generator, methodName), generator.tags).duplicates)
    {
      var candidates := generate(generator, methodName);
      ghost var start := catalog.resources;
      ghost var whole := TransactionRules.Generate(start, candidates, generator.tags);
      made := [];
      var dups: seq<Resource> := [];
      for i := 0 to |candidates|
        invariant catalog.resources == start + made
        invariant log == old(log)
        invariant whole.accepted == made + TransactionRules.Generate(start + made, candidates[i..], generator.tags).accepted
        invariant whole.duplicates == dups + TransactionRules.Generate(start + made, candidates[i..], generator.tags).duplicates
      {
        var c := TagWith(candidates[i], generator.tags);
        assert candidates[i..][0] == candidates[i] && candidates[i..][1..] == candidates[i + 1..];
        var added := catalog.AddResource(c, Finish);
        if added {
          TransactionRules.GenerateAcceptStep(start, made, candidates[i..], generator.tags, whole);
          made := made + [Finish(c)];
        } else {
          TransactionRules.GenerateRejectStep(start + made, dups, candidates[i..], generator.tags, whole);
          dups := dups + [c];
        }
      }
      assert candidates[|candidates|..] == [];
      assert whole.accepted == made + [] == made;
      assert whole.duplicates == dups + [] == dups;
      LogDuplicates(dups);
    }

    /** One `info` line per dropped duplicate, in the order they were met. */
    method LogDuplicates(dups: seq<Resource>)
      modifies this`log
      ensures log == old(log) + DuplicateNotices(dups)
    {
      for j := 0 to |dups|
        invariant log == old(log) + DuplicateNotices(dups[..j])
      {
        log := log + [LogEntry(Info, Ref(dups[j]), DuplicateNotice)];
        DuplicateNoticesAppend(dups[..j], dups[j]);
        assert dups[..j + 1] == dups[..j] + [dups[j]];
      }
      assert dups[..|dups|] == dups;
    }

    /**
     * `prefetch`: for each provider that prefetches, the map from resource
     * NAME to resource it is handed (later resources win a shared name).
     */
    method Prefetch() returns (groups: map<string, map<string, Resource>>)
      ensures groups == TransactionRules.PrefetchGroups(catalog.resources)
    {
      var rs := catalog.resources;
      groups := map[];
      for i := 0 to |rs|
        invariant groups == TransactionRules.PrefetchGroups(rs[..i])
      {
        assert rs[..i + 1][..i] == rs[..i];
        var r := rs[i];
        if r.provider.Some? && r.provider.value.prefetches {
          var p := r.provider.value.name;
          var group := if p in groups then groups[p] else map[];
          groups := groups[p := group[r.name := r]];
        }
      }
      assert rs[..|rs|] == rs;
    }

    // ---------------------------------------------------------- evaluating

    /** What `generate_additional_resources(r, :eval_generate)` decides over the given catalog resources. */
    function EvalGeneration(resources: seq<Resource>, r: Resource): TransactionRules.Generation {
      TransactionRules.Generate(resources, generate(r, "eval_generate"), r.tags)
    }

    /** Evaluation only ever adds: to the apply trace, the log, the catalog, the processed list and the stored references. */
    twostate predicate Extends()
      reads this, catalog, report, eventManager
    {
      && old(applied) <= applied
      && old(log) <= log
      && old(catalog.resources) <= catalog.resources
      && old(eventManager.processed) <= eventManager.processed
      && old(report.resourceStatuses).Keys <= report.resourceStatuses.Keys
    }

    /**
     * The resource was applied and nothing else was evaluated: the store
     * and the queued events are what one `apply` makes of them, the log is
     * `logBefore` followed by what `apply` logs, and the catalog is unchanged.
     */
    twostate predicate AppliedAlone(r: Resource, logBefore: seq<LogEntry>)
      reads this`log, this`applied, catalog`resources, report`resourceStatuses, eventManager`events
    {
      && report.resourceStatuses == TransactionRules.AfterApply(old(report.resourceStatuses), resourceHarness.evaluate(r))
      && eventManager.events == old(eventManager.events) + ApplyEvents(r, resourceHarness.evaluate(r))
      && log == logBefore + ApplyLog(r, resourceHarness.evaluate(r))
      && applied == old(applied) + [Ref(r)]
      && catalog.resources == old(catalog.resources)
    }

    /**
     * The resource was applied after everything else evaluated since the
     * old state when it is depth-first, so its returned status is the one
     * stored; otherwise it was applied first. Either way its returned
     * status's reference is stored.
     */
    twostate predicate AppliedInOrder(r: Resource)
      reads this`applied, report`resourceStatuses
    {
      && (r.depthfirst ==> old(applied) < applied && applied[|applied| - 1] == Ref(r))
      && (!r.depthfirst ==> old(applied) + [Ref(r)] <= applied)
      && (resourceHarness.evaluate(r).Evaluated? ==>
            resourceHarness.evaluate(r).status.resourceRef in report.resourceStatuses)
      && (r.depthfirst && resourceHarness.evaluate(r).Evaluated? ==>
            report.resourceStatuses[resourceHarness.evaluate(r).status.resourceRef] == resourceHarness.evaluate(r).status)
    }

    /**
     * The catalog grew first by the children generation accepted and the
     * log first by its duplicate notices; with no child accepted the
     * resource was applied alone.
     */
    twostate predicate GeneratedFirst(r: Resource)
      reads this`log, this`applied, catalog`resources, report`resourceStatuses, eventManager`events
    {
      && old(catalog.resources) + EvalGeneration(old(catalog.resources), r).accepted <= catalog.resources
      && old(log) + DuplicateNotices(EvalGeneration(old(catalog.resources), r).duplicates) <= log
      && (EvalGeneration(old(catalog.resources), r).accepted == [] ==>
            AppliedAlone(r, old(log) + DuplicateNotices(EvalGeneration(old(catalog.resources), r).duplicates)))
    }

    /** `resource_status(resource).skipped = true`: the existing or a fresh status is stored marked skipped. */
    method MarkSkipped(r: Resource)
      requires Valid()
      modifies report`resourceStatuses, report`order
      ensures Valid()
      ensures report.resourceStatuses == old(report.resourceStatuses)[Ref(r) :=
        TransactionRules.MarkedSkipped(old(report.resourceStatuses), Ref(r))]
    {
      var s := ResourceStatus(ByResource(r));
      report.AddResourceStatus(s.(skipped := true));
    }

    /**
     * `eval_resource(resource)`: a skipped resource gets its status marked
     * skipped, any other is applied with its children; either way its
     * events are processed afterwards.
     */
    method EvalResource(r: Resource, fuel: nat) returns (skipped: bool)
      requires Valid()
      modifies this`tagFilter, this`settingReads, this`log, this`applied, catalog`resources
      modifies report`resourceStatuses, report`order, eventManager`events, eventManager`processed
      ensures Valid() && Extends()
      ensures tagFilter == Some(old(EffectiveTags()))
      ensures skipped == TransactionRules.Skip(tagFilter.value, r, old(report.resourceStatuses))
      ensures old(eventManager.processed) < eventManager.processed
      ensures eventManager.processed[|eventManager.processed| - 1] == Ref(r)
      ensures skipped ==>
        && report.resourceStatuses == old(report.resourceStatuses)[Ref(r) :=
             TransactionRules.MarkedSkipped(old(report.resourceStatuses), Ref(r))]
        && eventManager.events == old(eventManager.events)
        && catalog.resources == old(catalog.resources)
        && log == old(log) && applied == old(applied)
      ensures !skipped && fuel == 0 ==> AppliedAlone(r, old(log))
      ensures !skipped && fuel > 0 ==> GeneratedFirst(r)
      ensures !skipped && fuel > 0 ==> AllProcessedSince(EvalGeneration(old(catalog.resources), r).accepted,
                                                         eventManager.processed, |old(eventManager.processed)|)
      ensures !skipped ==> AppliedInOrder(r)
      decreases fuel, 4
    {
      skipped := Skip(r);
      assert unchanged(catalog, report, eventManager) && log == old(log) && applied == old(applied);
      if skipped {
        MarkSkipped(r);
        eventManager.ProcessEvents(r);
      } else {
        EvalChildrenAndApplyResource(r, fuel);
        ghost var evaluated := eventManager.processed;
        eventManager.ProcessEvents(r);
        if fuel > 0 {
          AllProcessedGrows(EvalGeneration(old(catalog.resources), r).accepted,
                            evaluated, eventManager.processed, |old(eventManager.processed)|);
        }
      }
    }

    /**
     * `eval_children_and_apply_resource(resource)`: the resource's
     * `eval_generate` children (while fuel lasts) are added to the catalog
     * and evaluated before the resource is applied when it is depth-first,
     * after it otherwise.
     */
    method EvalChildrenAndApplyResource(r: Resource, fuel: nat)
      requires Valid() && tagFilter.Some?
      modifies this`tagFilter, this`settingReads, this`log, this`applied, catalog`resources
      modifies report`resourceStatuses, report`order, eventManager`events, eventManager`processed
      ensures Valid() && tagFilter == old(tagFilter) && Extends() && AppliedInOrder(r)
      ensures fuel == 0 ==> AppliedAlone(r, old(log)) && eventManager.processed == old(eventManager.processed)
      ensures fuel > 0 ==> GeneratedFirst(r)
      ensures fuel > 0 && EvalGeneration(old(catalog.resources), r).accepted == [] ==>
        eventManager.processed == old(eventManager.processed)
      ensures fuel > 0 ==> AllProcessedSince(EvalGeneration(old(catalog.resources), r).accepted,
                                             eventManager.processed, |old(eventManager.processed)|)
      decreases fuel, 3
    {
      if fuel == 0 {
        Apply(r);
      } else {
        GenerateAndApply(r, fuel);
      }
    }

    /** With fuel left: generate the children, then evaluate them and apply the resource in order. */
    method GenerateAndApply(r: Resource, fuel: nat)
      requires Valid() && tagFilter.Some? && fuel > 0
      modifies this`tagFilter, this`settingReads, this`log, this`applied, catalog`resources
      modifies report`resourceStatuses, report`order, eventManager`events, eventManager`processed
      ensures Valid() && tagFilter == old(tagFilter) && Extends() && AppliedInOrder(r) && GeneratedFirst(r)
      ensures EvalGeneration(old(catalog.resources), r).accepted == [] ==>
        eventManager.processed == old(eventManager.processed)
      ensures AllProcessedSince(EvalGeneration(old(catalog.resources), r).accepted,
                                eventManager.processed, |old(eventManager.processed)|)
      decreases fuel, 2
    {
      ghost var gen := EvalGeneration(catalog.resources, r);
      var children := GenerateAdditionalResources(r, "eval_generate");
      ghost var log1, resources1 := log, catalog.resources;
      assert children == gen.accepted && resources1 == old(catalog.resources) + gen.accepted;
      assert log1 == old(log) + DuplicateNotices(gen.duplicates);
      assert unchanged(report, eventManager) && applied == old(applied);
      ApplyWithChildren(r, children, fuel);
      PrefixTrans(old(log), log1, log);
      PrefixTrans(old(catalog.resources), resources1, catalog.resources);
    }

    /**
     * The ordering step of `eval_children_and_apply_resource`: the children
     * are evaluated before the resource is applied when it is depth-first,
     * after it otherwise; with no children it is a plain apply.
     */
    method ApplyWithChildren(r: Resource, children: seq<Resource>, fuel: nat)
      requires Valid() && tagFilter.Some? && fuel > 0
      modifies this`tagFilter, this`settingReads, this`log, this`applied, catalog`resources
      modifies report`resourceStatuses, report`order, eventManager`events, eventManager`processed
      ensures Valid() && tagFilter == old(tagFilter) && Extends() && AppliedInOrder(r)
      ensures children == [] ==> AppliedAlone(r, old(log)) && eventManager.processed == old(eventManager.processed)
      ensures AllProcessedSince(children, eventManager.processed, |old(eventManager.processed)|)
      decreases fuel, 1
    {
      if r.depthfirst {
        EvalChildren(children, fuel);
        Apply(r);
      } else {
        Apply(r);
        EvalChildren(children, fuel);
      }
    }

    /** Evaluates generated children in order, one generation level deeper. */
    method EvalChildren(children: seq<Resource>, fuel: nat)
      requires Valid() && tagFilter.Some? && fuel > 0
      modifies this`tagFilter, this`settingReads, this`log, this`applied, catalog`resources
      modifies report`resourceStatuses, report`order, eventManager`events, eventManager`processed
      ensures Valid() && tagFilter == old(tagFilter) && Extends()
      ensures AllProcessedSince(children, eventManager.processed, |old(eventManager.processed)|)
      ensures children == [] ==> unchanged(this, catalog, report, eventManager)
      decreases fuel, 0
    {
      for i := 0 to |children|
        invariant Valid() && tagFilter == old(tagFilter) && Extends()
        invariant AllProcessedSince(children[..i], eventManager.processed, |old(eventManager.processed)|)
        invariant i == 0 ==> unchanged(this, catalog, report, eventManager)
      {
        ghost var before := eventManager.processed;
        var _ := EvalResource(children[i], fuel - 1);
        ProcessedOneMore(children, i, before, eventManager.processed, |old(eventManager.processed)|);
      }
      assert children[..|children|] == children;
    }
  }
}
