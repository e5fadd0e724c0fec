/**
 * Whole runs put together from the operations' contracts: each method
 * builds fresh objects, drives them as a caller would, and states the
 * outcome the contracts guarantee.
 */
module Scenarios {
  import opened Wrappers
  import opened Resources
  import Tags
  import TransactionEngine
  import Checksums
  import TransactionRules

  function Notify(title: string): Resource {
    Resource("Notify", title, title, {}, false, true, [], None, false, false)
  }

  /** A harness that raises for the resource titled "a" and changes every other one. */
  function CrashOnA(r: Resource): Evaluation {
    if r.title == "a" then Raised("could not evaluate") else Evaluated(Status(Ref(r), [], None, false, true))
  }

  /** Evaluates "a" (whose evaluation raises) and then "b", with no tag filter. */
  method RunCrashingCatalog() returns (t: TransactionEngine.Transaction)
    ensures fresh(t.report) && t.Valid()
    ensures t.catalog.resources == [Notify("a"), Notify("b")]
    ensures t.report.resourceStatuses == map["Notify[b]" := Status("Notify[b]", [], None, false, true)]
  {
    var a, b := Notify("a"), Notify("b");
    assert Ref(a) == "Notify[a]" && Ref(b) == "Notify[b]";
    var catalog := new TransactionEngine.Catalog([a, b]);
    var settings := new TransactionEngine.Settings("");
    t := new TransactionEngine.Transaction(catalog, settings, CrashOnA, (r, m) => []);
    Tags.SplitTagsEmptyExample();
    NotifyRuns("a", map[]);
    var skippedA := t.EvalResource(a, 0);
    assert !skippedA && t.tagFilter == Some([]);
    assert t.report.resourceStatuses == TransactionRules.AfterApply(map[], Raised("could not evaluate")) == map[];
    assert t.catalog.resources == [a, b];
    NotifyRuns("b", map[]);
    var skippedB := t.EvalResource(b, 0);
    assert !skippedB;
    assert t.report.resourceStatuses == TransactionRules.AfterApply(map[], CrashOnA(b));
  }

  /** With no tag filter a notify resource is never skipped: it is scheduled, real and without dependencies. */
  lemma NotifyRuns(title: string, statuses: map<string, Status>)
    ensures !TransactionRules.Skip([], Notify(title), statuses)
  {
  }

  /**
   * A resource whose evaluation raises leaves no status behind, so it is
   * neither failed nor changed, and the run as a whole reports no failure.
   */
  method CrashIsNotFailure() returns (anyFailed: bool, statuses: map<string, Status>, changed: seq<Resource>)
    ensures !anyFailed
    ensures statuses == map["Notify[b]" := Status("Notify[b]", [], None, false, true)]
    ensures Notify("b") in changed && Notify("a") !in changed
  {
    var t := RunCrashingCatalog();
    assert Ref(Notify("a")) == "Notify[a]" && Ref(Notify("b")) == "Notify[b]";
    anyFailed := t.AnyFailed();
    statuses := t.report.resourceStatuses;
    changed := t.ChangedResources();
  }

  /**
   * A status stored with `add_resource_status` comes back from a lookup by
   * resource and by reference, and sits in the report; a lookup that
   * misses creates a fresh status.
   */
  method StatusLookup() returns (byResource: Status, byRef: Status, inReport: Status, missing: Status)
    ensures byResource == byRef == inReport == Status("Notify[foobar]", [], Some("boom"), false, false)
    ensures missing == FreshStatus("Notify[other]")
  {
    var r := Notify("foobar");
    assert Ref(r) == "Notify[foobar]";
    var s := Status("Notify[foobar]", [], Some("boom"), false, false);
    var catalog := new TransactionEngine.Catalog([r]);
    var settings := new TransactionEngine.Settings("");
    var t := new TransactionEngine.Transaction(catalog, settings, CrashOnA, (r, m) => []);
    t.AddResourceStatus(s);
    assert t.report.resourceStatuses == map["Notify[foobar]" := s];
    byResource := t.ResourceStatus(TransactionEngine.ByResource(r));
    assert t.report.resourceStatuses == map["Notify[foobar]" := s];
    byRef := t.ResourceStatus(TransactionEngine.ByRef("Notify[foobar]"));
    assert t.report.resourceStatuses == map["Notify[foobar]" := s];
    inReport := t.report.resourceStatuses["Notify[foobar]"];
    assert "Notify[other]" !in t.report.resourceStatuses;
    missing := t.ResourceStatus(TransactionEngine.ByRef("Notify[other]"));
  }

  /** A depth-first resource tagged "one", whose `eval_generate` makes the resource titled "c". */
  function Parent(): Resource {
    Resource("Exec", "p", "p", {"one"}, false, true, [], None, true, false)
  }

  function GenerateChild(r: Resource, methodName: string): seq<Resource> {
    if methodName == "eval_generate" && r.title == "p" then [Notify("c")] else []
  }

  /** A harness under which every resource changes. */
  function ChangeAll(r: Resource): Evaluation {
    Evaluated(Status(Ref(r), [], None, false, true))
  }

  /**
   * Evaluating a depth-first generator adds its new child to the catalog,
   * tagged with the generator's tags and finished, evaluates the child
   * (its events are processed), and applies the generator after its
   * child, so the generator's own status is stored.
   */
  method GeneratedChildFirst() returns (t: TransactionEngine.Transaction)
    ensures |t.catalog.resources| >= 2
    ensures t.catalog.resources[1] == Finish(TagWith(Notify("c"), {"one"}))
    ensures t.applied != [] && t.applied[|t.applied| - 1] == "Exec[p]"
    ensures "Notify[c]" in t.eventManager.processed
    ensures "Exec[p]" in t.report.resourceStatuses
    ensures t.report.resourceStatuses["Exec[p]"] == Status("Exec[p]", [], None, false, true)
  {
    var p, c := Parent(), Notify("c");
    assert Ref(p) == "Exec[p]" && Ref(c) == "Notify[c]";
    var catalog := new TransactionEngine.Catalog([p]);
    var settings := new TransactionEngine.Settings("");
    t := new TransactionEngine.Transaction(catalog, settings, ChangeAll, GenerateChild);
    Tags.SplitTagsEmptyExample();
    TransactionRules.HasRefSingle(p, Ref(c));
    TransactionRules.GenerateSingle([p], c, {"one"});
    assert t.EvalGeneration([p], p).accepted == [Finish(TagWith(c, {"one"}))];
    var skipped := t.EvalResource(p, 1);
    assert !skipped;
    assert TransactionEngine.AllProcessedSince([Finish(TagWith(c, {"one"}))], t.eventManager.processed, 0);
    assert Ref(Finish(TagWith(c, {"one"}))) == "Notify[c]";
  }

  /** Without an assignment the `:tags` setting is split, and read only once. */
  method TagsFromSetting() returns (first: seq<string>, second: seq<string>)
    ensures first == second == ["one", "two"]
  {
    var catalog := new TransactionEngine.Catalog([]);
    var settings := new TransactionEngine.Settings("one, two");
    var t := new TransactionEngine.Transaction(catalog, settings, CrashOnA, (r, m) => []);
    Tags.SplitTagsCommaSpaceExample();
    first := t.Tags();
    second := t.Tags();
    assert t.settingReads == 1;
  }

  /** An assigned string replaces the setting, which is then never read. */
  method AssignedTags() returns (tags: seq<string>)
    ensures tags == ["one::two"]
  {
    var catalog := new TransactionEngine.Catalog([]);
    var settings := new TransactionEngine.Settings("ignored");
    var t := new TransactionEngine.Transaction(catalog, settings, CrashOnA, (r, m) => []);
    Tags.SplitTagsQualifiedExample();
    t.SetTags(TransactionEngine.TagString("one::two"));
    tags := t.Tags();
    assert t.settingReads == 0;
  }

  /** A stand-in digest: only its being a function of algorithm and content matters here. */
  function StandInDigest(algorithm: string, content: string): string {
    algorithm + "/" + content
  }

  /**
   * The digest is computed once and then served from the cache; changing
   * the algorithm drops it, and the next call computes it again.
   */
  method ChecksumMemoised() returns (first: string, second: string, afterChange: string, text: string)
    ensures first == second == "md5/abc"
    ensures afterChange == "sha1/abc"
    ensures text == "Checksum<{sha1}sha1/abc>"
  {
    var created := Checksums.Checksum.Create(Some("abc"), None, {"md5", "sha1"}, StandInDigest);
    var c := created.value;
    assert StandInDigest("md5", "abc") == "md5/abc" && StandInDigest("sha1", "abc") == "sha1/abc";
    assert Checksums.Render("sha1", "sha1/abc") == "Checksum<{sha1}sha1/abc>";
    first := c.Checksum();
    second := c.Checksum();
    assert c.digestCalls == 1;
    var error := c.SetAlgorithm(Checksums.Text("sha1"));
    assert c.cached == None;
    afterChange := c.Name();
    assert c.digestCalls == 2;
    text := c.ToString();
    assert c.digestCalls == 2;
  }

  /** Construction refuses missing content before it looks at the algorithm. */
  method ChecksumRefusals() returns (noContent: ChecksumErrorOutcome, badAlgorithm: ChecksumErrorOutcome)
    ensures noContent == Some(Checksums.ContentMissing)
    ensures badAlgorithm == Some(Checksums.UnsupportedAlgorithm("nope"))
  {
    var r1 := Checksums.Checksum.Create(None, Some(Checksums.Symbol("nope")), {"md5"}, StandInDigest);
    noContent := if r1.Failure? then Some(r1.error) else None;
    var r2 := Checksums.Checksum.Create(Some("abc"), Some(Checksums.Symbol("nope")), {"md5"}, StandInDigest);
    badAlgorithm := if r2.Failure? then Some(r2.error) else None;
  }

  type ChecksumErrorOutcome = Option<Checksums.ChecksumError>
}
