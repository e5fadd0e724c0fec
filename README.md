# Puppet transaction bookkeeping and checksums, in Dafny

This project models two parts of Puppet.

**The transaction** (`Puppet::Transaction`) walks a catalog of resources and
evaluates each one. It keeps:

- a status store, shared with its report, mapping each resource reference
  (`File[/my/file]`) to the status its evaluation produced;
- a tag filter, taken from the `:tags` setting unless it is assigned;
- the events it queued with its event manager;
- the resources it generated on the fly.

It decides whether to skip a resource because tags are missing, it is not
scheduled, a dependency failed, or it is virtual. It applies a resource
through its resource harness. It answers `failed?`, `any_failed?` and
`changed?` from the status store. It groups resources by provider and
resource *name* for prefetching.

The implementation file `lib/puppet/transaction.rb` is not part of this
model. The transaction is modelled from the behaviour its unit tests
(`spec/unit/transaction.rb`) pin down, and the table cites those tests.

**The checksum** (`Puppet::Checksum`) is a content string plus the name of a
digest algorithm. The digest is computed on first use, kept, and dropped
when the algorithm changes.

The project is organised in modules:

- `Wrappers`: `Option` and `Result`.
- `Tags`: the comma splitting of tag strings. It is pure and proved against
  a join, so the split undoes the join.
- `Resources`: the value types (resource, status, event, evaluation, log
  line).
- `TransactionRules`: the transaction's queries and decision rules, as
  functions of the status store and the catalog, with lemmas about them.
- `TransactionEngine`: the stateful objects, as classes whose methods
  update fields in place. These are `Settings`, `Catalog`, `Report`,
  `EventManager`, `ResourceHarness` and `Transaction`. The methods that
  decide or compute (the status store, `skip?`, `apply`, generation,
  prefetch) are proved against the `TransactionRules` function that
  specifies them. `tags` and `tags=` are specified through `Tags.SplitTags`.
  The plain recorders (`add_times`, `generate_report`, `queue_event`,
  `process_events`) state their new state directly. Evaluation with
  generated children is stated through four kinds of fact. The first is
  the order of the `apply` calls, recorded in a ghost trace. The second
  is what the catalog and the log grow by. The third is that every
  accepted child has its events processed. The fourth is the resource's
  own stored status. The children's full effect on the store is not
  stated.
- `Checksums`: the `Checksum` class, its constructor with both error paths,
  and the `to_s` rendering with a proof that it is unambiguous.
- `Scenarios`: whole runs built on fresh objects, stating what the
  contracts guarantee. Examples are a resource whose evaluation raises and
  is therefore neither failed nor changed, a setting read only once, and a
  digest computed only once.

The following are parameters of the model:

- The resource harness's `evaluate` is a function-valued constant of the
  harness. It returns a status or the error it raised.
- A generator's `generate`/`eval_generate` is a function-valued constant
  of the transaction.
- The digest functions are a function-valued constant of the checksum.
- The set of method names a checksum answers to (`respond_to?`) is a
  constant of the checksum.

## Model

| member | source | states |
|---|---|---|
| TransactionEngine.Transaction.constructor | spec/unit/transaction.rb:90-101 | a new transaction owns a fresh event manager and resource harness whose `transaction` is the transaction itself, and an empty status store |
| TransactionEngine.Transaction.AddResourceStatus | spec/unit/transaction.rb:26-31 | the status is stored under its own reference, so looking that reference up gives back exactly that status; a new reference is appended to the store's insertion order, a known one leaves it alone |
| TransactionEngine.Transaction.ResourceStatus | spec/unit/transaction.rb:33-44 | a lookup by resource or by reference string returns the stored status and changes neither the store nor its insertion order; on a miss it stores and returns a fresh (unfailed, unskipped, unchanged) status and appends its reference to the order |
| TransactionEngine.Report.AddResourceStatus | spec/unit/transaction.rb:46-51 | the report's `resource_statuses[ref]` is the added status, and the report's insertion order and key set stay consistent |
| TransactionEngine.Transaction.StatusOf | spec/unit/transaction.rb:46-51 | the lookup that does not create: present exactly when the reference is stored, and then that status |
| TransactionEngine.Transaction.IsFailed | spec/unit/transaction.rb:58-71 | `failed?(r)` holds exactly when a status is stored for `r` and its failure is set |
| TransactionRules.FirstFailed | spec/unit/transaction.rb:73-86 | the first failed status in the store's insertion order, or none exactly when no stored status has failed |
| TransactionRules.AnyFailedIff | spec/unit/transaction.rb:73-86 | `any_failed?` holds if and only if some stored status is failed; an empty store never has failures |
| TransactionEngine.Transaction.AnyFailed | spec/unit/transaction.rb:73-86 | `any_failed?` on the transaction's own store holds iff some stored status is failed, and is false for an empty store |
| TransactionRules.Changed | spec/unit/transaction.rb:281-296 | `changed?` holds exactly the catalog resources whose stored status has `changed` set, and never more resources than the catalog |
| TransactionRules.ChangedAppend | spec/unit/transaction.rb:281-296 | the model's `changed?` keeps catalog order: over a catalog made of two parts it gives the first part's changed resources followed by the second's |
| TransactionEngine.Transaction.Events | spec/unit/transaction.rb:12-16 | the transaction's event list is exactly its event manager's |
| TransactionEngine.Transaction.ChangedResources | spec/unit/transaction.rb:281-296 | a resource is in the result if and only if it is in the catalog and its stored status says it changed |
| TransactionEngine.Transaction.AddTimes | spec/unit/transaction.rb:18-24 | one report `add_times(name, seconds)` call per given entry, in order, and nothing else |
| TransactionEngine.Report.AddTimes | spec/unit/transaction.rb:18-24 | the report records exactly the one timing it is given |
| TransactionEngine.Transaction.GenerateReport | spec/unit/transaction.rb:53-56 | metrics are calculated once and the result is the transaction's own report object |
| TransactionEngine.Transaction.Tags | spec/unit/transaction.rb:305-319 | with no assignment the `:tags` setting is read once and split; later reads and reads after an assignment return the filter without reading the setting |
| TransactionEngine.Transaction.SetTags | spec/unit/transaction.rb:315-334 | after `tags=` the filter is the assigned list, or the assigned string split on commas |
| TransactionEngine.AssignedTags | spec/unit/transaction.rb:315-334 | a list is kept as it is; a string becomes the list its comma split gives |
| Tags.Trim | spec/unit/transaction.rb:326-329 | the result has no whitespace at either end, is no longer than the input, leaves an already-trimmed string alone, and adds no comma |
| Tags.TrimLeft | spec/unit/transaction.rb:326-329 | the result is the suffix left after a prefix made only of whitespace, and it does not start with whitespace |
| Tags.TrimRight | spec/unit/transaction.rb:326-329 | the result is the prefix left before a suffix made only of whitespace, and it does not end with whitespace |
| Tags.TrimPadded | spec/unit/transaction.rb:326-329 | trimming whitespace-padded text gives back exactly the trimmed core |
| Tags.Fields | spec/unit/transaction.rb:310-313 | splitting on every comma gives at least one field, and no field contains a comma |
| Tags.JoinFields | spec/unit/transaction.rb:310-313 | joining the comma fields back with "," reproduces the string (the split loses nothing) |
| Tags.FieldsOfJoin | spec/unit/transaction.rb:310-313 | splitting comma-free pieces joined with "," gives back the pieces |
| Tags.DropTrailingEmpty | spec/unit/transaction.rb:331-334 | the result is a prefix of the fields that does not end in an empty field, and every dropped field is empty |
| Tags.SplitTags | spec/unit/transaction.rb:305-334 | every tag is trimmed and comma-free, the last tag is non-empty, and there are no more tags than comma fields |
| Tags.SplitTagsOfPadded | spec/unit/transaction.rb:326-329 | splitting comma-joined pieces gives each piece trimmed, provided the last one is not blank |
| Tags.SplitTagsJoin | spec/unit/transaction.rb:305-334 | a list of clean tags joined with "," or with ", " splits back into the same list (the split undoes the join) |
| Tags.SplitTagsSingleExample | spec/unit/transaction.rb:305-308 | "one" splits to ["one"] |
| Tags.SplitTagsCommaExample | spec/unit/transaction.rb:310-313 | "one,two" splits to ["one", "two"] |
| Tags.SplitTagsQualifiedExample | spec/unit/transaction.rb:321-324 | "one::two" stays one tag, ["one::two"] |
| Tags.SplitTagsCommaSpaceExample | spec/unit/transaction.rb:326-329 | "one, two" splits to ["one", "two"], trimmed |
| Tags.SplitTagsEmptyExample | spec/unit/transaction.rb:331-334 | "" splits to no tags at all |
| TransactionRules.TaggedIsNotMissing | spec/unit/transaction.rb:240-248 | a resource tagged with any one of the filter's tags is not missing tags, and an empty filter never misses |
| TransactionEngine.Transaction.MissingTags | spec/unit/transaction.rb:235-248 | `missing_tags?` reads the tag filter (the setting at most once) and holds when a non-empty filter is active and the resource carries none of its tags |
| TransactionEngine.Transaction.Skip | spec/unit/transaction.rb:228-264 | `skip?` holds exactly when tags are missing, the resource is not scheduled, a dependency has failed, or it is virtual |
| TransactionEngine.Transaction.EvalResource | spec/unit/transaction.rb:104-141 | a skipped resource gets its existing or fresh status marked skipped and nothing is applied. Otherwise it is applied. With no fuel or no accepted child, the store, events and log are exactly those of one `apply` (after any duplicate notices) and the catalog is unchanged. With children, the catalog and log grow first by what generation accepted and logged. Every child that generation accepted has its events processed. A depth-first resource is applied last, otherwise first. In both cases the last resource whose events were processed is this one |
| TransactionEngine.Transaction.MarkSkipped | spec/unit/transaction.rb:131-140 | the stored status for the resource becomes its existing or fresh status with `skipped` set, and nothing else is stored |
| TransactionRules.MarkedSkipped | spec/unit/transaction.rb:131-140 | the status a skipped resource ends with is marked skipped, keeps everything else of the stored status, or is a fresh one |
| TransactionEngine.Transaction.EvalChildrenAndApplyResource | spec/unit/transaction.rb:119-123 | with no fuel left it is a plain `apply`. Otherwise the catalog first grows by exactly the children `generate_additional_resources(r, :eval_generate)` accepts and the log by its duplicate notices. With no child accepted the rest is one plain `apply`. A depth-first resource is applied after everything its children did, so its returned status is the stored one; otherwise it is applied before them. Every accepted child is evaluated: its events are processed. Evaluation only ever adds to the trace, log, catalog and store |
| TransactionEngine.Transaction.GenerateAndApply | spec/unit/transaction.rb:119-123 | with fuel left, generation comes first: the catalog and log grow by what the generation rule accepts and logs, every accepted child has its events processed, and the resource is applied in depth-first or breadth-first order |
| TransactionEngine.Transaction.ApplyWithChildren | spec/unit/transaction.rb:119-123 | every child is evaluated (its events are processed). The resource's own `apply` is the last in the apply trace when it is depth-first, after the children's, and comes before theirs otherwise. With no children it is exactly one `apply` |
| TransactionEngine.Transaction.EvalChildren | spec/unit/transaction.rb:119-123 | each child is evaluated one level deeper, so each child's events are processed during the call. The trace, log, catalog and store only grow, and with no children nothing changes |
| TransactionEngine.Transaction.Apply | spec/unit/transaction.rb:143-176 | the harness's status is stored and each of its events is queued once, in order; if the harness raises, the error is logged on the resource and no status is stored; the call is recorded in the apply trace and the catalog is untouched |
| TransactionRules.AfterApply | spec/unit/transaction.rb:158-175 | after `apply` the store gains exactly the returned status under its reference and every other entry keeps its value, or is unchanged when the harness raised |
| TransactionRules.Queued | spec/unit/transaction.rb:163-168 | one queued entry per event, in the events' order, each naming the resource |
| TransactionEngine.EventManager.QueueEvent | spec/unit/transaction.rb:163-168 | queuing appends exactly one entry for the resource and event |
| TransactionEngine.EventManager.ProcessEvents | spec/unit/transaction.rb:125-129 | processing records the resource once, at the end |
| TransactionEngine.Catalog.AddResource | spec/unit/transaction.rb:188-204 | a resource whose reference the catalog already holds is refused and the catalog is unchanged; otherwise the block's result is appended |
| TransactionEngine.Transaction.GenerateAdditionalResources | spec/unit/transaction.rb:178-226 | the catalog grows by exactly the accepted candidates, the result is those candidates, and one info line is logged per duplicate, all as the generation rule prescribes |
| TransactionRules.GenerateAcceptedFinished | spec/unit/transaction.rb:179-193 | there are exactly as many accepted resources and duplicates together as candidates; every accepted resource is finished and carries all of the generator's tags |
| TransactionRules.GenerateSortsCandidates | spec/unit/transaction.rb:179-225 | a candidate whose reference is in neither the catalog nor an earlier candidate is accepted, tagged and finished; every other candidate, tagged, is a duplicate |
| TransactionRules.GenerateFromCandidates | spec/unit/transaction.rb:179-225 | every accepted resource is such a new candidate, tagged and finished, and every duplicate is a candidate that is not new, tagged; with GenerateSortsCandidates this fixes both lists' contents |
| TransactionRules.GenerateSingle | spec/unit/transaction.rb:179-210 | a single candidate the catalog does not hold gives exactly that candidate, tagged and finished, and no duplicate; one it holds gives no resource and the tagged candidate as the duplicate |
| TransactionRules.GenerateAcceptedFresh | spec/unit/transaction.rb:195-210 | no accepted resource shares a reference with the catalog or with another accepted one |
| TransactionRules.GenerateDuplicatesCollide | spec/unit/transaction.rb:195-210 | every duplicate's reference is already in the catalog or among the resources accepted before it |
| TransactionRules.GenerateDuplicatesUnfinished | spec/unit/transaction.rb:195-210 | generation never finishes a duplicate |
| TransactionRules.AllDuplicates | spec/unit/transaction.rb:195-210 | when every candidate collides, nothing is generated and every candidate, tagged, is reported as a duplicate |
| TransactionEngine.DuplicateNotices | spec/unit/transaction.rb:206-207 | one info-level line per duplicate, on that duplicate, in order |
| Resources.TagWith | spec/unit/transaction.rb:212-225 | tagging adds the generator's tags and keeps the reference and finished flag |
| Resources.Finish | spec/unit/transaction.rb:179-193 | finishing marks the resource finished and keeps its reference and tags |
| TransactionEngine.Transaction.Prefetch | spec/unit/transaction.rb:266-279 | the groups the loop builds are exactly the provider-to-name maps of the prefetch rule |
| TransactionRules.PrefetchKeyedByName | spec/unit/transaction.rb:266-279 | every prefetch entry is a catalog resource of that provider filed under its own name (not its title), and every prefetchable resource is filed |
| Resources.FreshStatus | spec/unit/transaction.rb:41-44 | a newly created status carries the reference and records no events, failure, skip or change |
| Checksums.Checksum.Create | lib/puppet/checksum.rb:34-43 | without content construction fails with a missing-content error, before the algorithm is looked at; the algorithm defaults to md5; an algorithm the object does not answer to is refused; otherwise a fresh checksum with that content and algorithm and nothing cached |
| Checksums.Checksum.SetAlgorithm | lib/puppet/checksum.rb:20-26 | an unsupported algorithm is refused and nothing changes; otherwise the algorithm, symbol or string alike, is stored by name and the cached digest is dropped; the content never changes |
| Checksums.Checksum.Checksum | lib/puppet/checksum.rb:28-32 | the result is the digest of the content under the current algorithm; it is cached, and computed only when nothing was cached, so repeated calls compute it once |
| Checksums.Checksum.Name | lib/puppet/checksum.rb:45-48 | `name` is the checksum, with the same caching |
| Checksums.Checksum.ToString | lib/puppet/checksum.rb:50-52 | `to_s` is `Checksum<{algorithm}digest>` for the current algorithm and its digest |
| Checksums.Render | lib/puppet/checksum.rb:50-52 | the rendered text is the fixed prefix, the algorithm, a closing brace, the digest and `>`, at those positions |
| Checksums.RenderInjective | lib/puppet/checksum.rb:50-52 | for algorithm names without `}`, two equal renderings have the same algorithm and the same digest |
| Scenarios.CrashIsNotFailure | spec/unit/transaction.rb:170-175 | a resource whose evaluation raises leaves no status, is not changed, and the run reports no failure, while the other resource's status is stored and changed |
| Scenarios.StatusLookup | spec/unit/transaction.rb:26-51 | lookups by resource and by reference and the report's entry are all the added status; a missing reference gives a fresh status |
| Scenarios.GeneratedChildFirst | spec/unit/transaction.rb:178-225 | evaluating a depth-first generator puts its new child in the catalog, tagged with the generator's tags and finished, processes the child's events, and applies the generator last, so the generator's status is stored |
| Scenarios.TagsFromSetting | spec/unit/transaction.rb:305-313 | two reads of the default filter give the split setting, ["one", "two"] |
| Scenarios.AssignedTags | spec/unit/transaction.rb:315-324 | after assigning "one::two" the filter is ["one::two"] and the setting is never read |
| Scenarios.ChecksumMemoised | lib/puppet/checksum.rb:20-32 | the digest is computed once for two calls, recomputed after the algorithm changes, and `to_s` shows the new algorithm |
| Scenarios.ChecksumRefusals | lib/puppet/checksum.rb:20-43 | missing content is refused even with a bad algorithm; a bad algorithm is refused with its name |

## Left out

- `lib/puppet/transaction.rb` is not part of this model. The transaction follows the behaviour its unit tests fix, and details the tests do not show are choices of the model.
- `ignore_tags?` is not modelled. The tag filter always applies, as when it answers false.
- TransactionEngine.Transaction.IsFailed: looks up without creating a status. The implementation may create one through `resource_status`, which the tests cannot tell apart.
- TransactionEngine.Transaction.Skip: `failed_dependencies?` is modelled as "some dependency reference has a stored failed status". The tests leave it pending (line 88) and stub it, so it is not fixed further.
- `scheduled?` is the resource's `scheduled` flag. The scheduler is not part of this model.
- The resource harness's evaluation is an opaque function of the resource. What it does to the system is not part of this model.
- Event delivery to subscribers is not modelled. The event manager only records what was queued and which resources were processed.
- The `evaluate` traversal of the whole catalog is not modelled, and neither is the relationship graph.
- TransactionEngine.Transaction.EvalResource: generated children are evaluated to a fuel depth. Deeper generation is not modelled.
- TransactionRules.Changed: `changed?` is modelled as the catalog's resources filtered by their stored status, so the result is in catalog order and a changed status whose reference is not in the catalog is never reported. An implementation that walks the stored statuses and looks each resource up in the graph would give status order instead. The tests (lines 281-296) fix only the set of resources.
- TransactionEngine.Transaction.ApplyWithChildren: a child's evaluation is stated as its events being processed and, through the apply trace, as the ordering of applies. What a child's evaluation does to the store and the log is not stated; the EvalChildrenAndApplyResource line below gives the reason.
- TransactionEngine.Transaction.EvalChildrenAndApplyResource: when children are evaluated, the contract does not state their full effect on the store, the queued events and the log, only what is listed in its row. A fully functional statement would need a specification function for the whole recursive evaluation.
- TransactionEngine.Transaction.EvalResource: with children, the same holds as for EvalChildrenAndApplyResource.
- TransactionEngine.Transaction.EvalChildrenAndApplyResource: the contract does not say that the resource is applied exactly once overall. A generated descendant could in principle share its reference, so the contract states the position of the resource's own apply instead.
- Resources are values, not shared objects. Tagging and finishing return new values, so Ruby object identity and aliasing are not captured.
- TransactionEngine.Catalog.AddResource: duplicates are detected by reference only. Catalog aliases and title/name collisions are not modelled.
- TransactionEngine.Transaction.GenerateAdditionalResources: the info lines for duplicates are appended once the loop over candidates ends, not as each duplicate is met. Nothing else writes the log in between, so the resulting log is the same.
- Errors raised by a generator's `generate` are not modelled.
- `respond_to?` checks on generators are not modelled.
- Exceptions from a provider's `prefetch` are not modelled. The model returns the groups each provider would be given.
- The catalog's ordering is not modelled, and neither is report metric calculation beyond counting the calls.
- Log messages are modelled only as the level, the resource and the text given to them.
- Checksums.Checksum.Create: `respond_to?` answers for every public method of the object. The model takes the set of answered names as a parameter and does not model the later failure of `send` with a name that is not a digest.
- The digest algorithms (md5 and the others in `Puppet::Util::Checksums`) are an opaque function.
- The indirector registration (`indirects :checksum`) is not modelled.
- Checksums.Checksum.Create: content that is `false` (rather than nil) is not modelled. Content is a string or absent.
