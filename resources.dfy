/**
 * The values the transaction engine handles: resources as the engine sees
 * them (their reference, name, tags and flags), their evaluation statuses,
 * the events a status carries and the log lines the engine writes.
 */
module Resources {
  import opened Wrappers

  /** A provider class; `prefetches` is whether it answers to a class-level prefetch. */
  datatype Provider = Provider(name: string, prefetches: bool)

  /**
   * The capabilities of a resource that the engine relies on. `scheduled`
   * is the scheduler's answer for this run and `dependencies` holds the
   * references of the resources this one depends on.
   */
  datatype Resource = Resource(
    typeName: string,
    title: string,
    name: string,
    tags: set<string>,
    virtual: bool,
    scheduled: bool,
    dependencies: seq<string>,
    provider: Option<Provider>,
    depthfirst: bool,
    finished: bool)

  /** The reference string a resource is known by, such as `File[/my/file]`. */
  function Ref(r: Resource): string {
    r.typeName + "[" + r.title + "]"
  }

  datatype Event = Event(source: string, name: string)

  /** The outcome of evaluating one resource. A failure carries its message. */
  datatype Status = Status(
    resourceRef: string,
    events: seq<Event>,
    failure: Option<string>,
    skipped: bool,
    changed: bool)
  {
    predicate Failed() {
      failure.Some?
    }
  }

  /** A status that records nothing yet: the one a lookup that misses creates. */
  function FreshStatus(ref: string): (s: Status)
    ensures s.resourceRef == ref && s.events == []
    ensures !s.Failed() && !s.skipped && !s.changed
  {
    Status(ref, [], None, false, false)
  }

  /** What the resource harness gives back: a status, or the error it raised. */
  datatype Evaluation = Evaluated(status: Status) | Raised(message: string)

  datatype LogLevel = Err | Info

  /** A line logged on a resource's own `err` or `info` channel. */
  datatype LogEntry = LogEntry(level: LogLevel, source: string, message: string)

  /** `resource.tag(*tags)`: adds the tags and leaves everything else alone. */
  function TagWith(r: Resource, tags: set<string>): (t: Resource)
    ensures t.tags == r.tags + tags && Ref(t) == Ref(r) && t.finished == r.finished
  {
    r.(tags := r.tags + tags)
  }

  /** `resource.finish`: the post-construction hook. */
  function Finish(r: Resource): (f: Resource)
    ensures f.finished && Ref(f) == Ref(r) && f.tags == r.tags
  {
    r.(finished := true)
  }

  /** `resource.tagged?(*filter)`: does the resource carry any one of the tags? */
  predicate TaggedWithAny(r: Resource, filter: seq<string>) {
    exists i :: 0 <= i < |filter| && filter[i] in r.tags
  }
}
