/**
 A resolve request: discover, suspend, resume. A deferred request runs without records; if it looked any up, it
 suspends with the flags it could finish, and a resume with the records finishes the others.
 */
module Protocol {
  import opened Wrappers
  import opened Materializations
  import opened Segments
  import opened Flags

  const MAX_FLAGS: nat := 5000

  /** The flag loop. A flag that misses a record is left for later; any other error ends the run. */
  datatype Run = Run(failure: Option<ResolveError>, resolved: seq<AssignedFlag>, lookups: seq<Query>,
      toWrite: seq<Record>)

  function ResolveAll(w: World, rs: Records, flags: seq<Flag>, toWrite: seq<Record>): Run
    decreases |flags|
  {
    if flags == [] then Run(None, [], [], toWrite)
    else
      var o := ResolveFlag(w, rs, flags[0], toWrite);
      if o.result.Failed? then Run(Some(o.result.error), [], o.lookups, o.toWrite)
      else
        var rest := ResolveAll(w, rs, flags[1..], o.toWrite);
        Run(rest.failure, ValueOf(o) + rest.resolved, o.lookups + rest.lookups, rest.toWrite)
  }

  function ValueOf(o: FlagOutcome): seq<AssignedFlag> {
    if o.result.Done? then [o.result.value] else []
  }

  /** What a suspended request carries to its resume. */
  datatype Continuation = Continuation(names: seq<string>, resolved: seq<AssignedFlag>, toWrite: seq<Record>)

  datatype Request =
    | Deferred(names: seq<string>)
    | Static(names: seq<string>, records: seq<Record>)
    | Without(names: seq<string>)
    | Resume(state: Continuation, records: seq<Record>)

  datatype Failure = TooManyFlags | ResolveFailed(error: ResolveError)

  datatype Response =
    | Resolved(flags: seq<AssignedFlag>, toWrite: seq<Record>)
    | Suspended(toRead: seq<Record>, state: Continuation)
    | Rejected(failure: Failure)

  function Begin(r: Request): (Continuation, Records) {
    match r
    case Deferred(names) => (Continuation(names, [], []), Discovery)
    case Static(names, records) => (Continuation(names, [], []), Complete(records))
    case Without(names) => (Continuation(names, [], []), Unsupported)
    case Resume(state, records) => (state, Complete(records))
  }

  predicate IsResolved(resolved: seq<AssignedFlag>, name: string) {
    exists v | v in resolved :: v.flag == name
  }

  predicate Wanted(w: World, flag: Flag, state: Continuation) {
    && flag.state.Active?
    && w.client in flag.clients
    && (state.names == [] || flag.name in state.names)
    && !IsResolved(state.resolved, flag.name)
  }

  function ToResolve(w: World, catalog: seq<Flag>, state: Continuation): seq<Flag> {
    if catalog == [] then []
    else (if Wanted(w, catalog[0], state) then [catalog[0]] else []) + ToResolve(w, catalog[1..], state)
  }

  /** The whole request against a catalog of flags, in the order the catalog enumerates them. */
  function Process(w: World, catalog: seq<Flag>, request: Request): Response {
    var (state, rs) := Begin(request);
    var flags := ToResolve(w, catalog, state);
    if |flags| > MAX_FLAGS then Rejected(TooManyFlags)
    else Conclude(state, rs, ResolveAll(w, rs, flags, state.toWrite))
  }

  function Conclude(state: Continuation, rs: Records, run: Run): Response {
    var resolved := state.resolved + run.resolved;
    var toRead := Noted(rs, [], run.lookups);
    if run.failure.Some? then Rejected(ResolveFailed(run.failure.value))
    else if toRead != [] then Suspended(toRead, Continuation(state.names, resolved, run.toWrite))
    else Resolved(resolved, run.toWrite)
  }
}
