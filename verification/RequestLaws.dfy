/**
 What the response to a request holds: which flags of the catalog, in which order, and for each of them what it is
 resolved to on its own.
 */
module RequestLaws {
  import opened Wrappers
  import opened Materializations
  import opened Segments
  import opened Flags
  import opened FlagLaws
  import opened Protocol
  import opened ProtocolLaws

  // ----- Selection

  /** The flag is active, lists the client, is named if any flag is, and has no value yet. */
  ghost predicate Due(w: World, flag: Flag, names: seq<string>, finished: seq<AssignedFlag>) {
    && flag.state == Active && w.client in flag.clients
    && (names != [] ==> flag.name in names)
    && forall v :: v in finished ==> v.flag != flag.name
  }

  /** The places in the catalog of the flags that are due, in the order of the catalog. */
  ghost predicate Places(w: World, catalog: seq<Flag>, names: seq<string>, finished: seq<AssignedFlag>,
      places: seq<nat>) {
    && (forall i, j :: 0 <= i < j < |places| ==> places[i] < places[j])
    && (forall p: nat :: p in places <==> p < |catalog| && Due(w, catalog[p], names, finished))
  }

  /** `flags` are those at the places, one by one. */
  ghost predicate Are(flags: seq<Flag>, catalog: seq<Flag>, places: seq<nat>) {
    && |flags| == |places|
    && forall i :: 0 <= i < |places| ==> places[i] < |catalog| && flags[i] == catalog[places[i]]
  }

  lemma WantedIsDue(w: World, flag: Flag, state: Continuation)
    ensures Wanted(w, flag, state) <==> Due(w, flag, state.names, state.resolved)
  {
  }

  ghost function Shifted(head: bool, behind: seq<nat>): seq<nat> {
    (if head then [0] else []) + seq(|behind|, i requires 0 <= i < |behind| => behind[i] + 1)
  }

  lemma NoPlaces(w: World, names: seq<string>, finished: seq<AssignedFlag>)
    ensures Places(w, [], names, finished, []) && Are([], [], [])
  {
  }

  lemma {:induction false} PlacesShift(w: World, catalog: seq<Flag>, names: seq<string>, finished: seq<AssignedFlag>,
      behind: seq<nat>)
    requires catalog != [] && Places(w, catalog[1..], names, finished, behind)
    ensures Places(w, catalog, names, finished, Shifted(Due(w, catalog[0], names, finished), behind))
  {
    hide Due;
    var head := Due(w, catalog[0], names, finished);
    var places := Shifted(head, behind);
    forall p: nat ensures p in places <==> p < |catalog| && Due(w, catalog[p], names, finished) {
      ShiftedHolds(head, behind, p);
      assert 0 < p < |catalog| ==> catalog[p] == catalog[1..][p - 1];
    }
  }

  lemma {:induction false} ShiftedHolds(head: bool, behind: seq<nat>, p: nat)
    ensures p in Shifted(head, behind) <==> if p == 0 then head else p - 1 in behind
  {
    var places, n := Shifted(head, behind), if head then 1 else 0;
    assert forall i :: 0 <= i < |behind| ==> places[n + i] == behind[i] + 1;
    assert forall i :: n <= i < |places| ==> places[i] == behind[i - n] + 1;
    if p > 0 && p - 1 in behind {
      var i :| 0 <= i < |behind| && behind[i] == p - 1;
      assert places[n + i] == p;
    }
  }

  lemma {:induction false} AreShift(flags: seq<Flag>, catalog: seq<Flag>, behind: seq<nat>, head: bool)
    requires catalog != [] && Are(flags, catalog[1..], behind)
    ensures Are((if head then [catalog[0]] else []) + flags, catalog, Shifted(head, behind))
  {
  }

  lemma {:induction false} SelectionIsRead(w: World, catalog: seq<Flag>, state: Continuation)
    ensures exists places ::
              && Places(w, catalog, state.names, state.resolved, places)
              && Are(ToResolve(w, catalog, state), catalog, places)
    decreases |catalog|
  {
    hide Wanted, Due, Places, Are;
    if catalog == [] {
      NoPlaces(w, state.names, state.resolved);
    } else {
      var first, rest := catalog[0], catalog[1..];
      SelectionIsRead(w, rest, state);
      var behind :|
        Places(w, rest, state.names, state.resolved, behind) && Are(ToResolve(w, rest, state), rest, behind);
      WantedIsDue(w, first, state);
      PlacesShift(w, catalog, state.names, state.resolved, behind);
      AreShift(ToResolve(w, rest, state), catalog, behind, Wanted(w, first, state));
    }
  }

  // ----- The response to a request that has its records, or does without

  /**
   None of the flags is resolved if they are too many; otherwise, behind the values there already are, each has its
   own, in order, unless one of the flags fails or a key would be written twice.
   */
  ghost predicate IsResponse(w: World, rs: Records, flags: seq<Flag>, finished: seq<AssignedFlag>,
      written: seq<Record>, response: Response) {
    if |flags| > 5000 then response == Rejected(TooManyFlags)
    else
      && !response.Suspended?
      && (response.Resolved? <==>
           && (forall f :: f in flags ==> ResolveFlag(w, rs, f, []).result.Done?)
           && Distinct(written + Writes(w, rs, flags)))
      && (response.Resolved? ==>
           && response.toWrite == written + Writes(w, rs, flags)
           && |response.flags| == |finished| + |flags| && response.flags[..|finished|] == finished
           && forall i :: 0 <= i < |flags| ==>
                && ResolveFlag(w, rs, flags[i], []).result == Done(response.flags[|finished| + i])
                && response.flags[|finished| + i].flag == flags[i].name)
  }

  /** With every flag done, the values are those of the flags, one by one. */
  lemma {:induction false} ValuesAre(w: World, rs: Records, flags: seq<Flag>)
    requires forall f :: f in flags ==> Alone(w, rs, f).result.Done?
    ensures |Values(w, rs, flags)| == |flags|
    ensures forall i :: 0 <= i < |flags| ==> Alone(w, rs, flags[i]).result == Done(Values(w, rs, flags)[i])
  {
    hide Alone;
    if flags != [] {
      assert flags[0] in flags && forall f :: f in flags[1..] ==> f in flags;
      ValuesAre(w, rs, flags[1..]);
    }
  }

  lemma {:induction false} NotMissing(w: World, rs: Records, flag: Flag)
    requires !rs.Discovery?
    ensures var o := Alone(w, rs, flag);
            (o.result.Done? <==> !o.result.Failed?) && (o.result.Done? ==> o.result.value.flag == flag.name)
  {
    hide ResolveRules;
    CompleteRules(w, rs, flag, flag.rules, [], []);
    ValueIsNamed(w, rs, flag, flag.rules, false, [], []);
  }

  lemma {:induction false} FlagsAnswer(w: World, rs: Records, flags: seq<Flag>, state: Continuation)
    requires !rs.Discovery? && Distinct(state.toWrite) && |flags| <= MAX_FLAGS
    ensures IsResponse(w, rs, flags, state.resolved, state.toWrite,
                       Conclude(state, rs, ResolveAll(w, rs, flags, state.toWrite)))
  {
    hide ResolveAll, ResolveFlag, Writes, Values, LookupsOf, Distinct;
    RunIsItsFlags(w, rs, flags, state.toWrite);
    forall f | f in flags {
      NotMissing(w, rs, f);
    }
    if Succeed(w, rs, flags) {
      ValuesAre(w, rs, flags);
      assert forall i :: 0 <= i < |flags| ==> flags[i] in flags;
    }
  }

  /** The flags of the request are those that are due, in the order of the catalog. */
  ghost predicate Answered(w: World, rs: Records, catalog: seq<Flag>, names: seq<string>, finished: seq<AssignedFlag>,
      written: seq<Record>, response: Response) {
    exists places, flags ::
      && Places(w, catalog, names, finished, places) && Are(flags, catalog, places)
      && IsResponse(w, rs, flags, finished, written, response)
  }

  lemma {:induction false} ProcessAnswers(w: World, catalog: seq<Flag>, request: Request)
    requires !request.Deferred? && Distinct(Begin(request).0.toWrite)
    ensures var (state, rs) := Begin(request);
            Answered(w, rs, catalog, state.names, state.resolved, state.toWrite, Process(w, catalog, request))
  {
    hide ResolveAll, ToResolve, Conclude, Distinct, IsResponse, Places, Are;
    var (state, rs) := Begin(request);
    var flags := ToResolve(w, catalog, state);
    SelectionIsRead(w, catalog, state);
    if |flags| <= MAX_FLAGS {
      FlagsAnswer(w, rs, flags, state);
    } else {
      TooMany(w, rs, flags, state.resolved, state.toWrite);
    }
  }

  lemma TooMany(w: World, rs: Records, flags: seq<Flag>, finished: seq<AssignedFlag>, written: seq<Record>)
    requires |flags| > 5000
    ensures IsResponse(w, rs, flags, finished, written, Rejected(TooManyFlags))
  {
  }

  /** A request with its records has one value for each flag that is due, and none for any other. */
  lemma {:induction false} StaticAnswers(w: World, catalog: seq<Flag>, names: seq<string>, records: seq<Record>)
    ensures Answered(w, Complete(records), catalog, names, [], [], Process(w, catalog, Static(names, records)))
  {
    ProcessAnswers(w, catalog, Static(names, records));
  }

  lemma {:induction false} WithoutAnswers(w: World, catalog: seq<Flag>, names: seq<string>)
    ensures Answered(w, Unsupported, catalog, names, [], [], Process(w, catalog, Without(names)))
  {
    ProcessAnswers(w, catalog, Without(names));
  }

  /** A resume has the values it was given, and one for each flag that is due and has none of these. */
  lemma {:induction false} ResumeAnswers(w: World, catalog: seq<Flag>, names: seq<string>, finished: seq<AssignedFlag>,
      written: seq<Record>, records: seq<Record>)
    requires Distinct(written)
    ensures Answered(w, Complete(records), catalog, names, finished, written,
                     Process(w, catalog, Resume(Continuation(names, finished, written), records)))
  {
    ProcessAnswers(w, catalog, Resume(Continuation(names, finished, written), records));
  }

  // ----- A deferred request and its resume

  /** Names of the flags that discovery finished, and of those it left pending. */
  lemma {:induction false} DiscoveryNamesAll(w: World, flags: seq<Flag>)
    requires Succeed(w, Discovery, flags)
    ensures multiset(Resolutions(Values(w, Discovery, flags))) + multiset(NamesOf(Pending(w, flags)))
        == multiset(NamesOf(flags))
  {
    hide Alone, Resolutions, Pending;
    if flags == [] {
      NamesOfNothing(w);
    } else {
      var f, rest := flags[0], flags[1..];
      assert f in flags && forall g :: g in rest ==> g in flags;
      DiscoveryNamesAll(w, rest);
      ResolutionsAppend(ValueOf(Discovered(w, f)), Values(w, Discovery, rest));
      HeadIsNamed(w, f);
      PendingHead(w, flags);
    }
  }

  lemma NamesOfNothing(w: World)
    ensures Resolutions([]) == [] && NamesOf([]) == [] && Pending(w, []) == []
  {
  }

  lemma {:induction false} HeadIsNamed(w: World, f: Flag)
    requires !Discovered(w, f).result.Failed?
    ensures Resolutions(ValueOf(Discovered(w, f))) == if Discovered(w, f).result.Missing? then [] else [f.name]
  {
    hide Discovered;
    DiscoveredIsNamed(w, f);
  }

  /**
   Whatever the fetched records say, and whether or not they are what was asked for: a request that suspends and is
   resumed ends with exactly one value for each flag that was due at first.
   */
  lemma {:induction false} ResumedResolvesEach(w: World, catalog: seq<Flag>, names: seq<string>, fetched: seq<Record>)
    requires NamesDistinct(catalog) && Process(w, catalog, Deferred(names)).Suspended?
    ensures var state := Process(w, catalog, Deferred(names)).state;
            var resumed := Process(w, catalog, Resume(state, fetched));
            && state.names == names && !resumed.Suspended?
            && (resumed.Resolved? ==>
                 exists places, flags ::
                   && Places(w, catalog, names, [], places) && Are(flags, catalog, places)
                   && multiset(Resolutions(resumed.flags)) == multiset(NamesOf(flags)))
  {
    hide ResolveAll, ToResolve, Alone, Values, Distinct, Pending;
    var flags := Requested(w, catalog, names);
    var d := ResolveAll(w, Discovery, flags, []);
    SelectionIsRead(w, catalog, Continuation(names, [], []));
    ResumeRuns(w, catalog, names, fetched);
    NothingIsDistinct();
    RunIsItsFlags(w, Discovery, flags, []);
    DiscoveryNamesAll(w, flags);
    CompleteRunResolvesAll(w, fetched, Pending(w, flags), d.toWrite);
    ResolutionsAppend(d.resolved, ResolveAll(w, Complete(fetched), Pending(w, flags), d.toWrite).resolved);
  }
}
