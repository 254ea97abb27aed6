/**
 The suspend/resume cycle gives the answer of one run that has all records in hand.
 */
module ProtocolLaws {
  import opened Wrappers
  import opened Materializations
  import opened Segments
  import opened SegmentLaws
  import opened Flags
  import opened FlagLaws
  import opened Protocol

  // ----- A run is its flags, each on its own

  function AllRules(flags: seq<Flag>): seq<Rule> {
    if flags == [] then [] else flags[0].rules + AllRules(flags[1..])
  }

  /** What becomes of a flag when nothing has been written yet. */
  function Alone(w: World, rs: Records, flag: Flag): FlagOutcome { ResolveFlag(w, rs, flag, []) }

  function Values(w: World, rs: Records, flags: seq<Flag>): seq<AssignedFlag> {
    if flags == [] then [] else ValueOf(Alone(w, rs, flags[0])) + Values(w, rs, flags[1..])
  }

  function LookupsOf(w: World, rs: Records, flags: seq<Flag>): seq<Query> {
    if flags == [] then [] else Alone(w, rs, flags[0]).lookups + LookupsOf(w, rs, flags[1..])
  }

  function Writes(w: World, rs: Records, flags: seq<Flag>): seq<Record> {
    if flags == [] then [] else Alone(w, rs, flags[0]).toWrite + Writes(w, rs, flags[1..])
  }

  ghost predicate Succeed(w: World, rs: Records, flags: seq<Flag>) {
    forall f :: f in flags ==> !Alone(w, rs, f).result.Failed?
  }

  lemma {:induction false} FlagIsFramed(w: World, rs: Records, flag: Flag, base: seq<Record>)
    ensures var o, o' := Alone(w, rs, flag), ResolveFlag(w, rs, flag, base);
            if Apart(base, o.toWrite) then o' == o.(toWrite := base + o.toWrite)
            else o'.result == Failed(Internal) && Within(o'.lookups, o.lookups)
  {
    hide ResolveRules;
    assert base + [] == base;
    if !flag.state.Archived? {
      WritesAreFramed(w, rs, flag, flag.rules, false, [], base, []);
    }
  }

  lemma {:induction false} FlagWritesDistinct(w: World, rs: Records, flag: Flag, base: seq<Record>)
    requires Distinct(base)
    ensures Distinct(ResolveFlag(w, rs, flag, base).toWrite)
  {
    RulesWriteDistinct(w, rs, flag, flag.rules, false, [], base);
  }

  lemma {:induction false} DistinctAppend(a: seq<Record>, b: seq<Record>)
    ensures Distinct(a + b) <==> Distinct(a) && Distinct(b) && Apart(a, b)
  {
    var all := a + b;
    if Distinct(all) {
      assert forall i :: 0 <= i < |a| ==> all[i] == a[i];
      assert forall i :: 0 <= i < |b| ==> all[|a| + i] == b[i];
    }
    if Distinct(a) && Distinct(b) && Apart(a, b) {
      assert forall i :: 0 <= i < |a| ==> a[i] in a;
      assert forall i :: 0 <= i < |b| ==> b[i] in b;
    }
  }

  /**
   A run that goes on from the writes `base` succeeds exactly when each of its flags does on its own and no key is
   written twice; then it has the values, the lookups and the writes of its flags, in order.
   */
  lemma {:induction false} RunIsItsFlags(w: World, rs: Records, flags: seq<Flag>, base: seq<Record>)
    requires Distinct(base)
    ensures var run := ResolveAll(w, rs, flags, base);
            && (run.failure.None? <==> Succeed(w, rs, flags) && Distinct(base + Writes(w, rs, flags)))
            && (run.failure.None? ==> run == Run(None, Values(w, rs, flags), LookupsOf(w, rs, flags),
                                                 base + Writes(w, rs, flags)))
            && Within(run.lookups, LookupsOf(w, rs, flags))
    decreases |flags|
  {
    hide ResolveFlag, Distinct, Apart;
    if flags == [] {
      assert base + [] == base;
    } else {
      var f, rest, o := flags[0], flags[1..], Alone(w, rs, flags[0]);
      FlagIsFramed(w, rs, f, base);
      NothingIsDistinct();
      FlagWritesDistinct(w, rs, f, []);
      DistinctAppend(base, o.toWrite);
      assert base + Writes(w, rs, flags) == base + o.toWrite + Writes(w, rs, rest);
      DistinctAppend(base + o.toWrite, Writes(w, rs, rest));
      if Apart(base, o.toWrite) {
        RunIsItsFlags(w, rs, rest, base + o.toWrite);
      }
    }
  }

  lemma NothingIsDistinct()
    ensures Distinct([])
  {
  }

  lemma {:induction false} FlagWrites(w: World, rs: Records, flag: Flag, own: seq<Record>)
    ensures Adds(flag.rules, own, ResolveFlag(w, rs, flag, own).toWrite)
  {
    hide ResolveRules;
    RulesWrite(w, rs, flag, flag.rules, false, [], own);
  }

  /** Every record a run writes is of a requested rule, under its own name and materialization. */
  lemma {:induction false} RunWrites(w: World, rs: Records, flags: seq<Flag>, own: seq<Record>)
    ensures Adds(AllRules(flags), own, ResolveAll(w, rs, flags, own).toWrite)
    decreases |flags|
  {
    hide ResolveFlag;
    if flags != [] {
      var f := flags[0];
      FlagWrites(w, rs, f, own);
      assert forall r :: WrittenBy(f.rules, r) || WrittenBy(AllRules(flags[1..]), r) ==> WrittenBy(AllRules(flags), r);
      var o := ResolveFlag(w, rs, f, own);
      if !o.result.Failed? {
        RunWrites(w, rs, flags[1..], o.toWrite);
      }
    }
  }

  lemma {:induction false} RunIsLocal(w: World, rs: Records, other: Records, flags: seq<Flag>, toWrite: seq<Record>)
    requires Writable(rs) && Writable(other)
    requires Agree(rs, other, ResolveAll(w, rs, flags, toWrite).lookups)
    ensures ResolveAll(w, other, flags, toWrite) == ResolveAll(w, rs, flags, toWrite)
    decreases |flags|
  {
    hide ResolveFlag;
    if flags != [] {
      var o := ResolveFlag(w, rs, flags[0], toWrite);
      assert Within(o.lookups, ResolveAll(w, rs, flags, toWrite).lookups);
      FlagIsLocal(w, rs, other, flags[0], toWrite);
      if !o.result.Failed? {
        RunIsLocal(w, rs, other, flags[1..], o.toWrite);
      }
    }
  }

  // ----- With records, every flag is resolved, once, and nothing is read

  function NamesOf(flags: seq<Flag>): seq<string> {
    if flags == [] then [] else [flags[0].name] + NamesOf(flags[1..])
  }

  function Resolutions(values: seq<AssignedFlag>): seq<string> {
    if values == [] then [] else [values[0].flag] + Resolutions(values[1..])
  }

  lemma {:induction false} ResolutionsAppend(a: seq<AssignedFlag>, b: seq<AssignedFlag>)
    ensures Resolutions(a + b) == Resolutions(a) + Resolutions(b)
    decreases |a|
  {
    if a == [] {
      assert a + b == b;
    } else {
      assert (a + b)[1..] == a[1..] + b;
      ResolutionsAppend(a[1..], b);
    }
  }

  lemma {:induction false} ValueIsNamed(w: World, rs: Records, flag: Flag, rules: seq<Rule>, missing: bool,
      falls: seq<Attribution>, toWrite: seq<Record>)
    ensures var o := ResolveRules(w, rs, flag, rules, missing, falls, toWrite); o.result.Done? ==>
        o.result.value.flag == flag.name
    decreases |rules|
  {
    hide RuleEffect;
    if rules != [] {
      var e := RuleEffect(w, rs, rules[0], missing);
      var turn := Act(rs, flag, rules[0], e.action, falls, toWrite);
      if turn.Next? {
        ValueIsNamed(w, rs, flag, rules[1..], e.missing, turn.falls, turn.toWrite);
      }
    }
  }

  lemma {:induction false} CompleteRunResolvesAll(w: World, records: seq<Record>, flags: seq<Flag>,
      toWrite: seq<Record>)
    ensures var run := ResolveAll(w, Complete(records), flags, toWrite);
            run.failure.None? ==> Resolutions(run.resolved) == NamesOf(flags)
    decreases |flags|
  {
    if flags != [] {
      var o := ResolveFlag(w, Complete(records), flags[0], toWrite);
      CompleteRules(w, Complete(records), flags[0], flags[0].rules, [], toWrite);
      ValueIsNamed(w, Complete(records), flags[0], flags[0].rules, false, [], toWrite);
      if !o.result.Failed? {
        CompleteRunResolvesAll(w, records, flags[1..], o.toWrite);
        ResolutionsAppend(ValueOf(o), ResolveAll(w, Complete(records), flags[1..], o.toWrite).resolved);
      }
    }
  }

  /** A request that brings its records never suspends, so a resumed one is never "still suspended". */
  lemma {:induction false} RecordsNeverSuspend(w: World, catalog: seq<Flag>, request: Request)
    requires !request.Deferred?
    ensures !Process(w, catalog, request).Suspended?
    ensures var (state, rs) := Begin(request);
            var response := Process(w, catalog, request);
            rs.Complete? && response.Resolved? ==>
              Resolutions(response.flags) == Resolutions(state.resolved) + NamesOf(ToResolve(w, catalog, state))
  {
    var (state, rs) := Begin(request);
    var flags := ToResolve(w, catalog, state);
    if rs.Complete? {
      CompleteRunResolvesAll(w, rs.records, flags, state.toWrite);
      ResolutionsAppend(state.resolved, ResolveAll(w, rs, flags, state.toWrite).resolved);
    }
  }

  // ----- Discovery against one complete run

  /** See `FlagLaws.Clean`: what the discovery run of each flag must not do. It can be checked before the request. */
  ghost predicate CleanFlags(w: World, flags: seq<Flag>) {
    forall f :: f in flags && !f.state.Archived? ==> Clean(w, f.rules, false)
  }

  /** What discovery makes of a single flag. */
  function Discovered(w: World, flag: Flag): FlagOutcome { Alone(w, Discovery, flag) }

  function Pending(w: World, flags: seq<Flag>): seq<Flag> {
    if flags == [] then []
    else (if Discovered(w, flags[0]).result.Missing? then [flags[0]] else []) + Pending(w, flags[1..])
  }

  /** No flag that has to be resumed has already written a record. */
  ghost predicate NoEarlyWrite(w: World, flags: seq<Flag>) {
    forall f :: f in flags && Discovered(w, f).result.Missing? ==> Discovered(w, f).toWrite == []
  }

  lemma {:induction false} FlagAgrees(w: World, records: seq<Record>, rank: string -> nat, flag: Flag)
    requires Acyclic(w, rank) && (!flag.state.Archived? ==> Clean(w, flag.rules, false))
    ensures var d, c := Discovered(w, flag), Alone(w, Complete(records), flag);
            && (if d.result.Missing? then d.toWrite <= c.toWrite else c.result == d.result && c.toWrite == d.toWrite)
            && Within(c.lookups, d.lookups)
  {
    if !flag.state.Archived? {
      RulesAgree(w, records, rank, flag, flag.rules, [], []);
    }
  }

  lemma {:induction false} CompleteFlagIsDone(w: World, records: seq<Record>, flag: Flag)
    ensures !Alone(w, Complete(records), flag).result.Missing?
  {
    CompleteRules(w, Complete(records), flag, flag.rules, [], []);
  }

  lemma {:induction false} PendingIsShorter(w: World, flags: seq<Flag>)
    ensures |Pending(w, flags)| <= |flags|
    ensures forall f :: f in Pending(w, flags) <==> f in flags && Discovered(w, f).result.Missing?
    decreases |flags|
  {
    if flags != [] {
      PendingIsShorter(w, flags[1..]);
    }
  }

  /** No key is in the multiset twice. */
  ghost predicate OncePerKey(m: multiset<Record>) {
    forall x, y :: x in m && y in m && SameKey(x, y) ==> x == y && m[x] == 1
  }

  lemma {:induction false} OncePerKeyAdd(first: Record, m: multiset<Record>)
    ensures OncePerKey(multiset{first} + m) <==> OncePerKey(m) && forall y :: y in m ==> !SameKey(first, y)
  {
    var all := multiset{first} + m;
    assert forall x :: all[x] == m[x] + (if x == first then 1 else 0);
    if OncePerKey(all) {
      forall y | y in m ensures !SameKey(first, y) {
        assert first in all && y in all && all[first] == m[first] + 1;
      }
    }
  }

  lemma {:induction false} DistinctTells(records: seq<Record>)
    ensures Distinct(records) <==> OncePerKey(multiset(records))
  {
    if records == [] {
      NothingIsDistinct();
    } else {
      hide Distinct, OncePerKey;
      var first, rest := records[0], records[1..];
      assert records == [first] + rest;
      OneIsDistinct(first);
      DistinctAppend([first], rest);
      DistinctTells(rest);
      OncePerKeyAdd(first, multiset(rest));
      assert multiset([first] + rest) == multiset{first} + multiset(rest);
      assert first in [first];
    }
  }

  lemma OneIsDistinct(r: Record)
    ensures Distinct([r])
  {
  }

  /** What discovery writes the complete runs of its flags write, and the pending ones may write more. */
  lemma {:induction false} DiscoveryWritesLess(w: World, records: seq<Record>, rank: string -> nat, flags: seq<Flag>)
    requires Acyclic(w, rank) && CleanFlags(w, flags)
    ensures multiset(Writes(w, Discovery, flags)) <= multiset(Writes(w, Complete(records), flags))
    decreases |flags|
  {
    hide Alone;
    if flags != [] {
      FlagAgrees(w, records, rank, flags[0]);
      DiscoveryWritesLess(w, records, rank, flags[1..]);
      var a, b := Discovered(w, flags[0]).toWrite, Alone(w, Complete(records), flags[0]).toWrite;
      assert b == a + b[|a|..];
    }
  }

  lemma {:induction false} DiscoveryFaultsShow(w: World, records: seq<Record>, rank: string -> nat, flags: seq<Flag>)
    requires Acyclic(w, rank) && CleanFlags(w, flags)
    ensures ResolveAll(w, Discovery, flags, []).failure.Some? ==>
        ResolveAll(w, Complete(records), flags, []).failure.Some?
  {
    hide Alone, ResolveAll, Writes, Distinct;
    var d, c := Writes(w, Discovery, flags), Writes(w, Complete(records), flags);
    NothingIsDistinct();
    RunIsItsFlags(w, Discovery, flags, []);
    RunIsItsFlags(w, Complete(records), flags, []);
    assert [] + d == d && [] + c == c;
    DiscoveryWritesLess(w, records, rank, flags);
    DistinctTells(d);
    DistinctTells(c);
    if !Succeed(w, Discovery, flags) {
      var f :| f in flags && Discovered(w, f).result.Failed?;
      FlagAgrees(w, records, rank, f);
    }
  }

  lemma PendingHead(w: World, flags: seq<Flag>)
    requires flags != []
    ensures var pending, rest := Pending(w, flags), Pending(w, flags[1..]);
            if Discovered(w, flags[0]).result.Missing? then pending == [flags[0]] + rest && pending[1..] == rest
            else pending == rest
  {
  }

  /** The values with records are those of discovery and those of the flags it left pending. */
  lemma {:induction false} ValuesSeparate(w: World, records: seq<Record>, rank: string -> nat, flags: seq<Flag>)
    requires Acyclic(w, rank) && CleanFlags(w, flags)
    ensures multiset(Values(w, Complete(records), flags))
        == multiset(Values(w, Discovery, flags)) + multiset(Values(w, Complete(records), Pending(w, flags)))
    decreases |flags|
  {
    hide Alone;
    if flags != [] {
      var f, rest := flags[0], flags[1..];
      FlagAgrees(w, records, rank, f);
      CompleteFlagIsDone(w, records, f);
      ValuesSeparate(w, records, rank, rest);
      PendingHead(w, flags);
    }
  }

  /** So are the writes, if the pending flags had written nothing. */
  lemma {:induction false} WritesSeparate(w: World, records: seq<Record>, rank: string -> nat, flags: seq<Flag>)
    requires Acyclic(w, rank) && CleanFlags(w, flags) && NoEarlyWrite(w, flags)
    ensures multiset(Writes(w, Complete(records), flags))
        == multiset(Writes(w, Discovery, flags)) + multiset(Writes(w, Complete(records), Pending(w, flags)))
    decreases |flags|
  {
    hide Alone;
    if flags != [] {
      var f, rest := flags[0], flags[1..];
      FlagAgrees(w, records, rank, f);
      CompleteFlagIsDone(w, records, f);
      WritesSeparate(w, records, rank, rest);
      PendingHead(w, flags);
    }
  }

  /** The pending flags look up nothing that discovery did not. */
  lemma {:induction false} LookupsAreCovered(w: World, records: seq<Record>, rank: string -> nat, flags: seq<Flag>)
    requires Acyclic(w, rank) && CleanFlags(w, flags)
    ensures Within(LookupsOf(w, Complete(records), Pending(w, flags)), LookupsOf(w, Discovery, flags))
    decreases |flags|
  {
    hide Alone;
    if flags != [] {
      var f, rest := flags[0], flags[1..];
      FlagAgrees(w, records, rank, f);
      CompleteFlagIsDone(w, records, f);
      LookupsAreCovered(w, records, rank, rest);
      PendingHead(w, flags);
    }
  }

  /**
   Running all flags with records is running the ones discovery finished, and then the pending ones after what was
   written so far, up to the order of the flags; and the pending ones ask only what discovery asked.
   */
  lemma {:induction false} RunSeparates(w: World, records: seq<Record>, rank: string -> nat, flags: seq<Flag>)
    requires Acyclic(w, rank) && CleanFlags(w, flags) && NoEarlyWrite(w, flags)
    requires ResolveAll(w, Discovery, flags, []).failure.None?
    ensures var d, c := ResolveAll(w, Discovery, flags, []), ResolveAll(w, Complete(records), flags, []);
            var p := ResolveAll(w, Complete(records), Pending(w, flags), d.toWrite);
            && (c.failure.Some? <==> p.failure.Some?)
            && (c.failure.None? ==>
                 && multiset(c.resolved) == multiset(d.resolved) + multiset(p.resolved)
                 && multiset(c.toWrite) == multiset(p.toWrite))
            && Within(p.lookups, d.lookups)
  {
    hide Alone, ResolveAll, Writes, Values, LookupsOf, Distinct, NoEarlyWrite;
    var rs, pending := Complete(records), Pending(w, flags);
    var d, c, p := Writes(w, Discovery, flags), Writes(w, rs, flags), Writes(w, rs, pending);
    NothingIsDistinct();
    RunIsItsFlags(w, Discovery, flags, []);
    RunIsItsFlags(w, rs, flags, []);
    assert [] + d == d && [] + c == c;
    RunIsItsFlags(w, rs, pending, d);
    ValuesSeparate(w, records, rank, flags);
    WritesSeparate(w, records, rank, flags);
    LookupsAreCovered(w, records, rank, flags);
    assert multiset(d + p) == multiset(c);
    DistinctTells(d + p);
    DistinctTells(c);
    PendingIsShorter(w, flags);
    forall f | f in flags && f !in pending ensures !Alone(w, rs, f).result.Failed? {
      FlagAgrees(w, records, rank, f);
    }
  }

  // ----- A record written before suspending is written again on resume, and that fails

  lemma {:induction false} WritesAreThere(w: World, rs: Records, flags: seq<Flag>, flag: Flag)
    requires flag in flags
    ensures forall r :: r in Alone(w, rs, flag).toWrite ==> r in Writes(w, rs, flags)
    decreases |flags|
  {
    hide Alone;
    if flags[0] != flag {
      WritesAreThere(w, rs, flags[1..], flag);
    }
  }

  lemma {:induction false} WrittenTwice(w: World, flags: seq<Flag>, rank: string -> nat, fetched: seq<Record>,
      flag: Flag)
    requires Acyclic(w, rank) && CleanFlags(w, flags) && flag in flags
    requires Discovered(w, flag).result.Missing? && Discovered(w, flag).toWrite != []
    ensures !Apart(Writes(w, Discovery, flags), Writes(w, Complete(fetched), Pending(w, flags)))
  {
    hide Alone, Writes;
    FlagAgrees(w, fetched, rank, flag);
    PendingIsShorter(w, flags);
    WritesAreThere(w, Discovery, flags, flag);
    WritesAreThere(w, Complete(fetched), Pending(w, flags), flag);
    var r := Discovered(w, flag).toWrite[0];
    assert r in Alone(w, Complete(fetched), flag).toWrite && SameKey(r, r);
    assert r in Writes(w, Discovery, flags) && r in Writes(w, Complete(fetched), Pending(w, flags));
  }

  lemma {:induction false} EarlyWritesFail(w: World, flags: seq<Flag>, rank: string -> nat, fetched: seq<Record>)
    requires Acyclic(w, rank) && CleanFlags(w, flags) && !NoEarlyWrite(w, flags)
    requires ResolveAll(w, Discovery, flags, []).failure.None?
    ensures ResolveAll(w, Complete(fetched), Pending(w, flags),
        ResolveAll(w, Discovery, flags, []).toWrite).failure.Some?
  {
    hide Alone, ResolveAll, Writes, Distinct, Apart;
    var d := Writes(w, Discovery, flags);
    NothingIsDistinct();
    RunIsItsFlags(w, Discovery, flags, []);
    assert [] + d == d;
    RunIsItsFlags(w, Complete(fetched), Pending(w, flags), d);
    var f :| f in flags && Discovered(w, f).result.Missing? && Discovered(w, f).toWrite != [];
    WrittenTwice(w, flags, rank, fetched, f);
    DistinctAppend(d, Writes(w, Complete(fetched), Pending(w, flags)));
  }

  // ----- What a resume selects: exactly the flags discovery left pending

  ghost predicate NamesDistinct(flags: seq<Flag>) {
    forall i, j :: 0 <= i < j < |flags| ==> flags[i].name != flags[j].name
  }

  ghost predicate Finished(w: World, flags: seq<Flag>, name: string) {
    exists f :: f in flags && f.name == name && Discovered(w, f).result.Done?
  }

  lemma {:induction false} DiscoveredIsNamed(w: World, flag: Flag)
    ensures Discovered(w, flag).result.Done? ==> Discovered(w, flag).result.value.flag == flag.name
  {
    ValueIsNamed(w, Discovery, flag, flag.rules, false, [], []);
  }

  lemma {:induction false} DiscoveryResolves(w: World, flags: seq<Flag>, name: string)
    ensures IsResolved(Values(w, Discovery, flags), name) <==> Finished(w, flags, name)
    decreases |flags|
  {
    hide Alone;
    if flags != [] {
      var f, rest := flags[0], flags[1..];
      DiscoveryResolves(w, rest, name);
      DiscoveredIsNamed(w, f);
      var o := Discovered(w, f);
      var tail := Values(w, Discovery, rest);
      assert forall v :: v in ValueOf(o) + tail <==> v in ValueOf(o) || v in tail;
      assert forall g :: g in flags <==> g == f || g in rest;
      assert IsResolved(ValueOf(o), name) <==> o.result.Done? && f.name == name by {
        if o.result.Done? {
          assert o.result.value in ValueOf(o);
        }
      }
    }
  }

  lemma {:induction false} ResumeSelects(w: World, catalog: seq<Flag>, initial: Continuation, resumed: Continuation)
    requires initial.resolved == [] && resumed.names == initial.names
    requires forall f :: f in ToResolve(w, catalog, initial) ==>
        (IsResolved(resumed.resolved, f.name) <==> !Discovered(w, f).result.Missing?)
    ensures ToResolve(w, catalog, resumed) == Pending(w, ToResolve(w, catalog, initial))
    decreases |catalog|
  {
    hide Discovered;
    if catalog != [] {
      var rest := ToResolve(w, catalog[1..], initial);
      assert forall f :: f in rest ==> f in ToResolve(w, catalog, initial);
      ResumeSelects(w, catalog[1..], initial, resumed);
      if Wanted(w, catalog[0], initial) {
        assert ToResolve(w, catalog, initial) == [catalog[0]] + rest;
        assert catalog[0] in ToResolve(w, catalog, initial);
      } else {
        assert ToResolve(w, catalog, initial) == rest;
      }
    }
  }

  lemma {:induction false} Selected(w: World, catalog: seq<Flag>, state: Continuation)
    ensures NamesDistinct(catalog) ==> NamesDistinct(ToResolve(w, catalog, state))
    ensures forall f :: f in ToResolve(w, catalog, state) ==> f in catalog
    decreases |catalog|
  {
    if catalog != [] {
      Selected(w, catalog[1..], state);
      var rest := ToResolve(w, catalog[1..], state);
      if NamesDistinct(catalog) {
        forall j | 0 <= j < |rest| ensures rest[j].name != catalog[0].name {
          assert rest[j] in rest;
        }
      }
    }
  }

  // ----- Records that answer what was asked

  /** The query a `to_read` record stands for. */
  function Asks(key: Record): Query {
    if key.rule == "" then Membership(key.unit, key.materialization)
        else RuleRecord(key.unit, key.materialization, key.rule)
  }

  /** The fetched records say about every key asked for what the whole store says. */
  ghost predicate Answers(fetched: seq<Record>, store: seq<Record>, toRead: seq<Record>) {
    forall key :: key in toRead ==> AnswerTo(Complete(fetched), Asks(key)) == AnswerTo(Complete(store), Asks(key))
  }

  /** Rules that read a record are named: an empty rule name in `to_read` means a membership lookup. */
  ghost predicate ReadersNamed(rules: seq<Rule>) {
    forall rule :: rule in rules && rule.materialization.Some? && rule.materialization.value.read != "" ==>
        rule.name != ""
  }

  ghost predicate WellAsked(lookups: seq<Query>) {
    forall q :: q in lookups ==> Asks(q.Key()) == q
  }

  lemma {:induction false} RulesAskWell(w: World, flag: Flag, rules: seq<Rule>, missing: bool, falls: seq<Attribution>,
      toWrite: seq<Record>)
    requires ReadersNamed(rules)
    ensures WellAsked(ResolveRules(w, Discovery, flag, rules, missing, falls, toWrite).lookups)
    decreases |rules|
  {
    if rules != [] {
      var rule := rules[0];
      var e := RuleEffect(w, Discovery, rule, missing);
      assert rule in rules && forall r :: r in rules[1..] ==> r in rules;
      if Applies(w, rule) && UnitFor(w, rule).Use? {
        SegmentCovers(Evaluation(w, UnitFor(w, rule).unit, Complete([])), {}, rule.segment);
      }
      assert WellAsked(e.lookups);
      var turn := Act(Discovery, flag, rule, e.action, falls, toWrite);
      if turn.Next? {
        RulesAskWell(w, flag, rules[1..], e.missing, turn.falls, turn.toWrite);
      }
    }
  }

  lemma {:induction false} RunAsksWell(w: World, flags: seq<Flag>, toWrite: seq<Record>)
    requires forall f :: f in flags ==> ReadersNamed(f.rules)
    ensures WellAsked(ResolveAll(w, Discovery, flags, toWrite).lookups)
    decreases |flags|
  {
    if flags != [] {
      RulesAskWell(w, flags[0], flags[0].rules, false, [], toWrite);
      RunAsksWell(w, flags[1..], ResolveFlag(w, Discovery, flags[0], toWrite).toWrite);
    }
  }

  /** Answers to `to_read` are answers to every lookup of a run whose lookups discovery covers. */
  lemma {:induction false} AnswersAgree(fetched: seq<Record>, store: seq<Record>, discovered: seq<Query>,
      lookups: seq<Query>)
    requires WellAsked(discovered) && Within(lookups, discovered)
    requires Answers(fetched, store, Noted(Discovery, [], discovered))
    ensures Agree(Complete(store), Complete(fetched), lookups)
  {
    NotedIsTheLookups([], discovered);
    forall q | q in lookups ensures AnswerTo(Complete(store), q) == AnswerTo(Complete(fetched), q) {
      assert Asked(discovered, q.Key());
    }
  }

  // ----- The main results

  /** Two responses to the same request: both rejected, or the same assignment of every flag and the same writes. */
  ghost predicate Same(a: Response, b: Response) {
    || (a.Rejected? && b.Rejected?)
    || (a.Resolved? && b.Resolved? && multiset(a.flags) == multiset(b.flags)
        && multiset(a.toWrite) == multiset(b.toWrite))
  }

  /** The flags a new request resolves. */
  function Requested(w: World, catalog: seq<Flag>, names: seq<string>): seq<Flag> {
    ToResolve(w, catalog, Continuation(names, [], []))
  }

  /** A discovery run that asks for nothing has the answer, whatever the store holds. No side condition. */
  lemma {:induction false} ResolvedAtOnce(w: World, catalog: seq<Flag>, names: seq<string>, store: seq<Record>)
    ensures Process(w, catalog, Deferred(names)).Resolved? ==>
              Process(w, catalog, Static(names, store)) == Process(w, catalog, Deferred(names))
  {
    var flags := Requested(w, catalog, names);
    var run := ResolveAll(w, Discovery, flags, []);
    NotedIsTheLookups([], run.lookups);
    if run.lookups == [] {
      RunIsLocal(w, Discovery, Complete(store), flags, []);
    } else {
      assert Asked(run.lookups, run.lookups[0].Key());
    }
  }

  /**
   The side conditions of suspend and resume. Segment references are acyclic; flag names are unique; rules that read a
   record have a name; and each flag's discovery run is clean.
   */
  ghost predicate Wellformed(w: World, catalog: seq<Flag>, names: seq<string>, rank: string -> nat) {
    && Acyclic(w, rank) && NamesDistinct(catalog)
    && (forall f :: f in Requested(w, catalog, names) ==> ReadersNamed(f.rules))
    && CleanFlags(w, Requested(w, catalog, names))
  }

  lemma {:induction false} ResumeSelectsPending(w: World, catalog: seq<Flag>, names: seq<string>, state: Continuation)
    requires NamesDistinct(catalog)
    requires var d := ResolveAll(w, Discovery, Requested(w, catalog, names), []);
             d.failure.None? && state.resolved == d.resolved && state.names == names
    ensures ToResolve(w, catalog, state) == Pending(w, Requested(w, catalog, names))
  {
    var initial := Continuation(names, [], []);
    var flags := Requested(w, catalog, names);
    Selected(w, catalog, initial);
    NothingIsDistinct();
    RunIsItsFlags(w, Discovery, flags, []);
    forall f | f in flags ensures IsResolved(state.resolved, f.name) <==> !Discovered(w, f).result.Missing? {
      DiscoveryResolves(w, flags, f.name);
      assert !Alone(w, Discovery, f).result.Failed?;
      if Finished(w, flags, f.name) {
        var g :| g in flags && g.name == f.name && Discovered(w, g).result.Done?;
        assert g == f;
      }
    }
    ResumeSelects(w, catalog, initial, state);
  }

  /** The response to the resume of a suspended request, in terms of the flags discovery left pending. */
  lemma {:induction false} ResumeRuns(w: World, catalog: seq<Flag>, names: seq<string>, fetched: seq<Record>)
    requires NamesDistinct(catalog) && Process(w, catalog, Deferred(names)).Suspended?
    ensures var flags := Requested(w, catalog, names);
            var d, first := ResolveAll(w, Discovery, flags, []), Process(w, catalog, Deferred(names));
            && d.failure.None? && first.toRead == Noted(Discovery, [], d.lookups)
            && var resumed := ResolveAll(w, Complete(fetched), Pending(w, flags), d.toWrite);
               Process(w, catalog, Resume(first.state, fetched)) ==
               if resumed.failure.Some? then Rejected(ResolveFailed(resumed.failure.value))
               else Resolved(d.resolved + resumed.resolved, resumed.toWrite)
  {
    hide ResolveAll, ToResolve;
    var flags := Requested(w, catalog, names);
    var d := ResolveAll(w, Discovery, flags, []);
    var state := Process(w, catalog, Deferred(names)).state;
    assert [] + d.resolved == d.resolved;
    assert state == Continuation(names, d.resolved, d.toWrite);
    ResumeSelectsPending(w, catalog, names, state);
    PendingIsShorter(w, flags);
    var resumed := ResolveAll(w, Complete(fetched), Pending(w, flags), d.toWrite);
    assert Noted(Complete(fetched), [], resumed.lookups) == [];
  }

  /**
   Suspend and resume refine the one run with the whole store in hand: a rejected discovery is rejected there too;
   and a resume with the store's answers to `to_read` gives every flag the same assignment and makes the same writes
   exactly when no pending flag had written a record before suspending, or the one run fails as well.
   */
  lemma {:induction false} SuspendResume(w: World, catalog: seq<Flag>, names: seq<string>, rank: string -> nat,
      store: seq<Record>, fetched: seq<Record>)
    requires Wellformed(w, catalog, names, rank)
    ensures var first, whole := Process(w, catalog, Deferred(names)), Process(w, catalog, Static(names, store));
            && (first.Rejected? ==> whole.Rejected?)
            && (first.Suspended? && Answers(fetched, store, first.toRead) ==>
                 (Same(Process(w, catalog, Resume(first.state, fetched)), whole)
                  <==> NoEarlyWrite(w, Requested(w, catalog, names)) || whole.Rejected?))
  {
    var flags := Requested(w, catalog, names);
    var first, whole := Process(w, catalog, Deferred(names)), Process(w, catalog, Static(names, store));
    DiscoveryFaultsShow(w, store, rank, flags);
    if first.Suspended? && Answers(fetched, store, first.toRead) {
      ResumeRuns(w, catalog, names, fetched);
      if NoEarlyWrite(w, flags) {
        ResumeAgrees(w, catalog, names, rank, store, fetched);
      } else {
        ResumeFails(w, catalog, names, rank, fetched);
      }
      RecordsNeverSuspend(w, catalog, Static(names, store));
    }
  }

  lemma {:induction false} ResumeAgrees(w: World, catalog: seq<Flag>, names: seq<string>, rank: string -> nat,
      store: seq<Record>, fetched: seq<Record>)
    requires Wellformed(w, catalog, names, rank) && NoEarlyWrite(w, Requested(w, catalog, names))
    requires var first := Process(w, catalog, Deferred(names));
             first.Suspended? && Answers(fetched, store, first.toRead)
    ensures var first := Process(w, catalog, Deferred(names));
            Same(Process(w, catalog, Resume(first.state, fetched)), Process(w, catalog, Static(names, store)))
  {
    var flags := Requested(w, catalog, names);
    var pending := Pending(w, flags);
    ResumeRuns(w, catalog, names, fetched);
    RunSeparates(w, store, rank, flags);
    RunAsksWell(w, flags, []);
    var d, c := ResolveAll(w, Discovery, flags, []), ResolveAll(w, Complete(store), flags, []);
    var p := ResolveAll(w, Complete(store), pending, d.toWrite);
    AnswersAgree(fetched, store, d.lookups, p.lookups);
    RunIsLocal(w, Complete(store), Complete(fetched), pending, d.toWrite);
    assert [] + c.resolved == c.resolved;
  }

  lemma {:induction false} ResumeFails(w: World, catalog: seq<Flag>, names: seq<string>, rank: string -> nat,
      fetched: seq<Record>)
    requires Wellformed(w, catalog, names, rank) && !NoEarlyWrite(w, Requested(w, catalog, names))
    requires Process(w, catalog, Deferred(names)).Suspended?
    ensures Process(w, catalog, Resume(Process(w, catalog, Deferred(names)).state, fetched)).Rejected?
  {
    var flags := Requested(w, catalog, names);
    ResumeRuns(w, catalog, names, fetched);
    EarlyWritesFail(w, flags, rank, fetched);
  }
}
