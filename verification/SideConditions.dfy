/**
 Side conditions that are needed. For each condition of `ProtocolLaws.SuspendResume`, one request that fails it alone,
 and whose answer then differs from the answer of the run with all records; only the uniqueness of flag names has none,
 as the map that holds the flags is keyed by their names. For the two conditions of
 `ConfigurationLaws.StickyByConfiguration` on what rules write, a request that is assigned otherwise when repeated.
 */
module SideConditions {
  import opened Wrappers
  import opened Materializations
  import opened Segments
  import opened SegmentLaws
  import opened Flags
  import opened FlagLaws
  import opened Protocol
  import opened ProtocolLaws
  import ConfigurationLaws
  import Sticky
  import Strings

  const EVERYONE := Range(0, 1)

  function On(target: Target): AssignmentSpec { AssignmentSpec([Assignment("a", Some(target), [EVERYONE])], 1) }

  function PlainRule(name: string, segment: string, selector: string, target: Target): Rule {
    Rule(name, true, [], segment, selector, Some(On(target)), None)
  }

  function Expression(e: Expr): Segment {
    Segment(Some(Targeting(map["member" := MaterializedSegment("m"), "broken" := Attribute("?"),
        "self" := SegmentRef("s/loop")], Some(e))))
  }

  /** A unit "u" under every selector but "bad", and one attribute criterion that is not recognized. */
  function Small(segments: map<string, Segment>): World {
    World(segments, map[], map[], text => Unrecognized, selector => if selector == "bad" then BadUnit
        else Unit("u"), key => 0,
          "accounts/x", "c", [])
  }

  function OneFlag(rules: seq<Rule>): seq<Flag> { [Flag("f", Active, ["c"], rules, ["on", "off"])] }

  const MEMBERED := [Record("u", "m", "", "")]

  function Below(segment: string): nat { if segment == "s/loop" then 0 else 1 }

  // ----- What a request may fail

  /** What discovery of a flag's rules may do that `FlagLaws.Clean` rules out. */
  datatype Flaw = FailsAfterLookup | LateBadKey | LateFault

  ghost function Flaws(w: World, rules: seq<Rule>, missing: bool): set<Flaw>
    decreases |rules|
  {
    if rules == [] then {}
    else
      var e := RuleEffect(w, Discovery, rules[0], missing);
      (if Speaks(w, rules[0]) then {} else {FailsAfterLookup})
      + (if e.action.BadKey? && e.missing then {LateBadKey} else {})
      + (if e.action.Fault? && e.missing then {LateFault} else {})
      + (if e.action.Pass? || (e.action.Assign? && e.action.chosen.target == Some(Fallthrough))
         then Flaws(w, rules[1..], e.missing) else {})
  }

  lemma {:induction false} CleanIsFlawless(w: World, rules: seq<Rule>, missing: bool)
    ensures Clean(w, rules, missing) <==> Flaws(w, rules, missing) == {}
    decreases |rules|
  {
    hide RuleEffect, Speaks;
    if rules != [] {
      CleanIsFlawless(w, rules[1..], RuleEffect(w, Discovery, rules[0], missing).missing);
      assert FailsAfterLookup in {FailsAfterLookup} && LateBadKey in {LateBadKey} && LateFault in {LateFault};
    }
  }

  /** The side conditions on names. */
  ghost predicate Named(w: World, catalog: seq<Flag>) {
    NamesDistinct(catalog) && forall f :: f in Requested(w, catalog, []) ==> ReadersNamed(f.rules)
  }

  /** Nothing is written early, and the discovery of each requested flag has these flaws and no others. */
  ghost predicate FlawedBy(w: World, catalog: seq<Flag>, flaws: set<Flaw>) {
    && NoEarlyWrite(w, Requested(w, catalog, []))
    && forall f :: f in Requested(w, catalog, []) ==> Flaws(w, f.rules, false) == flaws
  }

  /** The pair of responses the main theorem compares. */
  ghost predicate Diverges(w: World, catalog: seq<Flag>, store: seq<Record>, fetched: seq<Record>) {
    var first := Process(w, catalog, Deferred([]));
    && first.Suspended? && Answers(fetched, store, first.toRead)
    && !Same(Process(w, catalog, Resume(first.state, fetched)), Process(w, catalog, Static([], store)))
  }

  // ----- Requests for one flag

  /** A request for a single flag. */
  lemma {:induction false} ProcessOne(w: World, flag: Flag, request: Request)
    requires flag.state.Active? && w.client in flag.clients && Begin(request).0.names == []
    ensures var (state, rs) := Begin(request);
            var o := ResolveFlag(w, rs, flag, state.toWrite);
            var run := if IsResolved(state.resolved, flag.name) then Run(None, [], [], state.toWrite)
                       else if o.result.Failed? then Run(Some(o.result.error), [], o.lookups, o.toWrite)
                       else Run(None, ValueOf(o), o.lookups, o.toWrite);
            Process(w, [flag], request) == Conclude(state, rs, run)
  {
    hide ResolveFlag, Conclude;
    var (state, rs) := Begin(request);
    var o := ResolveFlag(w, rs, flag, state.toWrite);
    assert [flag][1..] == [] && ResolveAll(w, rs, [], o.toWrite) == Run(None, [], [], o.toWrite);
    assert o.lookups + [] == o.lookups && ValueOf(o) + [] == ValueOf(o);
    assert ToResolve(w, [flag], state) == if IsResolved(state.resolved, flag.name) then [] else [flag] by {
      assert ToResolve(w, [], state) == [];
    }
  }

  lemma {:induction false} RequestsOne(w: World, flag: Flag)
    requires flag.state.Active? && w.client in flag.clients
    ensures Requested(w, [flag], []) == [flag] && AllRules([flag]) == flag.rules
  {
    assert [flag][1..] == [] && ToResolve(w, [], Continuation([], [], [])) == [] && AllRules([]) == [];
    assert flag.rules + [] == flag.rules;
  }

  lemma {:induction false} FlawedOne(w: World, flag: Flag, flaws: set<Flaw>)
    requires flag.state.Active? && w.client in flag.clients && Flaws(w, flag.rules, false) == flaws
    requires Discovered(w, flag).result.Missing? ==> Discovered(w, flag).toWrite == []
    ensures FlawedBy(w, [flag], flaws) && NamesDistinct([flag]) && (ReadersNamed(flag.rules) ==> Named(w, [flag]))
  {
    hide Flaws, Discovered, ReadersNamed;
    RequestsOne(w, flag);
  }

  lemma {:induction false} FlawsOfLast(w: World, rule: Rule, missing: bool)
    ensures var e := RuleEffect(w, Discovery, rule, missing);
            Flaws(w, [rule], missing) == (if Speaks(w, rule) then {} else {FailsAfterLookup})
                + (if e.action.BadKey? && e.missing then {LateBadKey} else {})
                + (if e.action.Fault? && e.missing then {LateFault} else {})
  {
    hide RuleEffect, Speaks;
    assert [rule][1..] == [] && Flaws(w, [], RuleEffect(w, Discovery, rule, missing).missing) == {};
  }

  /** An undecided rule that speaks, in front of the last one. */
  lemma {:induction false} FlawsAfterUnknown(w: World, first: Rule, last: Rule)
    requires Speaks(w, first) && RuleEffect(w, Discovery, first, false) == Effect(true, [QUERY], Pass)
    ensures Flaws(w, [first, last], false) == Flaws(w, [last], true)
  {
    hide RuleEffect, Speaks;
    assert [first, last][1..] == [last];
  }

  lemma {:induction false} LastRule(w: World, rs: Records, flag: Flag, rule: Rule, missing: bool,
      falls: seq<Attribution>, toWrite: seq<Record>)
    ensures var e := RuleEffect(w, rs, rule, missing);
            var turn := Act(rs, flag, rule, e.action, falls, toWrite);
            ResolveRules(w, rs, flag, [rule], missing, falls, toWrite) ==
            if turn.End? then FlagOutcome(turn.result, e.lookups, turn.toWrite)
            else FlagOutcome(if e.missing then Missing else Done(NewValue(flag, turn.falls)), e.lookups, turn.toWrite)
  {
    hide RuleEffect, Act;
    var e := RuleEffect(w, rs, rule, missing);
    assert [rule][1..] == [] && e.lookups + [] == e.lookups;
  }

  lemma {:induction false} FirstOfTwo(w: World, rs: Records, flag: Flag, rule: Rule, last: Rule, toWrite: seq<Record>)
    ensures var e := RuleEffect(w, rs, rule, false);
            var turn := Act(rs, flag, rule, e.action, [], toWrite);
            ResolveRules(w, rs, flag, [rule, last], false, [], toWrite) ==
            if turn.End? then FlagOutcome(turn.result, e.lookups, turn.toWrite)
            else After(e.lookups, ResolveRules(w, rs, flag, [last], e.missing, turn.falls, turn.toWrite))
  {
    hide RuleEffect, Act;
    assert [rule, last][1..] == [last];
  }

  const QUERY := Membership("u", "m")

  predicate Closed(w: World) { w.bitsets == map[] && w.blooms == map[] }

  lemma {:induction false} MemberSegment(w: World, rs: Records)
    requires Closed(w) && "member" in w.segments && w.segments["member"] == Expression(Ref("member"))
    ensures SegmentMatch(Evaluation(w, Some("u"), rs), {}, "member") == Outcome(Verdict(AnswerTo(rs, QUERY)), [QUERY])
  {
    var ev, criteria := Evaluation(w, Some("u"), rs), w.segments["member"].targeting.value.criteria;
    assert EvaluateCriterion(ev, {} + {"member"}, criteria["member"]) == Outcome(Verdict(AnswerTo(rs, QUERY)), [QUERY]);
    assert Evaluate(ev, criteria, {} + {"member"}, Ref("member")) == Outcome(Verdict(AnswerTo(rs, QUERY)), [QUERY]);
  }

  lemma {:induction false} OpenSegment(w: World, unit: Option<string>, rs: Records)
    requires Closed(w) && "all" in w.segments && w.segments["all"] == Segment(None)
    ensures SegmentMatch(Evaluation(w, unit, rs), {}, "all") == Certain(true)
  {
  }

  lemma {:induction false} MemberRule(w: World, rule: Rule)
    requires Closed(w) && "member" in w.segments && w.segments["member"] == Expression(Ref("member"))
    requires rule == PlainRule(rule.name, "member", "", Variant("on")) && w.targetingKey(TARGETING_KEY) == Unit("u")
    ensures RuleEffect(w, Discovery, rule, false) == Effect(true, [QUERY], Pass) && Speaks(w, rule)
    ensures RuleEffect(w, Complete(MEMBERED), rule, false)
        == Effect(false, [QUERY], Assign(rule.spec.value.assignments[0], Some("u")))
  {
    MemberSegment(w, Discovery);
    MemberSegment(w, Complete(MEMBERED));
  }

  // ----- A bad targeting key

  const WORLD := Small(map["member" := Expression(Ref("member")), "all" := Segment(None)])

  const BAD_KEY := OneFlag([PlainRule("r1", "member", "", Variant("on")), PlainRule("r2", "all", "bad", ClientDefault)])

  lemma BadKeyEffect(rule: Rule)
    requires rule == BAD_KEY[0].rules[1]
    ensures RuleEffect(WORLD, Discovery, rule, true) == Effect(true, [], BadKey) && Speaks(WORLD, rule)
  {
  }

  lemma {:induction false} BadKeyOutcomes(flag: Flag)
    requires flag == BAD_KEY[0]
    ensures ResolveFlag(WORLD, Discovery, flag, [])
        == FlagOutcome(Done(ErrorValue(flag, [], TargetingKeyError)), [QUERY], [])
    ensures ResolveFlag(WORLD, Complete(MEMBERED), flag, [])
        == FlagOutcome(Done(MatchValue(flag, [], flag.rules[0], "on", "a", "u")), [QUERY], [])
    ensures Flaws(WORLD, flag.rules, false) == {LateBadKey}
  {
    hide RuleEffect, Speaks, Flaws;
    var w, r1, r2 := WORLD, flag.rules[0], flag.rules[1];
    BadKeyEffect(r2);
    MemberRule(w, r1);
    FirstOfTwo(w, Discovery, flag, r1, r2, []);
    LastRule(w, Discovery, flag, r2, true, [], []);
    FirstOfTwo(w, Complete(MEMBERED), flag, r1, r2, []);
    assert [QUERY] + [] == [QUERY];
    FlawsAfterUnknown(w, r1, r2);
    FlawsOfLast(w, r2, true);
  }

  /** A bad targeting key after an undecided rule is taken for the answer, though that rule would have matched. */
  lemma {:induction false} KeyErrorAfterUnknown()
    ensures Acyclic(WORLD, Below) && Named(WORLD, BAD_KEY) && FlawedBy(WORLD, BAD_KEY, {LateBadKey})
    ensures Diverges(WORLD, BAD_KEY, MEMBERED, MEMBERED)
  {
    hide RuleEffect, Process, ResolveFlag, Flaws;
    var flag := BAD_KEY[0];
    BadKeyOutcomes(flag);
    Finishes(WORLD, flag, MEMBERED, ErrorValue(flag, [], TargetingKeyError),
        MatchValue(flag, [], flag.rules[0], "on", "a", "u"));
    FlawedOne(WORLD, flag, {LateBadKey});
  }

  /** A flag that discovery takes for finished, with another answer than the records give. */
  lemma {:induction false} Finishes(w: World, flag: Flag, store: seq<Record>, value: AssignedFlag, value': AssignedFlag)
    requires flag.state.Active? && w.client in flag.clients && value.flag == flag.name
    requires ResolveFlag(w, Discovery, flag, []) == FlagOutcome(Done(value), [QUERY], [])
    requires ResolveFlag(w, Complete(store), flag, []) == FlagOutcome(Done(value'), [QUERY], [])
    requires value != value'
    ensures Diverges(w, [flag], store, store)
  {
    hide ResolveFlag, Process;
    var state := Continuation([], [value], []);
    ProcessOne(w, flag, Deferred([]));
    ProcessOne(w, flag, Resume(state, store));
    ProcessOne(w, flag, Static([], store));
    assert WithKey([], QUERY.Key()) == [QUERY.Key()];
    assert Noted(Discovery, [], [QUERY]) == [QUERY.Key()];
    assert value in state.resolved && [value] + [] == [value];
    assert Process(w, [flag], Deferred([])) == Suspended([QUERY.Key()], state);
    assert Process(w, [flag], Resume(state, store)) == Resolved([value], []);
    assert Process(w, [flag], Static([], store)) == Resolved([value'], []);
    assert multiset([value])[value] == 1 && multiset([value'])[value] == 0;
  }

  // ----- A criterion that fails after a lookup

  const EITHER := Small(map["either" := Expression(Or([Ref("member"), Ref("broken")]))])
  const LATE_FAILURE := OneFlag([PlainRule("r", "either", "", Variant("on"))])

  lemma {:induction false} EitherRule(rule: Rule)
    requires rule == LATE_FAILURE[0].rules[0]
    ensures RuleEffect(EITHER, Discovery, rule, false) == Effect(false, [QUERY], Pass) && !Speaks(EITHER, rule)
    ensures RuleEffect(EITHER, Complete(MEMBERED), rule, false)
        == Effect(false, [QUERY], Assign(rule.spec.value.assignments[0], Some("u")))
  {
    hide SegmentMatch;
    EitherSegment(EITHER, Discovery);
    EitherSegment(EITHER, Complete(MEMBERED));
  }

  /** A criterion that fails after a lookup drops its rule for good, though with the record the rule would match. */
  lemma {:induction false} FailureAfterLookup()
    ensures Acyclic(EITHER, Below) && Named(EITHER, LATE_FAILURE)
    ensures FlawedBy(EITHER, LATE_FAILURE, {FailsAfterLookup})
    ensures Diverges(EITHER, LATE_FAILURE, MEMBERED, MEMBERED)
  {
    hide RuleEffect, Process, Speaks, Flaws;
    var w, flag := EITHER, LATE_FAILURE[0];
    var r := flag.rules[0];
    EitherRule(r);
    LastRule(w, Discovery, flag, r, false, [], []);
    LastRule(w, Complete(MEMBERED), flag, r, false, [], []);
    Finishes(w, flag, MEMBERED, NewValue(flag, []), MatchValue(flag, [], r, "on", "a", "u"));
    FlawsOfLast(w, r, false);
    FlawedOne(w, flag, {FailsAfterLookup});
  }

  lemma {:induction false} EitherSegment(w: World, rs: Records)
    requires Closed(w) && "either" in w.segments
        && w.segments["either"] == Expression(Or([Ref("member"), Ref("broken")]))
    requires !rs.Unsupported? && w.attribute("?").Unrecognized?
    ensures SegmentMatch(Evaluation(w, Some("u"), rs), {}, "either") ==
            Outcome(if AnswerTo(rs, QUERY).Present? then Ok(Known(true)) else Err(UnrecognizedRule), [QUERY])
  {
    var ev, criteria, visited := Evaluation(w, Some("u"), rs), w.segments["either"].targeting.value.criteria, {}
        + {"either"};
    var ops := [Ref("member"), Ref("broken")];
    assert EvaluateCriterion(ev, visited, criteria["member"]) == Outcome(Verdict(AnswerTo(rs, QUERY)), [QUERY]);
    assert Evaluate(ev, criteria, visited, ops[0]) == Outcome(Verdict(AnswerTo(rs, QUERY)), [QUERY]);
    assert EvaluateCriterion(ev, visited, criteria["broken"]) == Outcome(Err(UnrecognizedRule), []);
    assert ops[1..] == [Ref("broken")] && [QUERY] + [] == [QUERY];
    assert EvaluateAll(ev, criteria, visited, ops[1..], true, !rs.Complete?) == Outcome(Err(UnrecognizedRule), []) by {
      assert Evaluate(ev, criteria, visited, Ref("broken")) == Outcome(Err(UnrecognizedRule), []);
    }
    assert EvaluateAll(ev, criteria, visited, ops, true, false)
        == Outcome(if AnswerTo(rs, QUERY).Present? then Ok(Known(true)) else Err(UnrecognizedRule), [QUERY]);
    assert Evaluate(ev, criteria, visited, Or(ops)) == EvaluateAll(ev, criteria, visited, ops, true, false);
    assert TargetingMatch(ev, visited, "either") == Evaluate(ev, criteria, visited, Or(ops));
  }

  // ----- A fault

  const FAULTY := Small(map["member" := Expression(Ref("member")), "faulty" := Expression(Ref("broken"))]).(
      attribute := text => Broken)
  const LATE_FAULT := OneFlag([PlainRule("r1", "member", "", Variant("on")),
                               PlainRule("r2", "faulty", "", Variant("on"))])

  lemma {:induction false} FaultySegment()
    ensures SegmentMatch(Evaluation(FAULTY, Some("u"), Discovery), {}, "faulty") == Outcome(Err(Internal), [])
  {
    var ev, visited := Evaluation(FAULTY, Some("u"), Discovery), {} + {"faulty"};
    var criteria := FAULTY.segments["faulty"].targeting.value.criteria;
    assert EvaluateCriterion(ev, visited, criteria["broken"]) == Outcome(Err(Internal), []);
    assert Evaluate(ev, criteria, visited, Ref("broken")) == Outcome(Err(Internal), []);
    assert TargetingMatch(ev, visited, "faulty") == Outcome(Err(Internal), []);
  }

  lemma {:induction false} FaultEffect(rule: Rule)
    requires rule == LATE_FAULT[0].rules[1]
    ensures RuleEffect(FAULTY, Discovery, rule, true) == Effect(true, [], Fault(Internal)) && Speaks(FAULTY, rule)
  {
    hide SegmentMatch;
    FaultySegment();
  }

  lemma {:induction false} FaultOutcomes(flag: Flag)
    requires flag == LATE_FAULT[0]
    ensures ResolveFlag(FAULTY, Discovery, flag, []) == FlagOutcome(Failed(Internal), [QUERY], [])
    ensures ResolveFlag(FAULTY, Complete(MEMBERED), flag, [])
        == FlagOutcome(Done(MatchValue(flag, [], flag.rules[0], "on", "a", "u")), [QUERY], [])
    ensures Flaws(FAULTY, flag.rules, false) == {LateFault}
  {
    hide RuleEffect, Speaks, Flaws;
    var w, r1, r2 := FAULTY, flag.rules[0], flag.rules[1];
    FaultEffect(r2);
    MemberRule(w, r1);
    FirstOfTwo(w, Discovery, flag, r1, r2, []);
    LastRule(w, Discovery, flag, r2, true, [], []);
    FirstOfTwo(w, Complete(MEMBERED), flag, r1, r2, []);
    assert [QUERY] + [] == [QUERY];
    FlawsAfterUnknown(w, r1, r2);
    FlawsOfLast(w, r2, true);
  }

  /** A fault after an undecided rule rejects the request, though that rule would have matched. */
  lemma {:induction false} FaultAfterUnknown()
    ensures Acyclic(FAULTY, Below) && Named(FAULTY, LATE_FAULT) && FlawedBy(FAULTY, LATE_FAULT, {LateFault})
    ensures Process(FAULTY, LATE_FAULT, Deferred([])).Rejected?
    ensures Process(FAULTY, LATE_FAULT, Static([], MEMBERED)).Resolved?
  {
    hide RuleEffect, ResolveFlag, Flaws, Process;
    var flag := LATE_FAULT[0];
    FaultOutcomes(flag);
    ProcessOne(FAULTY, flag, Deferred([]));
    ProcessOne(FAULTY, flag, Static([], MEMBERED));
    FlawedOne(FAULTY, flag, {LateFault});
  }

  // ----- An early write

  function Writer(): Rule {
    PlainRule("r1", "all", "", Fallthrough).(materialization := Some(MaterializationSpec("", "w", None)))
  }

  const EARLY_WRITE := OneFlag([Writer(), PlainRule("r2", "member", "", Variant("on"))])
  const WRITTEN := Record("u", "w", "r1", "")
  const FALL := Attribution("r1", "a", "u", "")

  lemma {:induction false} WriterWrites(rs: Records, flag: Flag)
    requires !rs.Unsupported?
    ensures var rule, e := Writer(), RuleEffect(WORLD, rs, Writer(), false);
            && e == Effect(false, [], Assign(rule.spec.value.assignments[0], Some("u"))) && Speaks(WORLD, rule)
            && Act(rs, flag, rule, e.action, [], []) == Next([FALL], [WRITTEN])
            && Act(rs, flag, rule, e.action, [], [WRITTEN]) == End(Failed(Internal), [WRITTEN])
  {
    OpenSegment(WORLD, Some("u"), rs);
    OpenSegment(WORLD, Some("u"), Discovery);
    assert WRITTEN in [WRITTEN];
  }

  lemma {:induction false} WriterDiscovers(flag: Flag)
    requires flag == EARLY_WRITE[0]
    ensures ResolveFlag(WORLD, Discovery, flag, []) == FlagOutcome(Missing, [QUERY], [WRITTEN])
    ensures Flaws(WORLD, flag.rules, false) == {}
  {
    hide RuleEffect, Speaks;
    var w, r1, r2 := WORLD, flag.rules[0], flag.rules[1];
    WriterWrites(Discovery, flag);
    MemberRule(w, r2);
    FirstOfTwo(w, Discovery, flag, r1, r2, []);
    LastRule(w, Discovery, flag, r2, false, [FALL], [WRITTEN]);
    FlawsOfLast(w, r2, false);
    assert [] + [QUERY] == [QUERY] && flag.rules[1..] == [r2];
  }

  lemma {:induction false} WriterResumes(flag: Flag)
    requires flag == EARLY_WRITE[0]
    ensures ResolveFlag(WORLD, Complete(MEMBERED), flag, [])
        == FlagOutcome(Done(MatchValue(flag, [FALL], flag.rules[1], "on", "a", "u")), [QUERY], [WRITTEN])
    ensures ResolveFlag(WORLD, Complete(MEMBERED), flag, [WRITTEN]).result == Failed(Internal)
  {
    hide RuleEffect;
    var w, r1, r2 := WORLD, flag.rules[0], flag.rules[1];
    WriterWrites(Complete(MEMBERED), flag);
    MemberRule(w, r2);
    FirstOfTwo(w, Complete(MEMBERED), flag, r1, r2, []);
    LastRule(w, Complete(MEMBERED), flag, r2, false, [FALL], [WRITTEN]);
    FirstOfTwo(w, Complete(MEMBERED), flag, r1, r2, [WRITTEN]);
    assert [] + [QUERY] == [QUERY];
  }

  /** A fallthrough that writes before an undecided rule makes the resume fail where the one run succeeds. */
  lemma {:induction false} WriteBeforeUnknown()
    ensures Wellformed(WORLD, EARLY_WRITE, [], Below)
    ensures !NoEarlyWrite(WORLD, Requested(WORLD, EARLY_WRITE, []))
    ensures Diverges(WORLD, EARLY_WRITE, MEMBERED, MEMBERED)
  {
    hide RuleEffect, Process, ResolveFlag, Flaws, Clean;
    var flag := EARLY_WRITE[0];
    WriterDiscovers(flag);
    WriterResumes(flag);
    Fails(WORLD, flag, MEMBERED, WRITTEN, MatchValue(flag, [FALL], flag.rules[1], "on", "a", "u"));
    RequestsOne(WORLD, flag);
    CleanIsFlawless(WORLD, flag.rules, false);
    assert Discovered(WORLD, flag).toWrite == [WRITTEN];
  }

  lemma {:induction false} Fails(w: World, flag: Flag, store: seq<Record>, record: Record, value: AssignedFlag)
    requires flag.state.Active? && w.client in flag.clients
    requires ResolveFlag(w, Discovery, flag, []) == FlagOutcome(Missing, [QUERY], [record])
    requires ResolveFlag(w, Complete(store), flag, []) == FlagOutcome(Done(value), [QUERY], [record])
    requires ResolveFlag(w, Complete(store), flag, [record]).result == Failed(Internal)
    ensures Diverges(w, [flag], store, store)
  {
    hide ResolveFlag, Process;
    var state := Continuation([], [], [record]);
    ProcessOne(w, flag, Deferred([]));
    ProcessOne(w, flag, Resume(state, store));
    ProcessOne(w, flag, Static([], store));
    assert WithKey([], QUERY.Key()) == [QUERY.Key()];
    assert Noted(Discovery, [], [QUERY]) == [QUERY.Key()];
    assert Process(w, [flag], Deferred([])) == Suspended([QUERY.Key()], state);
  }

  // ----- A segment that refers to itself

  function Loop(): Expr { Or([Not(Ref("self")), And([Ref("self"), Ref("member")])]) }

  lemma {:induction false} LoopSegment(w: World, rs: Records)
    requires Closed(w) && "s/loop" in w.segments && w.segments["s/loop"] == Expression(Loop())
    ensures SegmentMatch(Evaluation(w, Some("u"), rs), {}, "s/loop") == Certain(true)
  {
    var ev, criteria, v := Evaluation(w, Some("u"), rs), w.segments["s/loop"].targeting.value.criteria, {} + {"s/loop"};
    assert EvaluateCriterion(ev, v, criteria["self"]) == Certain(false);
    assert Evaluate(ev, criteria, v, Ref("self")) == Certain(false);
    assert Evaluate(ev, criteria, v, Loop().operands[0]) == Certain(true);
    assert EvaluateAll(ev, criteria, v, Loop().operands, true, false) == Certain(true);
    assert Evaluate(ev, criteria, v, Loop()) == Certain(true);
    assert TargetingMatch(ev, v, "s/loop") == Certain(true);
  }

  /** Evaluated with an empty path, as for a sticky record, the segment asks for a membership it had not asked for. */
  lemma {:induction false} LoopTargeting(w: World, records: seq<Record>)
    requires Closed(w) && "s/loop" in w.segments && w.segments["s/loop"] == Expression(Loop())
    ensures TargetingMatch(Evaluation(w, Some("u"), Complete(records)), {}, "s/loop")
        == Outcome(Ok(Known(First(records, QUERY).Some?)), [QUERY])
  {
    var ev, criteria := Evaluation(w, Some("u"), Complete(records)), w.segments["s/loop"].targeting.value.criteria;
    var both, found := [Ref("self"), Ref("member")], First(records, QUERY).Some?;
    LoopSegment(w, Complete(records));
    assert EvaluateCriterion(ev, {}, criteria["self"]) == Certain(true);
    assert EvaluateCriterion(ev, {}, criteria["member"]) == Outcome(Ok(Known(found)), [QUERY]);
    assert Evaluate(ev, criteria, {}, Ref("self")) == Certain(true);
    assert Evaluate(ev, criteria, {}, Ref("member")) == Outcome(Ok(Known(found)), [QUERY]);
    assert Evaluate(ev, criteria, {}, Not(Ref("self"))) == Certain(false);
    assert both[1..] == [Ref("member")] && [QUERY] + [] == [QUERY] && [] + [QUERY] == [QUERY];
    assert EvaluateAll(ev, criteria, {}, [Ref("member")], false, false) == Outcome(Ok(Known(found)), [QUERY]);
    assert EvaluateAll(ev, criteria, {}, both, false, false) == Outcome(Ok(Known(found)), [QUERY]);
    assert Evaluate(ev, criteria, {}, And(both)) == Outcome(Ok(Known(found)), [QUERY]);
    assert Loop().operands[1..] == [And(both)];
    assert EvaluateAll(ev, criteria, {}, [And(both)], true, false) == Outcome(Ok(Known(found)), [QUERY]);
    assert EvaluateAll(ev, criteria, {}, Loop().operands, true, false) == Outcome(Ok(Known(found)), [QUERY]);
    assert Evaluate(ev, criteria, {}, Loop()) == Outcome(Ok(Known(found)), [QUERY]);
  }

  const ON_FIRST := Assignment("on", Some(Variant("on")), [EVERYONE])
  const OFF_NEVER := Assignment("off", Some(Variant("off")), [])
  const STUCK := Record("u", "w", "r", "off")
  const OWN_RECORD := RuleRecord("u", "w", "r")

  function LoopRule(): Rule {
    Rule("r", true, [], "s/loop", "", Some(AssignmentSpec([ON_FIRST, OFF_NEVER], 1)),
        Some(MaterializationSpec("w", "w", None)))
  }

  function LoopWorld(): World { Small(map["s/loop" := Expression(Loop())]) }

  const LOOP := OneFlag([LoopRule()])

  lemma {:induction false} FirstIsSelected(w: World, segment: string, salt: string)
    requires Strings.Split(segment, '/') == ["s", salt] && w.hash(salt + "|" + "u") == 0
    ensures RuleBucket(w, segment, "u", 1) == Ok(0)
    ensures FirstInBucket([ON_FIRST, OFF_NEVER], 0) == Some(ON_FIRST)
        && WithVariant([ON_FIRST, OFF_NEVER], "off") == [OFF_NEVER]
  {
    assert InRanges(ON_FIRST.ranges, 0) by { assert ON_FIRST.ranges[0].lower <= 0 < ON_FIRST.ranges[0].upper; }
    assert [ON_FIRST, OFF_NEVER][1..] == [OFF_NEVER] && [OFF_NEVER][1..] == []
        && WithVariant([OFF_NEVER], "off") == [OFF_NEVER];
  }

  lemma {:induction false} LoopRuleDiscovers()
    ensures RuleEffect(LoopWorld(), Discovery, LoopRule(), false) == Effect(true, [OWN_RECORD], Pass)
    ensures Speaks(LoopWorld(), LoopRule())
  {
    hide SegmentMatch;
    LoopSegment(LoopWorld(), Discovery);
    assert [OWN_RECORD] + [] == [OWN_RECORD];
  }

  lemma {:induction false} LoopRuleSticks()
    ensures RuleEffect(LoopWorld(), Complete([STUCK] + MEMBERED), LoopRule(), false)
        == Effect(false, [OWN_RECORD, QUERY], Sticky(OFF_NEVER, "u"))
  {
    hide SegmentMatch, TargetingMatch, RuleBucket, FirstInBucket, WithVariant, Strings.Split;
    var w := LoopWorld();
    LoopTargeting(w, [STUCK] + MEMBERED);
    SplitSegment("loop");
    assert "s/" + "loop" == "s/loop";
    FirstIsSelected(w, "s/loop", "loop");
    assert First([STUCK] + MEMBERED, QUERY).Some? by { assert ([STUCK] + MEMBERED)[1..] == MEMBERED; }
    assert [OWN_RECORD] + [QUERY] == [OWN_RECORD, QUERY];
  }

  lemma {:induction false} LoopRuleAssigns()
    ensures RuleEffect(LoopWorld(), Complete([STUCK]), LoopRule(), false)
        == Effect(false, [OWN_RECORD, QUERY], Assign(ON_FIRST, Some("u")))
  {
    hide SegmentMatch, TargetingMatch, RuleBucket, FirstInBucket, WithVariant, Strings.Split;
    var w := LoopWorld();
    LoopSegment(w, Complete([STUCK]));
    LoopTargeting(w, [STUCK]);
    SplitSegment("loop");
    assert "s/" + "loop" == "s/loop";
    FirstIsSelected(w, "s/loop", "loop");
    assert First([STUCK], QUERY).None? by { assert [STUCK][1..] == []; }
    assert [OWN_RECORD] + [QUERY] == [OWN_RECORD, QUERY] && [QUERY] + [] == [QUERY];
  }

  lemma {:induction false} SplitSegment(salt: string)
    requires '/' !in salt
    ensures Strings.Split("s/" + salt, '/') == ["s", salt]
  {
    Strings.SplitFirst("s", '/', salt);
    Strings.SplitFirst(salt, '/', "");
    assert "s/" + salt == "s" + ['/'] + salt && salt + "" == salt;
  }

  /** With a cyclic segment the fetched records answer all that was asked, and still not all that is asked then. */
  lemma {:induction false} CyclicSegment()
    ensures forall rank: string -> nat :: !Acyclic(LoopWorld(), rank)
    ensures Named(LoopWorld(), LOOP) && FlawedBy(LoopWorld(), LOOP, {})
    ensures Diverges(LoopWorld(), LOOP, [STUCK] + MEMBERED, [STUCK])
  {
    hide RuleEffect, Speaks, Flaws, Process;
    var w, rule, store, fetched := LoopWorld(), LoopRule(), [STUCK] + MEMBERED, [STUCK];
    var flag := LOOP[0];
    LoopRuleDiscovers();
    LoopRuleSticks();
    LoopRuleAssigns();
    LastRule(w, Discovery, flag, rule, false, [], []);
    LastRule(w, Complete(store), flag, rule, false, [], []);
    LastRule(w, Complete(fetched), flag, rule, false, [], []);
    var on, off := MatchValue(flag, [], rule, "on", "on", "u"), MatchValue(flag, [], rule, "off", "off", "u");
    Resumes(w, flag, OWN_RECORD, store, fetched, on, off);
    FlawsOfLast(w, rule, false);
    FlawedOne(w, flag, {});
    LoopIsCyclic();
  }

  lemma LoopIsCyclic()
    ensures forall rank: string -> nat :: !Acyclic(LoopWorld(), rank)
  {
    var criteria := LoopWorld().segments["s/loop"].targeting.value.criteria;
    assert "self" in criteria && criteria["self"] == SegmentRef("s/loop");
  }

  /** A pending flag that the fetched records answer otherwise than the store. */
  lemma {:induction false} Resumes(w: World, flag: Flag, q: Query, store: seq<Record>, fetched: seq<Record>,
      value: AssignedFlag, value': AssignedFlag)
    requires flag.state.Active? && w.client in flag.clients && value != value'
    requires ResolveFlag(w, Discovery, flag, []) == FlagOutcome(Missing, [q], [])
    requires ResolveFlag(w, Complete(fetched), flag, []).result == Done(value)
    requires ResolveFlag(w, Complete(store), flag, []).result == Done(value')
    requires AnswerTo(Complete(fetched), Asks(q.Key())) == AnswerTo(Complete(store), Asks(q.Key()))
    ensures Diverges(w, [flag], store, fetched)
  {
    hide ResolveFlag, Process;
    var state := Continuation([], [], []);
    ProcessOne(w, flag, Deferred([]));
    ProcessOne(w, flag, Resume(state, fetched));
    ProcessOne(w, flag, Static([], store));
    assert WithKey([], q.Key()) == [q.Key()];
    assert Noted(Discovery, [], [q]) == [q.Key()];
    assert Process(w, [flag], Deferred([])) == Suspended([q.Key()], state);
    assert Process(w, [flag], Resume(state, fetched)).flags == [value];
    assert Process(w, [flag], Static([], store)).flags == [value'];
    assert multiset([value])[value] == 1 && multiset([value'])[value] == 0;
  }

  // ----- A rule without a name

  const OPEN := Small(map["s/all" := Segment(None)])
  const NAMELESS := Rule("", true, [], "s/all", "", Some(AssignmentSpec([ON_FIRST, OFF_NEVER], 1)),
                         Some(MaterializationSpec("w", "w", None)))
  const UNNAMED := OneFlag([NAMELESS])
  const NAMELESS_RECORD := RuleRecord("u", "w", "")

  /** The store has the rule's record; what is fetched has another of the unit and materialization. */
  const OWN := [Record("u", "w", "", "off")]
  const OTHER := [Record("u", "w", "x", "")]

  lemma {:induction false} NamelessEffects()
    ensures RuleEffect(OPEN, Discovery, NAMELESS, false) == Effect(true, [NAMELESS_RECORD], Pass)
    ensures RuleEffect(OPEN, Complete(OWN), NAMELESS, false) == Effect(false, [NAMELESS_RECORD], Sticky(OFF_NEVER, "u"))
    ensures RuleEffect(OPEN, Complete(OTHER), NAMELESS, false)
        == Effect(false, [NAMELESS_RECORD], Assign(ON_FIRST, Some("u")))
    ensures Speaks(OPEN, NAMELESS)
  {
    hide RuleBucket, FirstInBucket, WithVariant, Strings.Split;
    SplitSegment("all");
    assert "s/" + "all" == "s/all";
    FirstIsSelected(OPEN, "s/all", "all");
    assert OTHER[1..] == [] && First([], NAMELESS_RECORD).None?;
    assert [NAMELESS_RECORD] + [] == [NAMELESS_RECORD];
  }

  /** A rule without a name asks for its record as for a membership, which any record of its materialization answers. */
  lemma {:induction false} UnnamedReader()
    ensures Acyclic(OPEN, Below) && NamesDistinct(UNNAMED) && FlawedBy(OPEN, UNNAMED, {})
    ensures !ReadersNamed(UNNAMED[0].rules) && Requested(OPEN, UNNAMED, []) == UNNAMED
    ensures Diverges(OPEN, UNNAMED, OWN, OTHER)
  {
    hide RuleEffect, Speaks, Flaws, Process;
    var w, rule, flag := OPEN, NAMELESS, UNNAMED[0];
    NamelessEffects();
    LastRule(w, Discovery, flag, rule, false, [], []);
    LastRule(w, Complete(OWN), flag, rule, false, [], []);
    LastRule(w, Complete(OTHER), flag, rule, false, [], []);
    var on, off := MatchValue(flag, [], rule, "on", "on", "u"), MatchValue(flag, [], rule, "off", "off", "u");
    Resumes(w, flag, NAMELESS_RECORD, OWN, OTHER, on, off);
    FlawsOfLast(w, rule, false);
    FlawedOne(w, flag, {});
    RequestsOne(w, flag);
    assert rule in flag.rules;
  }

  // ----- A membership that a rule writes

  /** Assigns every unit, and makes it a member of the segment that the rule before it asks for. */
  function Enroller(): Rule {
    PlainRule("r2", "all", "", Variant("off")).(materialization := Some(MaterializationSpec("", "m", None)))
  }

  const ENROLLED := Record("u", "m", "r2", "off")

  lemma {:induction false} EnrollerAssigns()
    ensures RuleEffect(WORLD, Complete([]), Enroller(), false)
        == Effect(false, [], Assign(Enroller().spec.value.assignments[0], Some("u")))
  {
    OpenSegment(WORLD, Some("u"), Complete([]));
  }

  lemma {:induction false} MemberRuleOver(records: seq<Record>, rule: Rule)
    requires rule == PlainRule("r1", "member", "", Variant("on"))
    ensures RuleEffect(WORLD, Complete(records), rule, false) == Effect(false, [QUERY],
        if First(records, QUERY).Some? then Assign(rule.spec.value.assignments[0], Some("u")) else Pass)
  {
    MemberSegment(WORLD, Complete(records));
  }

  const ENROLLING := OneFlag([PlainRule("r1", "member", "", Variant("on")), Enroller()])

  lemma {:induction false} EnrollsOnce(flag: Flag)
    requires flag == ENROLLING[0]
    ensures ResolveFlag(WORLD, Complete([]), flag, [])
        == FlagOutcome(Done(MatchValue(flag, [], Enroller(), "off", "a", "u")), [QUERY], [ENROLLED])
    ensures ResolveFlag(WORLD, Complete([ENROLLED]), flag, []).result
        == Done(MatchValue(flag, [], flag.rules[0], "on", "a", "u"))
  {
    hide RuleEffect;
    var w, r1, r2 := WORLD, flag.rules[0], flag.rules[1];
    MemberRuleOver([], r1);
    MemberRuleOver([ENROLLED], r1);
    EnrollerAssigns();
    FirstOfTwo(w, Complete([]), flag, r1, r2, []);
    LastRule(w, Complete([]), flag, r2, false, [], []);
    FirstOfTwo(w, Complete([ENROLLED]), flag, r1, r2, []);
    assert [QUERY] + [] == [QUERY] && [] + [ENROLLED] == [ENROLLED];
  }

  /** The request is answered otherwise once its own writes are stored. */
  ghost predicate Unsticks(w: World, catalog: seq<Flag>, before: seq<Record>, after: seq<Record>) {
    var first, again := Process(w, catalog, Static([], before)), Process(w, catalog, Static([], after));
    first.Resolved? && again.Resolved? && Sticky.Stored(before, first.toWrite, after) && again.flags != first.flags
  }

  lemma {:induction false} UnsticksOne(w: World, flag: Flag, record: Record, value: AssignedFlag, value': AssignedFlag)
    requires flag.state.Active? && w.client in flag.clients && value != value'
    requires var o := ResolveFlag(w, Complete([]), flag, []); o.result == Done(value) && o.toWrite == [record]
    requires ResolveFlag(w, Complete([record]), flag, []).result == Done(value')
    ensures Unsticks(w, [flag], [], [record])
  {
    hide ResolveFlag, Process;
    ProcessOne(w, flag, Static([], []));
    ProcessOne(w, flag, Static([], [record]));
    assert Process(w, [flag], Static([], [])) == Resolved([value], [record]);
    assert Process(w, [flag], Static([], [record])).flags == [value'];
    assert [value][0] != [value'][0];
    OneIsStored(record);
  }

  lemma MemberIsReferenced()
    ensures ConfigurationLaws.Referenced(WORLD, "m")
  {
    var criteria := WORLD.segments["member"].targeting.value.criteria;
    assert "member" in criteria && criteria["member"] == MaterializedSegment("m");
    assert ConfigurationLaws.InCriteria(criteria, "m");
  }

  /** A rule that writes a materialization its own flag targets: repeated after its write, the request changes. */
  lemma {:induction false} WrittenMembership()
    ensures Acyclic(WORLD, Below) && Sticky.WritersDistinct(AllRules(Requested(WORLD, ENROLLING, [])))
    ensures ConfigurationLaws.Referenced(WORLD, "m") && Enroller().materialization.value.write == "m"
    ensures Unsticks(WORLD, ENROLLING, [], [ENROLLED])
  {
    hide ResolveFlag, Process, Unsticks;
    var flag := ENROLLING[0];
    MemberIsReferenced();
    EnrollsOnce(flag);
    RequestsOne(WORLD, flag);
    UnsticksOne(WORLD, flag, ENROLLED, MatchValue(flag, [], Enroller(), "off", "a", "u"),
                MatchValue(flag, [], flag.rules[0], "on", "a", "u"));
  }

  lemma OneIsStored(record: Record)
    ensures Sticky.Stored([], [record], [record])
  {
  }

  // ----- A name that two rules share

  /** Reads the record that the rule after it writes, as the two have one name, and matches nobody by itself. */
  function Reader(): Rule {
    Rule("r", true, [], "none", "", Some(On(Variant("on"))),
         Some(MaterializationSpec("w", "w", Some(ReadMode(true, false)))))
  }

  function Namesake(): Rule {
    PlainRule("r", "all", "", Variant("on")).(materialization := Some(MaterializationSpec("", "w", None)))
  }

  const SHARED := OneFlag([Reader(), Namesake()])
  const NOBODY := Small(map["none" := Expression(Empty), "all" := Segment(None)])
  const ASSIGNED := Record("u", "w", "r", "on")

  lemma {:induction false} SharedEffects()
    ensures var a := Reader().spec.value.assignments[0];
            && RuleEffect(NOBODY, Complete([]), Reader(), false) == Effect(false, [OWN_RECORD], Pass)
            && RuleEffect(NOBODY, Complete([ASSIGNED]), Reader(), false) == Effect(false, [OWN_RECORD], Sticky(a, "u"))
            && RuleEffect(NOBODY, Complete([]), Namesake(), false) == Effect(false, [], Assign(a, Some("u")))
  {
    OpenSegment(NOBODY, Some("u"), Complete([]));
    var ev := Evaluation(NOBODY, Some("u"), Complete([]));
    assert Evaluate(ev, NOBODY.segments["none"].targeting.value.criteria, {} + {"none"}, Empty) == Certain(false);
    assert SegmentMatch(ev, {}, "none") == Certain(false);
    assert [OWN_RECORD] + [] == [OWN_RECORD];
    var assignments := Reader().spec.value.assignments;
    assert assignments[1..] == [] && WithVariant(assignments, "on") == [assignments[0]];
  }

  /** Two rules of one name, of which one reads what the other writes: repeated after its write, the request changes. */
  lemma {:induction false} SharedRuleName()
    ensures var rules := AllRules(Requested(NOBODY, SHARED, []));
            && Acyclic(NOBODY, Below) && ConfigurationLaws.WritesApart(NOBODY, rules) && !Sticky.WritersDistinct(rules)
    ensures Unsticks(NOBODY, SHARED, [], [ASSIGNED])
  {
    hide RuleEffect, Process, Unsticks, Act, ConfigurationLaws.Referenced;
    var w, flag := NOBODY, SHARED[0];
    SharedOutcomes(flag);
    UnsticksOne(w, flag, ASSIGNED, MatchValue(flag, [], Namesake(), "on", "a", "u"),
                MatchValue(flag, [], Reader(), "on", "a", "u"));
    RequestsOne(w, flag);
    NothingReferenced();
  }

  lemma {:induction false} SharedOutcomes(flag: Flag)
    requires flag == SHARED[0]
    ensures var o := ResolveFlag(NOBODY, Complete([]), flag, []);
            o.result == Done(MatchValue(flag, [], Namesake(), "on", "a", "u")) && o.toWrite == [ASSIGNED]
    ensures ResolveFlag(NOBODY, Complete([ASSIGNED]), flag, []).result
        == Done(MatchValue(flag, [], Reader(), "on", "a", "u"))
  {
    hide RuleEffect;
    SharedEffects();
    FirstOfTwo(NOBODY, Complete([]), flag, Reader(), Namesake(), []);
    LastRule(NOBODY, Complete([]), flag, Namesake(), false, [], []);
    FirstOfTwo(NOBODY, Complete([ASSIGNED]), flag, Reader(), Namesake(), []);
    assert [] + [ASSIGNED] == [ASSIGNED];
  }

  lemma NothingReferenced()
    ensures !ConfigurationLaws.Referenced(NOBODY, "w")
  {
  }
}
