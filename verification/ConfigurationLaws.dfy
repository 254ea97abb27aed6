/**
 Conditions that can be read off a configuration, and that meet the conditions on runs under which resuming a request
 and repeating it give the same answer.
 */
module ConfigurationLaws {
  import opened Wrappers
  import opened Materializations
  import opened Segments
  import opened SegmentLaws
  import opened Flags
  import opened FlagLaws
  import opened Protocol
  import opened ProtocolLaws
  import opened KvStore
  import Sticky

  // ----- Fallthroughs that write

  /** The rule may write a record and still pass the flag on to the next rule. */
  ghost predicate FallsWriting(rule: Rule) {
    && rule.materialization.Some? && rule.spec.Some?
    && exists a :: a in rule.spec.value.assignments && a.target == Some(Fallthrough)
  }

  lemma {:induction false} BucketIsAssigned(assignments: seq<Assignment>, b: int)
    ensures FirstInBucket(assignments, b).Some? ==> FirstInBucket(assignments, b).value in assignments
  {
    if assignments != [] && !InRanges(assignments[0].ranges, b) {
      BucketIsAssigned(assignments[1..], b);
    }
  }

  lemma {:induction false} AssignsItsOwn(w: World, rs: Records, rule: Rule, missing: bool)
    ensures var e := RuleEffect(w, rs, rule, missing);
            e.action.Assign? ==> rule.spec.Some? && e.action.chosen in rule.spec.value.assignments
  {
    hide SegmentMatch, TargetingMatch, SelectAssignment;
    if Applies(w, rule) && UnitFor(w, rule).Use? && rule.spec.Some? {
      ChoosesItsOwn(Evaluation(w, UnitFor(w, rule).unit, rs), rule);
    }
  }

  lemma {:induction false} ChoosesItsOwn(ev: Evaluation, rule: Rule)
    requires rule.spec.Some?
    ensures Choose(ev, rule).Assign? ==> Choose(ev, rule).chosen in rule.spec.value.assignments
  {
    var spec := rule.spec.value;
    if !OneFullVariant(spec) && ev.unit.Some? {
      var bucket := RuleBucket(ev.world, rule.segment, ev.unit.value, spec.bucketCount);
      if bucket.Ok? {
        BucketIsAssigned(spec.assignments, bucket.value);
      }
    }
  }

  /** Rules none of which writes and falls through have written nothing when the flag is left pending. */
  lemma {:induction false} PendingWritesNothing(w: World, flag: Flag, rules: seq<Rule>, missing: bool,
      falls: seq<Attribution>, toWrite: seq<Record>)
    requires forall rule :: rule in rules ==> !FallsWriting(rule)
    ensures var o := ResolveRules(w, Discovery, flag, rules, missing, falls, toWrite);
            o.result.Missing? ==> o.toWrite == toWrite
    decreases |rules|
  {
    hide RuleEffect;
    if rules != [] {
      var rule := rules[0];
      var e := RuleEffect(w, Discovery, rule, missing);
      var turn := Act(Discovery, flag, rule, e.action, falls, toWrite);
      AssignsItsOwn(w, Discovery, rule, missing);
      assert rule in rules;
      if turn.Next? {
        PendingWritesNothing(w, flag, rules[1..], e.missing, turn.falls, turn.toWrite);
      }
    }
  }

  /** Without such rules no pending flag has written a record before it suspends. */
  lemma {:induction false} NothingEarly(w: World, flags: seq<Flag>)
    requires forall f, rule :: f in flags && rule in f.rules ==> !FallsWriting(rule)
    ensures NoEarlyWrite(w, flags)
  {
    hide FallsWriting;
    forall f | f in flags && Discovered(w, f).result.Missing? ensures Discovered(w, f).toWrite == [] {
      PendingWritesNothing(w, f, f.rules, false, [], []);
    }
  }

  /** So that a resume with the answers to what was asked always gives the answer of the one run. */
  lemma {:induction false} ResumeByConfiguration(w: World, catalog: seq<Flag>, names: seq<string>, rank: string -> nat,
      store: seq<Record>, fetched: seq<Record>)
    requires Wellformed(w, catalog, names, rank)
    requires forall f, rule :: f in Requested(w, catalog, names) && rule in f.rules ==> !FallsWriting(rule)
    ensures var first, whole := Process(w, catalog, Deferred(names)), Process(w, catalog, Static(names, store));
            first.Suspended? && Answers(fetched, store, first.toRead) ==>
              Same(Process(w, catalog, Resume(first.state, fetched)), whole)
  {
    hide Process, Wellformed, NoEarlyWrite, Same, Answers, FallsWriting;
    NothingEarly(w, Requested(w, catalog, names));
    SuspendResume(w, catalog, names, rank, store, fetched);
  }

  // ----- Memberships that are looked up

  ghost predicate InCriteria(criteria: map<string, Criterion>, materialization: string) {
    exists id :: id in criteria && criteria[id] == MaterializedSegment(materialization)
  }

  /** Some segment has a criterion on membership of the materialization. */
  ghost predicate Referenced(w: World, materialization: string) {
    exists s :: s in w.segments && w.segments[s].targeting.Some?
        && InCriteria(w.segments[s].targeting.value.criteria, materialization)
  }

  /** The lookups are of memberships that the segments refer to and no bloom filter has, or of rules' records. */
  ghost predicate AsksReferenced(w: World, lookups: seq<Query>) {
    forall q :: q in lookups && q.Membership? ==> Referenced(w, q.materialization) && q.materialization !in w.blooms
  }

  ghost predicate AllReferenced(w: World, criteria: map<string, Criterion>) {
    forall m :: InCriteria(criteria, m) ==> Referenced(w, m)
  }

  lemma {:induction false} EvaluateAsks(ev: Evaluation, criteria: map<string, Criterion>, visited: set<string>, e: Expr)
    requires AllReferenced(ev.world, criteria)
    ensures AsksReferenced(ev.world, Evaluate(ev, criteria, visited, e).lookups)
    decreases Left(ev, visited), Size(e), 1
  {
    match e
    case Empty =>
    case Ref(id) =>
      if id in criteria {
        assert criteria[id].MaterializedSegment? ==> InCriteria(criteria, criteria[id].name);
        CriterionAsks(ev, visited, criteria[id]);
      }
    case Not(x) => EvaluateAsks(ev, criteria, visited, x);
    case And(ops) => AllAsk(ev, criteria, visited, ops, false, false);
    case Or(ops) => AllAsk(ev, criteria, visited, ops, true, false);
  }

  lemma {:induction false} AllAsk(ev: Evaluation, criteria: map<string, Criterion>, visited: set<string>,
      ops: seq<Expr>, stop: bool, sawUnknown: bool)
    requires AllReferenced(ev.world, criteria)
    ensures AsksReferenced(ev.world, EvaluateAll(ev, criteria, visited, ops, stop, sawUnknown).lookups)
    decreases Left(ev, visited), SizeAll(ops), 0
  {
    hide Referenced, InCriteria;
    if ops != [] {
      EvaluateAsks(ev, criteria, visited, ops[0]);
      var head := Evaluate(ev, criteria, visited, ops[0]);
      if head.result.Ok? && head.result.value != Known(stop) {
        AllAsk(ev, criteria, visited, ops[1..], stop, sawUnknown || head.result.value.Unknown?);
      }
    }
  }

  lemma {:induction false} CriterionAsks(ev: Evaluation, visited: set<string>, c: Criterion)
    requires c.MaterializedSegment? ==> Referenced(ev.world, c.name)
    ensures AsksReferenced(ev.world, EvaluateCriterion(ev, visited, c).lookups)
    decreases Left(ev, visited), 1, 0
  {
    hide Referenced;
    if c.SegmentRef? && c.segment in ev.world.segments {
      SegmentAsks(ev, visited, c.segment);
    }
  }

  lemma {:induction false} SegmentAsks(ev: Evaluation, visited: set<string>, name: string)
    requires name in ev.world.segments
    ensures AsksReferenced(ev.world, SegmentMatch(ev, visited, name).lookups)
    decreases Left(ev, visited), 0, 0
  {
    if name !in visited {
      assert name in Left(ev, visited) && name !in Left(ev, visited + {name});
      TargetingAsks(ev, visited + {name}, name);
    }
  }

  lemma {:induction false} TargetingAsks(ev: Evaluation, visited: set<string>, name: string)
    requires name in ev.world.segments
    ensures AsksReferenced(ev.world, TargetingMatch(ev, visited, name).lookups)
    decreases Left(ev, visited), TargetingSize(ev.world.segments[name]), 2
  {
    var s := ev.world.segments[name];
    if s.targeting.Some? && s.targeting.value.expression.Some? {
      EvaluateAsks(ev, s.targeting.value.criteria, visited, s.targeting.value.expression.value);
    }
  }

  lemma {:induction false} RuleAsks(w: World, rs: Records, rule: Rule, missing: bool)
    ensures AsksReferenced(w, RuleEffect(w, rs, rule, missing).lookups)
  {
    hide SegmentMatch, TargetingMatch, Referenced, Choose, SelectAssignment;
    if Applies(w, rule) && UnitFor(w, rule).Use? && rule.spec.Some? {
      var ev := Evaluation(w, UnitFor(w, rule).unit, rs);
      SegmentAsks(ev, {}, rule.segment);
      TargetingAsks(ev, {}, rule.segment);
    }
  }

  lemma {:induction false} RulesAsk(w: World, rs: Records, flag: Flag, rules: seq<Rule>, missing: bool,
      falls: seq<Attribution>, toWrite: seq<Record>)
    ensures AsksReferenced(w, ResolveRules(w, rs, flag, rules, missing, falls, toWrite).lookups)
    decreases |rules|
  {
    hide RuleEffect, Referenced;
    if rules != [] {
      var e := RuleEffect(w, rs, rules[0], missing);
      RuleAsks(w, rs, rules[0], missing);
      var turn := Act(rs, flag, rules[0], e.action, falls, toWrite);
      if turn.Next? {
        RulesAsk(w, rs, flag, rules[1..], e.missing, turn.falls, turn.toWrite);
      }
    }
  }

  /** Every membership a run looks up is one that some segment refers to and that no bloom filter can tell. */
  lemma {:induction false} RunAsks(w: World, rs: Records, flags: seq<Flag>, toWrite: seq<Record>)
    ensures AsksReferenced(w, ResolveAll(w, rs, flags, toWrite).lookups)
    decreases |flags|
  {
    hide ResolveRules, Referenced;
    if flags != [] {
      RulesAsk(w, rs, flags[0], flags[0].rules, false, [], toWrite);
      var o := ResolveFlag(w, rs, flags[0], toWrite);
      if !o.result.Failed? {
        RunAsks(w, rs, flags[1..], o.toWrite);
      }
    }
  }

  // ----- Repeating a request

  /** No segment refers to a materialization that one of the rules writes, and the rules that write have names. */
  ghost predicate WritesApart(w: World, rules: seq<Rule>) {
    forall rule :: rule in rules && rule.materialization.Some? ==>
      rule.name != "" && !Referenced(w, rule.materialization.value.write)
  }

  lemma {:induction false} UnmatchedPuts(history: seq<Change>, writes: seq<Record>, q: Query)
    requires forall r :: r in writes ==> r.rule != "" && !q.Matches(r)
    ensures First(Latest(history + Puts(writes)), q) == First(Latest(history), q)
    decreases |writes|
  {
    if writes == [] {
      assert history + Puts(writes) == history;
    } else {
      var first, rest := writes[0], writes[1..];
      assert first in writes && forall r :: r in rest ==> r in writes;
      assert history + Puts(writes) == history + [Put(first)] + Puts(rest);
      UnmatchedPuts(history + [Put(first)], rest, q);
      PutAnswers(history, first, q);
    }
  }

  /**
   Sticky assignments stick in any configuration that keeps the materializations its rules write apart from those its
   segments refer to: repeated after its own writes, a request is assigned as before and writes nothing new.
   */
  lemma {:induction false} StickyByConfiguration(w: World, catalog: seq<Flag>, names: seq<string>, rank: string -> nat,
      history: seq<Change>)
    requires Acyclic(w, rank)
    requires var rules := AllRules(Requested(w, catalog, names)); Sticky.WritersDistinct(rules) && WritesApart(w, rules)
    requires Process(w, catalog, Static(names, Latest(history))).Resolved?
    ensures var first := Process(w, catalog, Static(names, Latest(history)));
            var again := Process(w, catalog, Static(names, Latest(history + Puts(first.toWrite))));
            again.Resolved? && again.flags == first.flags && forall r :: r in again.toWrite ==> r in first.toWrite
  {
    hide ResolveAll, AllRules, Acyclic, Sticky.WritersDistinct, Referenced;
    var flags := Requested(w, catalog, names);
    var first := Process(w, catalog, Static(names, Latest(history)));
    RunAsks(w, Complete(Latest(history)), flags, []);
    RunWrites(w, Complete(Latest(history)), flags, []);
    assert first.toWrite[0..] == first.toWrite;
    forall q | q in Sticky.Lookups(w, catalog, names, Latest(history)) && q.Membership?
      ensures First(Latest(history + Puts(first.toWrite)), q) == First(Latest(history), q)
    {
      UnmatchedPuts(history, first.toWrite, q);
    }
    StickyAcrossResolves(w, catalog, names, rank, history);
  }
}
