/**
 Sticky assignments stick: a run repeated with its own writes added to its records resolves every flag as before,
 also when several assignments of a rule share the stored variant.
 */
module Sticky {
  import opened Wrappers
  import opened Materializations
  import opened Segments
  import opened SegmentLaws
  import opened Flags
  import opened FlagLaws
  import opened Protocol
  import opened ProtocolLaws

  // ----- Rules that write under different names

  /** No two rules that write share a name. */
  ghost predicate WritersDistinct(rules: seq<Rule>) {
    forall i, j :: 0 <= i < j < |rules| && rules[i].materialization.Some? && rules[j].materialization.Some? ==>
        rules[i].name != rules[j].name
  }

  ghost predicate WriterIn(rules: seq<Rule>, r: Record) {
    exists rule :: rule in rules && rule.materialization.Some? && rule.name == r.rule
  }

  ghost predicate Foreign(rules: seq<Rule>, records: seq<Record>) {
    forall r :: r in records ==> !WriterIn(rules, r)
  }

  /** What some rules add stays foreign to rules that share no writer with them. */
  lemma AddsForeign(rules: seq<Rule>, others: seq<Rule>, own: seq<Record>, after: seq<Record>)
    requires Adds(rules, own, after) && forall r :: !(WriterIn(rules, r) && WriterIn(others, r))
    ensures Foreign(others, after[|own|..]) && (Foreign(others, own) ==> Foreign(others, after))
  {
    assert after == own + after[|own|..];
    assert forall r :: WrittenBy(rules, r) ==> WriterIn(rules, r);
  }

  lemma {:induction false} HeadIsApart(flags: seq<Flag>)
    requires flags != [] && WritersDistinct(AllRules(flags))
    ensures WritersDistinct(flags[0].rules) && WritersDistinct(AllRules(flags[1..]))
    ensures forall r :: WriterIn(AllRules(flags), r) <==>
        WriterIn(flags[0].rules, r) || WriterIn(AllRules(flags[1..]), r)
    ensures forall r :: !(WriterIn(flags[0].rules, r) && WriterIn(AllRules(flags[1..]), r))
  {
    var a, b, all := flags[0].rules, AllRules(flags[1..]), AllRules(flags);
    assert forall i :: 0 <= i < |a| ==> all[i] == a[i];
    assert forall i :: 0 <= i < |b| ==> all[|a| + i] == b[i];
  }

  // ----- The stored variant leads back to the assignment that was chosen

  lemma {:induction false} ChosenIsFound(assignments: seq<Assignment>, variant: string, b: int, a: Assignment)
    requires FirstInBucket(assignments, b) == Some(a) && a.target == Some(Variant(variant))
    ensures FirstInBucket(WithVariant(assignments, variant), b) == Some(a)
    ensures a in WithVariant(assignments, variant)
  {
    if assignments[0] != a || !InRanges(assignments[0].ranges, b) {
      ChosenIsFound(assignments[1..], variant, b, a);
      var rest := WithVariant(assignments[1..], variant);
      assert ([assignments[0]] + rest)[1..] == rest && [] + rest == rest;
    }
  }

  lemma {:induction false} StoredVariantSelects(ev: Evaluation, rule: Rule, a: Assignment, variant: string)
    requires rule.spec.Some? && ev.unit.Some? && variant != "" && a.target == Some(Variant(variant))
    requires Choose(ev, rule) == Assign(a, ev.unit)
    ensures SelectAssignment(ev.world, variant, ev.unit.value, rule.spec.value, rule.segment) == Some(a)
  {
    var spec := rule.spec.value;
    if OneFullVariant(spec) {
      assert WithVariant(spec.assignments[1..], variant) == [];
    } else {
      ChosenIsFound(spec.assignments, variant,
          RuleBucket(ev.world, rule.segment, ev.unit.value, spec.bucketCount).value, a);
    }
  }

  // ----- One rule, with its own write added to the records

  /** Apart from records of this rule, the later records answer the lookups as before. */
  ghost predicate MembershipKept(before: Records, after: Records, lookups: seq<Query>) {
    forall q :: q in lookups && q.Membership? ==> AnswerTo(after, q) == AnswerTo(before, q)
  }

  /** `after` is `before` with the records `writes` written over it, as far as the records of these rules go. */
  ghost predicate Overwritten(before: Records, after: Records, writes: seq<Record>, rules: seq<Rule>) {
    forall q: Query :: q.RuleRecord? && WriterIn(rules, q.Key()) ==>
      AnswerTo(after, q) == match First(writes, q) case Some(r) => Present(r.variant) case None => AnswerTo(before, q)
  }

  /** The rule does as before; or it sticks to the variant it had assigned. */
  ghost predicate Repeats(e: Action, e': Action) {
    || e' == e
    || (e.Assign? && e.unit.Some? && e.chosen.target.Some? && e.chosen.target.value.Variant?
        && e' == Sticky(e.chosen, e.unit.value))
  }

  lemma {:induction false} OwnRecordRepeats(ev: Evaluation, rank: string -> nat, after: seq<Record>, rule: Rule,
      answer: Answer)
    requires Acyclic(ev.world, rank) && Applies(ev.world, rule) && ev.records.Complete?
    requires rule.spec.Some? && rule.materialization.Some? && ev.unit.Some?
    requires answer.Absent? || answer.Present?
    requires var e := Recall(ev, rule, false, answer);
             e.action.Assign? && !e.missing && MembershipKept(ev.records, Complete(after), e.lookups)
    ensures var e := Recall(ev, rule, false, answer);
            Repeats(e.action, Recall(ev.(records := Complete(after)), rule, false,
                Present(VariantName(e.action.chosen))).action)
  {
    var e, name := Recall(ev, rule, false, answer), rule.segment;
    var t := TargetingMatch(ev, {}, name);
    TargetingIgnoresVisited(ev, rank, {}, {name}, name);
    assert {} + {name} == {name};
    assert Choose(ev, rule) == e.action;
    assert Choose(ev.(records := Complete(after)), rule) == e.action;
    assert e.action.unit == ev.unit;
    if !ModeOf(rule).targetingCanBeIgnored {
      assert t.result == Ok(Known(true)) && Within(t.lookups, e.lookups);
      TargetingCovers(ev, {}, name);
      TargetingIsLocal(ev, Complete(after), {}, name);
    }
    var variant := VariantName(e.action.chosen);
    if variant != "" {
      StoredVariantSelects(ev, rule, e.action.chosen, variant);
    }
  }

  /** A rule asks for memberships, and for its own record. */
  lemma {:induction false} RuleAsks(w: World, records: seq<Record>, rule: Rule)
    ensures forall q :: q in RuleEffect(w, Complete(records), rule, false).lookups && q.RuleRecord? ==>
              && Applies(w, rule) && rule.spec.Some? && UnitFor(w, rule).Use? && UnitFor(w, rule).unit.Some?
              && rule.materialization.Some? && rule.materialization.value.read != ""
              && q == RuleRecord(UnitFor(w, rule).unit.value, rule.materialization.value.read, rule.name)
  {
    if Applies(w, rule) && UnitFor(w, rule).Use? && rule.spec.Some? {
      var ev := Evaluation(w, UnitFor(w, rule).unit, Complete(records));
      SegmentCovers(ev, {}, rule.segment);
      TargetingCovers(ev, {}, rule.segment);
    }
  }

  lemma {:induction false} RuleRepeats(w: World, rank: string -> nat, before: seq<Record>, after: seq<Record>,
      rule: Rule, writes: seq<Record>)
    requires Acyclic(w, rank)
    requires MembershipKept(Complete(before), Complete(after), RuleEffect(w, Complete(before), rule, false).lookups)
    requires Overwritten(Complete(before), Complete(after), writes, [rule])
    requires var e := RuleEffect(w, Complete(before), rule, false);
             forall r :: r in writes && r.rule == rule.name && rule.materialization.Some? ==>
               e.action.Assign? && WriteOf(rule, e.action.chosen, e.action.unit) == Some(r)
    ensures Repeats(RuleEffect(w, Complete(before), rule, false).action,
        RuleEffect(w, Complete(after), rule, false).action)
  {
    var rs, rs' := Complete(before), Complete(after);
    var e := RuleEffect(w, rs, rule, false);
    var consults := Applies(w, rule) && UnitFor(w, rule).Use? && rule.spec.Some? && rule.materialization.Some?
                 && rule.materialization.value.read != "" && UnitFor(w, rule).unit.Some?;
    if consults {
      var ev := Evaluation(w, UnitFor(w, rule).unit, rs);
      var q := RuleRecord(ev.unit.value, rule.materialization.value.read, rule.name);
      assert rule in [rule] && WriterIn([rule], q.Key());
      RuleAsks(w, before, rule);
      if First(writes, q).None? {
        RuleIsLocal(w, rs, rs', rule, false);
      } else {
        CompleteEffect(w, rs, rule);
        assert ev.(records := rs') == Evaluation(w, ev.unit, rs');
        OwnRecordRepeats(ev, rank, after, rule, AnswerTo(rs, q));
      }
    } else {
      RuleAsks(w, before, rule);
      RuleIsLocal(w, rs, rs', rule, false);
    }
  }

  // ----- All rules of a flag, all flags

  ghost predicate Included(a: seq<Record>, own: seq<Record>, all: seq<Record>) {
    forall r :: r in a ==> r in own || r in all
  }

  /** The writes of the whole run, of which this flag's rules made `mine` and nothing after. */
  ghost predicate PartOf(mine: seq<Record>, all: seq<Record>, rules: seq<Rule>) {
    mine <= all && Foreign(rules, all[|mine|..])
  }

  /** What the turn of the first rule adds to records of other rules. */
  lemma {:induction false} HeadWrites(rs: Records, flag: Flag, rules: seq<Rule>, action: Action,
      falls: seq<Attribution>, own: seq<Record>)
    requires rs.Complete? && rules != [] && WritersDistinct(rules) && Foreign(rules, own)
    ensures var write := WriteFor(rules[0], action);
            Act(rs, flag, rules[0], action, falls, own).toWrite == own + (if write.Some? then [write.value] else [])
  {
    var write := WriteFor(rules[0], action);
    if write.Some? {
      assert rules[0] in rules && WriterIn(rules, write.value);
      assert !HasKey(own, write.value);
    } else {
      assert own + [] == own;
    }
  }

  /** What the first rule writes stays, and no other record of the run carries its name. */
  lemma {:induction false} HeadWriteIsKept(w: World, rs: Records, flag: Flag, rules: seq<Rule>, falls: seq<Attribution>,
      own: seq<Record>)
    requires rs.Complete? && rules != [] && WritersDistinct(rules) && Foreign(rules, own)
    ensures var e, o := RuleEffect(w, rs, rules[0], false), ResolveRules(w, rs, flag, rules, false, falls, own);
            var write := WriteFor(rules[0], e.action);
            && (write.Some? ==> write.value in o.toWrite)
            && (rules[0].materialization.Some? ==> forall r :: r in o.toWrite && r.rule == rules[0].name ==>
                write == Some(r))
  {
    hide RuleEffect;
    var rule := rules[0];
    var e := RuleEffect(w, rs, rule, false);
    CompleteEffect(w, rs, rule);
    var turn := Act(rs, flag, rule, e.action, falls, own);
    HeadWrites(rs, flag, rules, e.action, falls, own);
    var after := ResolveRules(w, rs, flag, rules, false, falls, own).toWrite;
    if turn.Next? {
      RulesWrite(w, rs, flag, rules[1..], false, turn.falls, turn.toWrite);
    } else {
      assert after == turn.toWrite;
    }
    assert Adds(rules[1..], turn.toWrite, after);
    HeadIsItsOwn(rules);
    KeptApart(rules, own, turn.toWrite, after);
  }

  /** Records that carry the first rule's name are not among those that the rules after it add. */
  lemma {:induction false} KeptApart(rules: seq<Rule>, own: seq<Record>, mine: seq<Record>, after: seq<Record>)
    requires rules != [] && WritersDistinct(rules) && Foreign(rules, own) && Adds(rules[1..], mine, after)
    requires own <= mine
    ensures forall r :: r in mine ==> r in after
    ensures rules[0].materialization.Some? ==>
              forall r :: r in after && r.rule == rules[0].name ==> r in mine[|own|..]
  {
    assert after == mine + after[|mine|..] && mine == own + mine[|own|..];
    assert forall r :: WrittenBy(rules[1..], r) ==> WriterIn(rules[1..], r);
    HeadIsItsOwn(rules);
  }

  lemma HeadIsItsOwn(rules: seq<Rule>)
    requires rules != [] && WritersDistinct(rules)
    ensures rules[0].materialization.Some? ==> forall r: Record :: r.rule == rules[0].name ==>
              WriterIn(rules, r) && !WriterIn(rules[1..], r)
  {
    assert rules[0] in rules;
  }

  lemma {:induction false} HeadRepeats(w: World, rank: string -> nat, before: seq<Record>, after: seq<Record>,
      flag: Flag, rules: seq<Rule>, falls: seq<Attribution>, own: seq<Record>, all: seq<Record>)
    requires Acyclic(w, rank) && rules != [] && WritersDistinct(rules) && Foreign(rules, own)
    requires Overwritten(Complete(before), Complete(after), all, rules)
    requires var o := ResolveRules(w, Complete(before), flag, rules, false, falls, own);
             PartOf(o.toWrite, all, rules) && MembershipKept(Complete(before), Complete(after), o.lookups)
    ensures Repeats(RuleEffect(w, Complete(before), rules[0], false).action,
        RuleEffect(w, Complete(after), rules[0], false).action)
  {
    hide RuleEffect;
    var rule, rs := rules[0], Complete(before);
    var o := ResolveRules(w, rs, flag, rules, false, falls, own);
    var e := RuleEffect(w, rs, rule, false);
    assert Within(e.lookups, o.lookups);
    HeadWriteIsKept(w, rs, flag, rules, falls, own);
    assert forall r :: WriterIn([rule], r) ==> WriterIn(rules, r);
    forall r | r in all && r.rule == rule.name && rule.materialization.Some?
      ensures e.action.Assign? && WriteOf(rule, e.action.chosen, e.action.unit) == Some(r)
    {
      assert rule in rules && WriterIn(rules, r);
      assert all == o.toWrite + all[|o.toWrite|..];
    }
    RuleRepeats(w, rank, before, after, rule, all);
  }

  /** A rule that repeats leads to the same turn, and writes at most the record it wrote before. */
  lemma {:induction false} TurnRepeats(before: Records, after: Records, flag: Flag, rules: seq<Rule>, e: Action,
      e': Action, falls: seq<Attribution>, own: seq<Record>, own': seq<Record>)
    requires before.Complete? && after.Complete? && rules != [] && WritersDistinct(rules) && Foreign(rules, own)
        && Foreign(rules, own')
    requires Repeats(e, e')
    ensures var turn, turn' := Act(before, flag, rules[0], e, falls, own), Act(after, flag, rules[0], e', falls, own');
            && turn' == (if turn.Next? then Next(turn.falls, turn'.toWrite) else End(turn.result, turn'.toWrite))
            && Foreign(rules[1..], turn.toWrite) && Foreign(rules[1..], turn'.toWrite)
            && forall r :: r in turn'.toWrite ==>
                r in own' || (e.Assign? && WriteOf(rules[0], e.chosen, e.unit) == Some(r))
  {
    ActWrites(before, flag, rules[0], e, falls, own);
    ActWrites(after, flag, rules[0], e', falls, own');
    if e.Assign? && WriteOf(rules[0], e.chosen, e.unit).Some? {
      assert rules[0] in rules && WriterIn(rules, WriteOf(rules[0], e.chosen, e.unit).value);
    }
    assert forall r :: WriterIn(rules[1..], r) ==> WriterIn(rules, r);
  }

  lemma {:induction false} OverwrittenBelow(before: Records, after: Records, all: seq<Record>, mine: seq<Record>,
      rules: seq<Rule>)
    requires rules != [] && Overwritten(before, after, all, rules) && PartOf(mine, all, rules)
    ensures Overwritten(before, after, all, rules[1..]) && PartOf(mine, all, rules[1..])
  {
    assert forall r :: WriterIn(rules[1..], r) ==> WriterIn(rules, r);
  }

  lemma {:induction false} RulesRepeat(w: World, rank: string -> nat, before: seq<Record>, after: seq<Record>,
      flag: Flag, rules: seq<Rule>, falls: seq<Attribution>, own: seq<Record>, own': seq<Record>, all: seq<Record>)
    requires Acyclic(w, rank) && WritersDistinct(rules) && Foreign(rules, own) && Foreign(rules, own')
    requires Overwritten(Complete(before), Complete(after), all, rules)
    requires var o := ResolveRules(w, Complete(before), flag, rules, false, falls, own);
             PartOf(o.toWrite, all, rules) && MembershipKept(Complete(before), Complete(after), o.lookups)
    ensures var o, o' := ResolveRules(w, Complete(before), flag, rules, false, falls, own),
                         ResolveRules(w, Complete(after), flag, rules, false, falls, own');
            o'.result == o.result && Included(o'.toWrite, own', all)
    decreases |rules|
  {
    hide RuleEffect;
    if rules != [] {
      var rule, rs, rs' := rules[0], Complete(before), Complete(after);
      var o := ResolveRules(w, rs, flag, rules, false, falls, own);
      var e, e' := RuleEffect(w, rs, rule, false), RuleEffect(w, rs', rule, false);
      CompleteEffect(w, rs, rule);
      CompleteEffect(w, rs', rule);
      assert Within(e.lookups, o.lookups);
      HeadRepeats(w, rank, before, after, flag, rules, falls, own, all);
      TurnRepeats(rs, rs', flag, rules, e.action, e'.action, falls, own, own');
      HeadWriteIsKept(w, rs, flag, rules, falls, own);
      var turn, turn' := Act(rs, flag, rule, e.action, falls, own), Act(rs', flag, rule, e'.action, falls, own');
      assert o.toWrite <= all;
      if turn.Next? {
        OverwrittenBelow(Complete(before), Complete(after), all, o.toWrite, rules);
        RulesRepeat(w, rank, before, after, flag, rules[1..], turn.falls, turn.toWrite, turn'.toWrite, all);
      }
    }
  }

  lemma {:induction false} FlagRepeats(w: World, rank: string -> nat, before: seq<Record>, after: seq<Record>,
      flag: Flag, own: seq<Record>, own': seq<Record>, all: seq<Record>)
    requires Acyclic(w, rank) && WritersDistinct(flag.rules) && Foreign(flag.rules, own) && Foreign(flag.rules, own')
    requires Overwritten(Complete(before), Complete(after), all, flag.rules)
    requires var o := ResolveFlag(w, Complete(before), flag, own);
             PartOf(o.toWrite, all, flag.rules) && MembershipKept(Complete(before), Complete(after), o.lookups)
    ensures var o, o' := ResolveFlag(w, Complete(before), flag, own), ResolveFlag(w, Complete(after), flag, own');
            o'.result == o.result && Included(o'.toWrite, own', all)
  {
    if !flag.state.Archived? {
      RulesRepeat(w, rank, before, after, flag, flag.rules, [], own, own', all);
    }
  }

  /** The writes of the run, as the first flag and as the flags after it see them. */
  lemma {:induction false} RunParts(before: Records, after: Records, flags: seq<Flag>, mine: seq<Record>,
      run: seq<Record>, all: seq<Record>)
    requires flags != [] && WritersDistinct(AllRules(flags)) && Adds(AllRules(flags[1..]), mine, run)
    requires PartOf(run, all, AllRules(flags)) && Overwritten(before, after, all, AllRules(flags))
    ensures PartOf(mine, all, flags[0].rules) && Overwritten(before, after, all, flags[0].rules)
    ensures PartOf(run, all, AllRules(flags[1..])) && Overwritten(before, after, all, AllRules(flags[1..]))
  {
    HeadIsApart(flags);
    AddsForeign(AllRules(flags[1..]), flags[0].rules, mine, run);
    hide WriterIn;
    assert all[|mine|..] == run[|mine|..] + all[|run|..];
  }

  lemma {:induction false} FlagPart(before: Records, after: Records, flags: seq<Flag>, mine: seq<Record>,
      all: seq<Record>)
    requires flags != [] && WritersDistinct(AllRules(flags))
    requires PartOf(mine, all, AllRules(flags)) && Overwritten(before, after, all, AllRules(flags))
    ensures PartOf(mine, all, flags[0].rules) && Overwritten(before, after, all, flags[0].rules)
  {
    HeadIsApart(flags);
  }

  lemma {:induction false} FlagStaysForeign(w: World, rs: Records, flags: seq<Flag>, own: seq<Record>)
    requires flags != [] && WritersDistinct(AllRules(flags)) && Foreign(AllRules(flags), own)
    ensures Foreign(flags[0].rules, own) && WritersDistinct(flags[0].rules) && WritersDistinct(AllRules(flags[1..]))
    ensures Foreign(AllRules(flags[1..]), ResolveFlag(w, rs, flags[0], own).toWrite)
  {
    hide ResolveFlag;
    HeadIsApart(flags);
    FlagWrites(w, rs, flags[0], own);
    AddsForeign(flags[0].rules, AllRules(flags[1..]), own, ResolveFlag(w, rs, flags[0], own).toWrite);
  }

  lemma {:induction false} RunRepeats(w: World, rank: string -> nat, before: seq<Record>, after: seq<Record>,
      flags: seq<Flag>, own: seq<Record>, own': seq<Record>, all: seq<Record>)
    requires Acyclic(w, rank) && WritersDistinct(AllRules(flags)) && Foreign(AllRules(flags), own)
        && Foreign(AllRules(flags), own')
    requires Overwritten(Complete(before), Complete(after), all, AllRules(flags))
    requires var run := ResolveAll(w, Complete(before), flags, own);
             PartOf(run.toWrite, all, AllRules(flags)) && MembershipKept(Complete(before), Complete(after), run.lookups)
    ensures var run, run' := ResolveAll(w, Complete(before), flags, own), ResolveAll(w, Complete(after), flags, own');
            run'.failure == run.failure && run'.resolved == run.resolved && Included(run'.toWrite, own', all)
    decreases |flags|
  {
    hide ResolveFlag, AllRules, WritersDistinct, Foreign, Overwritten, PartOf;
    if flags != [] {
      var rs, rs', f, rest := Complete(before), Complete(after), flags[0], flags[1..];
      var o, o' := ResolveFlag(w, rs, f, own), ResolveFlag(w, rs', f, own');
      var run := ResolveAll(w, rs, flags, own);
      assert Within(o.lookups, run.lookups);
      FlagStaysForeign(w, rs, flags, own);
      FlagStaysForeign(w, rs', flags, own');
      if o.result.Failed? {
        FlagPart(rs, rs', flags, run.toWrite, all);
        FlagRepeats(w, rank, before, after, f, own, own', all);
      } else {
        RunWrites(w, rs, rest, o.toWrite);
        RunParts(rs, rs', flags, o.toWrite, run.toWrite, all);
        FlagRepeats(w, rank, before, after, f, own, own', all);
        RunRepeats(w, rank, before, after, rest, o.toWrite, o'.toWrite, all);
      }
    }
  }

  // ----- The main result

  /** The store after a run: each record the run wrote replaces the record of its key, the others are as before. */
  ghost predicate Stored(before: seq<Record>, writes: seq<Record>, after: seq<Record>) {
    forall q: Query :: q.RuleRecord? ==>
      AnswerTo(Complete(after), q) ==
        match First(writes, q) case Some(r) => Present(r.variant) case None => AnswerTo(Complete(before), q)
  }

  /** The lookups a run with these records makes. */
  function Lookups(w: World, catalog: seq<Flag>, names: seq<string>, records: seq<Record>): seq<Query> {
    ResolveAll(w, Complete(records), Requested(w, catalog, names), []).lookups
  }

  /**
   Sticky fixpoint. Once a run's writes are in the store, the same request gives every flag the same assignment
   and writes nothing new, as long as the writes change no membership answer the run had asked for.
   */
  lemma {:induction false} StickyFixpoint(w: World, catalog: seq<Flag>, names: seq<string>, rank: string -> nat,
      before: seq<Record>, after: seq<Record>)
    requires Acyclic(w, rank) && WritersDistinct(AllRules(Requested(w, catalog, names)))
    requires var first := Process(w, catalog, Static(names, before));
             first.Resolved? && Stored(before, first.toWrite, after)
    requires MembershipKept(Complete(before), Complete(after), Lookups(w, catalog, names, before))
    ensures var first, again := Process(w, catalog, Static(names, before)), Process(w, catalog, Static(names, after));
            again.Resolved? && again.flags == first.flags && forall r :: r in again.toWrite ==> r in first.toWrite
  {
    var flags := Requested(w, catalog, names);
    var run := ResolveAll(w, Complete(before), flags, []);
    assert Noted(Complete(before), [], run.lookups) == [];
    assert PartOf(run.toWrite, run.toWrite, AllRules(flags));
    RunRepeats(w, rank, before, after, flags, [], [], run.toWrite);
  }
}
