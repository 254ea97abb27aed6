/**
 Laws of resolving one flag. With records nothing is ever missing; the outcome depends on the records only through
 the answers to its own lookups; and a discovery run that ends without a missing record has already given the answer
 every complete run gives, while one that does not has looked up all such a run will ask.
 */
module FlagLaws {
  import opened Wrappers
  import opened Materializations
  import opened Segments
  import opened SegmentLaws
  import opened Flags

  ghost predicate Within(a: seq<Query>, b: seq<Query>) {
    forall q :: q in a ==> q in b
  }

  // ----- Locality

  lemma {:induction false} ThroughSegmentIsLocal(ev: Evaluation, other: Records, rule: Rule, missing: bool)
    requires Applies(ev.world, rule) && rule.spec.Some?
    requires Agree(ev.records, other, ThroughSegment(ev, rule, missing).lookups)
    ensures ThroughSegment(ev.(records := other), rule, missing) == ThroughSegment(ev, rule, missing)
  {
    hide SegmentMatch;
    SegmentIsLocal(ev, other, {}, rule.segment);
  }

  lemma {:induction false} RuleIsLocal(w: World, rs: Records, other: Records, rule: Rule, missing: bool)
    requires Agree(rs, other, RuleEffect(w, rs, rule, missing).lookups)
    ensures RuleEffect(w, other, rule, missing) == RuleEffect(w, rs, rule, missing)
  {
    hide Recall, ThroughSegment;
    if Applies(w, rule) && UnitFor(w, rule).Use? && rule.spec.Some? {
      var ev := Evaluation(w, UnitFor(w, rule).unit, rs);
      if rule.materialization.None? || rule.materialization.value.read == "" {
        ThroughSegmentIsLocal(ev, other, rule, missing);
      } else if ev.unit.Some? {
        var q := RuleRecord(ev.unit.value, rule.materialization.value.read, rule.name);
        var rest := Recall(ev, rule, missing, AnswerTo(rs, q));
        var lookups := [q] + rest.lookups;
        assert RuleEffect(w, rs, rule, missing) == rest.(lookups := lookups);
        assert q in lookups && Within(rest.lookups, lookups);
        RecallIsLocal(ev, other, rule, missing, AnswerTo(rs, q));
      }
    }
  }

  lemma {:induction false} RecallIsLocal(ev: Evaluation, other: Records, rule: Rule, missing: bool, answer: Answer)
    requires Applies(ev.world, rule) && rule.spec.Some? && rule.materialization.Some? && ev.unit.Some?
    requires Agree(ev.records, other, Recall(ev, rule, missing, answer).lookups)
    ensures Recall(ev.(records := other), rule, missing, answer) == Recall(ev, rule, missing, answer)
  {
    hide ThroughSegment, TargetingMatch;
    var e := Recall(ev, rule, missing, answer);
    match answer
    case NotFetched => ThroughSegmentIsLocal(ev, other, rule, true);
    case Refused =>
    case Absent => if !ModeOf(rule).mustMatch { ThroughSegmentIsLocal(ev, other, rule, missing); }
    case Present(variant) =>
      var ignored := ModeOf(rule).targetingCanBeIgnored;
      var t := if ignored then Certain(true) else TargetingMatch(ev, {}, rule.segment);
      assert Within(t.lookups, e.lookups);
      if !ignored { TargetingIsLocal(ev, other, {}, rule.segment); }
      if t.result.Ok? && t.result.value != Known(true) {
        assert Within(ThroughSegment(ev, rule, missing).lookups, e.lookups);
        ThroughSegmentIsLocal(ev, other, rule, missing);
      }
  }

  /** Writing under complete records and under discovery is the same. */
  ghost predicate Writable(rs: Records) { !rs.Unsupported? }

  lemma {:induction false} RulesAreLocal(w: World, rs: Records, other: Records, flag: Flag, rules: seq<Rule>,
      missing: bool, falls: seq<Attribution>, toWrite: seq<Record>)
    requires Writable(rs) && Writable(other)
    requires Agree(rs, other, ResolveRules(w, rs, flag, rules, missing, falls, toWrite).lookups)
    ensures ResolveRules(w, other, flag, rules, missing, falls, toWrite)
        == ResolveRules(w, rs, flag, rules, missing, falls, toWrite)
    decreases |rules|
  {
    hide RuleEffect;
    if rules != [] {
      var e := RuleEffect(w, rs, rules[0], missing);
      var o := ResolveRules(w, rs, flag, rules, missing, falls, toWrite);
      assert Within(e.lookups, o.lookups);
      RuleIsLocal(w, rs, other, rules[0], missing);
      var turn := Act(rs, flag, rules[0], e.action, falls, toWrite);
      if turn.Next? {
        RulesAreLocal(w, rs, other, flag, rules[1..], e.missing, turn.falls, turn.toWrite);
      }
    }
  }

  lemma {:induction false} FlagIsLocal(w: World, rs: Records, other: Records, flag: Flag, toWrite: seq<Record>)
    requires Writable(rs) && Writable(other)
    requires Agree(rs, other, ResolveFlag(w, rs, flag, toWrite).lookups)
    ensures ResolveFlag(w, other, flag, toWrite) == ResolveFlag(w, rs, flag, toWrite)
  {
    if !flag.state.Archived? {
      RulesAreLocal(w, rs, other, flag, flag.rules, false, [], toWrite);
    }
  }

  // ----- With records, or without support for them, nothing is missing

  lemma {:induction false} CompleteEffect(w: World, rs: Records, rule: Rule)
    requires !rs.Discovery?
    ensures !RuleEffect(w, rs, rule, false).missing
  {
  }

  lemma {:induction false} CompleteRules(w: World, rs: Records, flag: Flag, rules: seq<Rule>, falls: seq<Attribution>,
      toWrite: seq<Record>)
    requires !rs.Discovery?
    ensures ResolveRules(w, rs, flag, rules, false, falls, toWrite).result != Missing
    decreases |rules|
  {
    hide RuleEffect;
    if rules != [] {
      var e := RuleEffect(w, rs, rules[0], false);
      CompleteEffect(w, rs, rules[0]);
      var turn := Act(rs, flag, rules[0], e.action, falls, toWrite);
      if turn.Next? {
        CompleteRules(w, rs, flag, rules[1..], turn.falls, turn.toWrite);
      }
    }
  }

  // ----- What a flag writes

  /** The record that a rule's turn writes, if it writes one. */
  function WriteFor(rule: Rule, action: Action): Option<Record> {
    if action.Assign? then WriteOf(rule, action.chosen, action.unit) else None
  }

  ghost predicate WrittenBy(rules: seq<Rule>, r: Record) {
    exists rule :: rule in rules && rule.materialization.Some? && rule.name == r.rule
        && rule.materialization.value.write == r.materialization
  }

  /** The records were written by some of the rules after the ones in `own`. */
  ghost predicate Adds(rules: seq<Rule>, own: seq<Record>, after: seq<Record>) {
    own <= after && forall r :: r in after[|own|..] ==> WrittenBy(rules, r)
  }

  lemma ActWrites(rs: Records, flag: Flag, rule: Rule, action: Action, falls: seq<Attribution>, own: seq<Record>)
    ensures var after, write := Act(rs, flag, rule, action, falls, own).toWrite, WriteFor(rule, action);
            after == own || (write.Some? && !HasKey(own, write.value) && after == own + [write.value])
  {
  }

  lemma WritesItsOwn(rules: seq<Rule>, action: Action)
    requires rules != [] && WriteFor(rules[0], action).Some?
    ensures WrittenBy(rules, WriteFor(rules[0], action).value)
  {
    assert rules[0] in rules;
  }

  lemma {:induction false} RulesWrite(w: World, rs: Records, flag: Flag, rules: seq<Rule>, missing: bool,
      falls: seq<Attribution>, own: seq<Record>)
    ensures Adds(rules, own, ResolveRules(w, rs, flag, rules, missing, falls, own).toWrite)
    decreases |rules|
  {
    hide RuleEffect, Act;
    if rules != [] {
      var e := RuleEffect(w, rs, rules[0], missing);
      ActWrites(rs, flag, rules[0], e.action, falls, own);
      var turn := Act(rs, flag, rules[0], e.action, falls, own);
      if turn.toWrite != own {
        WritesItsOwn(rules, e.action);
      }
      if turn.Next? {
        RulesWrite(w, rs, flag, rules[1..], e.missing, turn.falls, turn.toWrite);
        assert forall r :: WrittenBy(rules[1..], r) ==> WrittenBy(rules, r);
      }
    }
  }

  lemma {:induction false} RulesWriteDistinct(w: World, rs: Records, flag: Flag, rules: seq<Rule>, missing: bool,
      falls: seq<Attribution>, own: seq<Record>)
    requires Distinct(own)
    ensures Distinct(ResolveRules(w, rs, flag, rules, missing, falls, own).toWrite)
    decreases |rules|
  {
    hide RuleEffect, Act;
    if rules != [] {
      var e := RuleEffect(w, rs, rules[0], missing);
      ActWrites(rs, flag, rules[0], e.action, falls, own);
      var turn := Act(rs, flag, rules[0], e.action, falls, own);
      assert forall i :: 0 <= i < |own| ==> own[i] in own;
      if turn.Next? {
        RulesWriteDistinct(w, rs, flag, rules[1..], e.missing, turn.falls, turn.toWrite);
      }
    }
  }

  // ----- What others have written

  ghost predicate Apart(a: seq<Record>, b: seq<Record>) {
    forall x, y :: x in a && y in b ==> !SameKey(x, y)
  }

  lemma {:induction false} ActIsFramed(rs: Records, flag: Flag, rule: Rule, action: Action, falls: seq<Attribution>,
      base: seq<Record>, own: seq<Record>)
    requires Apart(base, own)
    ensures var turn, turn' := Act(rs, flag, rule, action, falls, own), Act(rs, flag, rule, action, falls, base + own);
            turn' == if Apart(base, turn.toWrite) then turn.(toWrite := base + turn.toWrite)
                     else End(Failed(Internal), base + own)
  {
    var write := WriteFor(rule, action);
    if write.Some? {
      assert base + own + [write.value] == base + (own + [write.value]);
      assert HasKey(base + own, write.value) <==> HasKey(base, write.value) || HasKey(own, write.value);
    }
  }

  /**
   Records already written neither change what a flag does nor are changed by it, unless it writes the key of one of
   them: then it fails.
   */
  lemma {:induction false} WritesAreFramed(w: World, rs: Records, flag: Flag, rules: seq<Rule>, missing: bool,
      falls: seq<Attribution>, base: seq<Record>, own: seq<Record>)
    requires Apart(base, own)
    ensures var o, o' := ResolveRules(w, rs, flag, rules, missing, falls, own),
                         ResolveRules(w, rs, flag, rules, missing, falls, base + own);
            if Apart(base, o.toWrite) then o' == o.(toWrite := base + o.toWrite)
            else o'.result == Failed(Internal) && Within(o'.lookups, o.lookups)
    decreases |rules|
  {
    hide RuleEffect, Act;
    if rules != [] {
      var e := RuleEffect(w, rs, rules[0], missing);
      ActIsFramed(rs, flag, rules[0], e.action, falls, base, own);
      var turn := Act(rs, flag, rules[0], e.action, falls, own);
      if turn.Next? {
        RulesWrite(w, rs, flag, rules[1..], e.missing, turn.falls, turn.toWrite);
        if Apart(base, turn.toWrite) {
          WritesAreFramed(w, rs, flag, rules[1..], e.missing, turn.falls, base, turn.toWrite);
        }
      }
    }
  }

  // ----- Discovery against a complete run

  /** The rule's segment does not fail after discovery has looked something up: a failure it sees every run sees. */
  ghost predicate Speaks(w: World, rule: Rule) {
    rule.segment in w.segments && UnitFor(w, rule).Use? ==>
      var m := SegmentMatch(Evaluation(w, UnitFor(w, rule).unit, Discovery), {}, rule.segment);
      m.result.Ok? || m.lookups == []
  }

  /**
   The rules a discovery run goes through speak, and it does not end on a bad targeting key or a fault at a rule
   that comes after an undecided one: a complete run might have stopped before that rule.
   */
  ghost predicate Clean(w: World, rules: seq<Rule>, missing: bool)
    decreases |rules|
  {
    rules == [] ||
    var e := RuleEffect(w, Discovery, rules[0], missing);
    && Speaks(w, rules[0])
    && (e.action.BadKey? || e.action.Fault? ==> !e.missing)
    && (e.action.Pass? || (e.action.Assign? && e.action.chosen.target == Some(Fallthrough)) ==>
        Clean(w, rules[1..], e.missing))
  }

  lemma {:induction false} ThroughSegmentCovers(ev: Evaluation, rank: string -> nat, rule: Rule, missing: bool)
    requires ev.records.Complete? && Acyclic(ev.world, rank)
    requires Applies(ev.world, rule) && rule.spec.Some? && UnitFor(ev.world, rule) == Use(ev.unit)
        && Speaks(ev.world, rule)
    ensures var d, c := ThroughSegment(Discovering(ev), rule, missing), ThroughSegment(ev, rule, false);
            && Within(c.lookups, d.lookups) && (!d.missing ==> c.action == d.action)
    ensures Within(TargetingMatch(ev, {}, rule.segment).lookups, ThroughSegment(Discovering(ev), rule, missing).lookups)
  {
    var name := rule.segment;
    var d := Discovering(ev);
    SegmentCovers(ev, {}, name);
    TargetingCovers(ev, {name}, name);
    TargetingIgnoresVisited(ev, rank, {}, {name}, name);
    assert {} + {name} == {name};
    if SegmentMatch(d, {}, name).lookups == [] {
      SegmentIsLocal(d, ev.records, {}, name);
      TargetingIsLocal(d, ev.records, {name}, name);
      assert d.(records := ev.records) == ev;
    }
  }

  lemma {:induction false} RuleCovers(w: World, records: seq<Record>, rank: string -> nat, rule: Rule, missing: bool)
    requires Acyclic(w, rank) && Speaks(w, rule)
    ensures var d, c := RuleEffect(w, Discovery, rule, missing), RuleEffect(w, Complete(records), rule, false);
            && Within(c.lookups, d.lookups)
            && (!d.missing ==> c.action == d.action)
            && (missing ==> d.missing)
            && !d.action.Sticky? && (d.missing ==> !d.action.Assign?)
  {
    if Applies(w, rule) && UnitFor(w, rule).Use? && rule.spec.Some? {
      var ev := Evaluation(w, UnitFor(w, rule).unit, Complete(records));
      assert Discovering(ev) == Evaluation(w, UnitFor(w, rule).unit, Discovery);
      ThroughSegmentCovers(ev, rank, rule, missing);
      ThroughSegmentCovers(ev, rank, rule, true);
      if rule.materialization.Some? && rule.materialization.value.read != "" && ev.unit.Some? {
        var q := RuleRecord(ev.unit.value, rule.materialization.value.read, rule.name);
        var d, c := ThroughSegment(Discovering(ev), rule, true), Recall(ev, rule, false, AnswerTo(ev.records, q));
        assert RuleEffect(w, Discovery, rule, missing).lookups == [q] + d.lookups;
        assert RuleEffect(w, Complete(records), rule, false).lookups == [q] + c.lookups;
        assert Within(c.lookups, d.lookups);
      }
    }
  }

  /** Once a flag misses a record its discovery run only looks things up. */
  lemma {:induction false} MissingRunCovers(w: World, records: seq<Record>, rank: string -> nat, flag: Flag,
      rules: seq<Rule>, falls: seq<Attribution>, toWrite: seq<Record>, falls': seq<Attribution>, toWrite': seq<Record>)
    requires Acyclic(w, rank) && Clean(w, rules, true)
    ensures var d, c := ResolveRules(w, Discovery, flag, rules, true, falls, toWrite),
                        ResolveRules(w, Complete(records), flag, rules, false, falls', toWrite');
            d.result == Missing && d.toWrite == toWrite && Within(c.lookups, d.lookups) && toWrite' <= c.toWrite
    decreases |rules|
  {
    hide RuleEffect;
    if rules != [] {
      var rule := rules[0];
      RuleCovers(w, records, rank, rule, true);
      CompleteEffect(w, Complete(records), rule);
      var turn := Act(Complete(records), flag, rule, RuleEffect(w, Complete(records), rule, false).action, falls',
          toWrite');
      if turn.Next? {
        MissingRunCovers(w, records, rank, flag, rules[1..], falls, toWrite, turn.falls, turn.toWrite);
      } else {
        MissingRunCovers(w, records, rank, flag, rules[1..], falls, toWrite, falls', toWrite');
      }
    }
  }

  /** What the complete run `c` of a flag's rules has in common with its discovery run `d`. */
  ghost predicate Agreeing(d: FlagOutcome, c: FlagOutcome, toWrite: seq<Record>) {
    && (if d.result.Missing? then d.toWrite <= c.toWrite else c.result == d.result && c.toWrite == d.toWrite)
    && Within(c.lookups, d.lookups) && toWrite <= d.toWrite
  }

  lemma {:induction false} MissingFirstAgrees(w: World, records: seq<Record>, rank: string -> nat, flag: Flag,
      rules: seq<Rule>, falls: seq<Attribution>, toWrite: seq<Record>)
    requires Acyclic(w, rank) && rules != [] && Clean(w, rules, false)
    requires RuleEffect(w, Discovery, rules[0], false).missing
    ensures Agreeing(ResolveRules(w, Discovery, flag, rules, false, falls, toWrite),
                     ResolveRules(w, Complete(records), flag, rules, false, falls, toWrite), toWrite)
  {
    hide RuleEffect;
    var rule := rules[0];
    RuleCovers(w, records, rank, rule, false);
    CompleteEffect(w, Complete(records), rule);
    var e := RuleEffect(w, Complete(records), rule, false);
    var turn := Act(Complete(records), flag, rule, e.action, falls, toWrite);
    if turn.Next? {
      MissingRunCovers(w, records, rank, flag, rules[1..], falls, toWrite, turn.falls, turn.toWrite);
    } else {
      MissingRunCovers(w, records, rank, flag, rules[1..], falls, toWrite, falls, toWrite);
    }
  }

  /**
   A clean discovery run of a flag either ends as every complete run does, with the same writes, or misses a record;
   then what it wrote so far the complete run writes first. In both cases it has looked up all the complete run asks.
   */
  lemma {:induction false} RulesAgree(w: World, records: seq<Record>, rank: string -> nat, flag: Flag, rules: seq<Rule>,
      falls: seq<Attribution>, toWrite: seq<Record>)
    requires Acyclic(w, rank) && Clean(w, rules, false)
    ensures Agreeing(ResolveRules(w, Discovery, flag, rules, false, falls, toWrite),
                     ResolveRules(w, Complete(records), flag, rules, false, falls, toWrite), toWrite)
    decreases |rules|
  {
    hide RuleEffect;
    if rules != [] {
      var rule := rules[0];
      if RuleEffect(w, Discovery, rule, false).missing {
        MissingFirstAgrees(w, records, rank, flag, rules, falls, toWrite);
      } else {
        RuleCovers(w, records, rank, rule, false);
        CompleteEffect(w, Complete(records), rule);
        var turn := Act(Complete(records), flag, rule, RuleEffect(w, Complete(records), rule, false).action, falls,
                        toWrite);
        if turn.Next? {
          RulesAgree(w, records, rank, flag, rules[1..], turn.falls, turn.toWrite);
        }
      }
    }
  }
}
