/**
 The resolver as it runs: loops over operands, rules and flags that update the materialization context in place.
 Every method computes what the functions of `Segments`, `Flags` and `Protocol` specify and leaves in the context
 exactly the reads and writes they list.
 */
module Resolver {
  import opened Wrappers
  import opened Materializations
  import opened Segments
  import opened Flags
  import opened Protocol

  /** `to_read` went from `before` to `after` through the lookups of `o`, and `r` is its result. */
  ghost predicate Ran(rs: Records, before: seq<Record>, after: seq<Record>, o: Outcome,
      r: Result<Tribool, ResolveError>) {
    r == o.result && after == Noted(rs, before, o.lookups)
  }

  /** An outcome after some lookups already made. */
  ghost function Following(lookups: seq<Query>, o: Outcome): Outcome { Outcome(o.result, lookups + o.lookups) }

  /** One turn of either operand loop. */
  lemma {:induction false} OperandStep(ev: Evaluation, criteria: map<string, Criterion>, visited: set<string>,
      ops: seq<Expr>, stop: bool, i: nat, hasUnknown: bool, before: seq<Record>, lookups: seq<Query>, whole: Outcome)
    requires i < |ops| && whole == Following(lookups, EvaluateAll(ev, criteria, visited, ops[i..], stop, hasUnknown))
    ensures var o := Evaluate(ev, criteria, visited, ops[i]);
            && Noted(ev.records, before, lookups + o.lookups)
                == Noted(ev.records, Noted(ev.records, before, lookups), o.lookups)
            && (o.result.Err? || o.result.value == Known(stop) ==> whole == Following(lookups, o))
            && (o.result.Ok? && o.result.value != Known(stop) ==>
                 whole == Following(lookups + o.lookups,
                                    EvaluateAll(ev, criteria, visited, ops[i + 1..], stop, hasUnknown
                                        || o.result.value.Unknown?)))
    ensures SizeAll(ops[i..]) == 1 + Size(ops[i]) + SizeAll(ops[i + 1..])
  {
    assert ops[i..][0] == ops[i] && ops[i..][1..] == ops[i + 1..];
    NotedAppend(ev.records, before, lookups, Evaluate(ev, criteria, visited, ops[i]).lookups);
  }

  /** `run` is what the flag loop has done so far, `resolved` and `lookups`, and then `rest`. */
  ghost predicate Continues(run: Run, base: seq<AssignedFlag>, resolved: seq<AssignedFlag>, lookups: seq<Query>,
      rest: Run) {
    && run.failure == rest.failure && run.toWrite == rest.toWrite && run.lookups == lookups + rest.lookups
    && (run.failure.None? ==> base + run.resolved == resolved + rest.resolved)
  }

  /** One turn of the flag loop. */
  lemma {:induction false} FlagStep(w: World, rs: Records, flags: seq<Flag>, i: nat, toWrite: seq<Record>, run: Run,
      base: seq<AssignedFlag>, resolved: seq<AssignedFlag>, lookups: seq<Query>)
    requires i < |flags| && Continues(run, base, resolved, lookups, ResolveAll(w, rs, flags[i..], toWrite))
    ensures var o := Flags.ResolveFlag(w, rs, flags[i], toWrite);
            && Noted(rs, [], lookups + o.lookups) == Noted(rs, Noted(rs, [], lookups), o.lookups)
            && (o.result.Failed? ==> run.failure == Some(o.result.error))
            && (!o.result.Failed? ==>
                 Continues(run, base, resolved + ValueOf(o), lookups + o.lookups,
                     ResolveAll(w, rs, flags[i + 1..], o.toWrite)))
  {
    hide Flags.ResolveFlag, Noted;
    var o := Flags.ResolveFlag(w, rs, flags[i], toWrite);
    assert flags[i..][0] == flags[i] && flags[i..][1..] == flags[i + 1..];
    NotedAppend(rs, [], lookups, o.lookups);
    var rest := ResolveAll(w, rs, flags[i + 1..], o.toWrite);
    assert lookups + (o.lookups + rest.lookups) == lookups + o.lookups + rest.lookups;
    assert resolved + (ValueOf(o) + rest.resolved) == resolved + ValueOf(o) + rest.resolved;
  }

  lemma {:induction false} FlagLoopEnds(w: World, rs: Records, flags: seq<Flag>, state: Continuation, run: Run,
      resolved: seq<AssignedFlag>, lookups: seq<Query>, toWrite: seq<Record>)
    requires Continues(run, state.resolved, resolved, lookups, ResolveAll(w, rs, flags[|flags|..], toWrite))
    ensures var toRead := Noted(rs, [], lookups);
            Conclude(state, rs, run) ==
            if toRead != [] then Suspended(toRead, Continuation(state.names, resolved, toWrite))
                else Resolved(resolved, toWrite)
  {
    assert lookups + [] == lookups && resolved + [] == resolved;
  }

  class AccountResolver {
    const world: World

    constructor (world: World)
      ensures this.world == world
    {
      this.world := world;
    }

    method EvaluateExpression(unit: Option<string>, criteria: map<string, Criterion>, visited: set<string>, e: Expr,
        ctx: MaterializationContext)
      returns (r: Result<Tribool, ResolveError>)
      modifies ctx`toRead
      ensures Ran(ctx.records, old(ctx.toRead), ctx.toRead,
          Evaluate(Evaluation(world, unit, ctx.records), criteria, visited, e), r)
      decreases world.segments.Keys - visited, Size(e), 1
    {
      match e {
        case Empty =>
          r := Ok(Known(false));
        case Ref(id) =>
          if id in criteria {
            r := EvaluateCriterion(unit, visited, criteria[id], ctx);
          } else {
            r := Ok(Known(false));
          }
        case Not(x) =>
          var t := EvaluateExpression(unit, criteria, visited, x, ctx);
          r := if t.Err? then t else Ok(Negate(t.value));
        case And(ops) =>
          r := EvaluateAnd(unit, criteria, visited, ops, ctx);
        case Or(ops) =>
          r := EvaluateOr(unit, criteria, visited, ops, ctx);
      }
    }

    method EvaluateAnd(unit: Option<string>, criteria: map<string, Criterion>, visited: set<string>, ops: seq<Expr>,
        ctx: MaterializationContext)
      returns (r: Result<Tribool, ResolveError>)
      modifies ctx`toRead
      ensures Ran(ctx.records, old(ctx.toRead), ctx.toRead,
                  EvaluateAll(Evaluation(world, unit, ctx.records), criteria, visited, ops, false, false), r)
      decreases world.segments.Keys - visited, SizeAll(ops), 0
    {
      ghost var ev := Evaluation(world, unit, ctx.records);
      ghost var whole, lookups := EvaluateAll(ev, criteria, visited, ops, false, false), [];
      assert whole == Following([], whole);
      var hasUnknown, i := false, 0;
      while i < |ops|
        invariant i <= |ops| && SizeAll(ops[i..]) <= SizeAll(ops)
        invariant ctx.toRead == Noted(ctx.records, old(ctx.toRead), lookups)
        invariant whole == Following(lookups, EvaluateAll(ev, criteria, visited, ops[i..], false, hasUnknown))
      {
        ghost var o := Evaluate(ev, criteria, visited, ops[i]);
        OperandStep(ev, criteria, visited, ops, false, i, hasUnknown, old(ctx.toRead), lookups, whole);
        var t := EvaluateExpression(unit, criteria, visited, ops[i], ctx);
        if t.Err? || t.value == Known(false) {
          return t;
        }
        if t.value.Unknown? {
          hasUnknown := true;
        }
        lookups := lookups + o.lookups;
        i := i + 1;
      }
      assert lookups + [] == lookups;
      r := Ok(if hasUnknown then Unknown else Known(true));
    }

    method EvaluateOr(unit: Option<string>, criteria: map<string, Criterion>, visited: set<string>, ops: seq<Expr>,
        ctx: MaterializationContext)
      returns (r: Result<Tribool, ResolveError>)
      modifies ctx`toRead
      ensures Ran(ctx.records, old(ctx.toRead), ctx.toRead,
                  EvaluateAll(Evaluation(world, unit, ctx.records), criteria, visited, ops, true, false), r)
      decreases world.segments.Keys - visited, SizeAll(ops), 0
    {
      ghost var ev := Evaluation(world, unit, ctx.records);
      ghost var whole, lookups := EvaluateAll(ev, criteria, visited, ops, true, false), [];
      assert whole == Following([], whole);
      var hasUnknown, i := false, 0;
      while i < |ops|
        invariant i <= |ops| && SizeAll(ops[i..]) <= SizeAll(ops)
        invariant ctx.toRead == Noted(ctx.records, old(ctx.toRead), lookups)
        invariant whole == Following(lookups, EvaluateAll(ev, criteria, visited, ops[i..], true, hasUnknown))
      {
        ghost var o := Evaluate(ev, criteria, visited, ops[i]);
        OperandStep(ev, criteria, visited, ops, true, i, hasUnknown, old(ctx.toRead), lookups, whole);
        var t := EvaluateExpression(unit, criteria, visited, ops[i], ctx);
        if t.Err? || t.value == Known(true) {
          return t;
        }
        if t.value.Unknown? {
          hasUnknown := true;
        }
        lookups := lookups + o.lookups;
        i := i + 1;
      }
      assert lookups + [] == lookups;
      r := Ok(if hasUnknown then Unknown else Known(false));
    }

    method EvaluateCriterion(unit: Option<string>, visited: set<string>, c: Criterion, ctx: MaterializationContext)
      returns (r: Result<Tribool, ResolveError>)
      modifies ctx`toRead
      ensures Ran(ctx.records, old(ctx.toRead), ctx.toRead,
          Segments.EvaluateCriterion(Evaluation(world, unit, ctx.records), visited, c), r)
      decreases world.segments.Keys - visited, 1, 0
    {
      match c {
        case Unset =>
          r := Ok(Known(false));
        case Attribute(text) =>
          var outcome := world.attribute(text);
          r := match outcome
               case Decided(b) => Ok(Known(b))
               case Unrecognized => Err(UnrecognizedRule)
               case Broken => Err(Internal);
        case SegmentRef(name) =>
          if name in world.segments {
            r := SegmentMatchInternal(unit, visited, name, ctx);
          } else {
            r := Ok(Known(false));
          }
        case MaterializedSegment(name) =>
          if unit.None? {
            r := Ok(Known(false));
          } else if name in world.blooms {
            r := Ok(Known(world.blooms[name](unit.value)));
          } else {
            r := ctx.Consult(Membership(unit.value, name));
          }
      }
    }

    /** A segment already on the path is not entered again; the set is the caller's own copy. */
    method SegmentMatchInternal(unit: Option<string>, visited: set<string>, name: string, ctx: MaterializationContext)
      returns (r: Result<Tribool, ResolveError>)
      requires name in world.segments
      modifies ctx`toRead
      ensures Ran(ctx.records, old(ctx.toRead), ctx.toRead,
          SegmentMatch(Evaluation(world, unit, ctx.records), visited, name), r)
      decreases world.segments.Keys - visited, 0, 0
    {
      if name in visited {
        return Ok(Known(false));
      }
      assert name in world.segments.Keys - visited && name !in world.segments.Keys - (visited + {name});
      r := this.TargetingMatch(unit, visited + {name}, name, ctx);
      if r.Err? || r.value == Known(false) || name !in world.bitsets {
        return;
      }
      var admitted := Admits(world, unit, world.bitsets[name]);
      if admitted.Err? {
        r := Err(admitted.error);
      } else if !admitted.value {
        r := Ok(Known(false));
      }
    }

    method TargetingMatch(unit: Option<string>, visited: set<string>, name: string, ctx: MaterializationContext)
      returns (r: Result<Tribool, ResolveError>)
      requires name in world.segments
      modifies ctx`toRead
      ensures Ran(ctx.records, old(ctx.toRead), ctx.toRead,
          Segments.TargetingMatch(Evaluation(world, unit, ctx.records), visited, name), r)
      decreases world.segments.Keys - visited, TargetingSize(world.segments[name]), 2
    {
      var segment := world.segments[name];
      if segment.targeting.None? || segment.targeting.value.expression.None? {
        return Ok(Known(true));
      }
      r := EvaluateExpression(unit, segment.targeting.value.criteria, visited,
          segment.targeting.value.expression.value, ctx);
    }

    /** One rule of the loop below, up to what it assigns. */
    method TryRule(rule: Rule, missing: bool, ctx: MaterializationContext) returns (missing': bool, action: Action)
      modifies ctx`toRead
      ensures var e := RuleEffect(world, ctx.records, rule, missing);
              missing' == e.missing && action == e.action
                  && ctx.toRead == Noted(ctx.records, old(ctx.toRead), e.lookups)
    {
      missing', action := missing, Pass;
      if !Applies(world, rule) {
        return;
      }
      var key := UnitFor(world, rule);
      if key.NoKey? {
        return;
      }
      if key.KeyError? {
        return missing, BadKey;
      }
      if rule.spec.None? {
        return;
      }
      var unit := key.unit;
      var matched, known := false, false;
      ghost var ev := Evaluation(world, unit, ctx.records);
      ghost var lookups: seq<Query> := [];
      if rule.materialization.Some? && rule.materialization.value.read != "" {
        if unit.None? {
          return;
        }
        var q := RuleRecord(unit.value, rule.materialization.value.read, rule.name);
        var found := ctx.Consult(q);
        lookups := [q];
        if found.Err? {
          return missing, Fault(found.error);
        }
        if found.value.Unknown? {
          missing' := true;
        } else if !found.value.value {
          if ModeOf(rule).mustMatch {
            return;
          }
        } else {
          var t: Result<Tribool, ResolveError> := Ok(Known(true));
          if !ModeOf(rule).targetingCanBeIgnored {
            ghost var o := Segments.TargetingMatch(ev, {}, rule.segment);
            NotedAppend(ctx.records, old(ctx.toRead), lookups, o.lookups);
            t := this.TargetingMatch(unit, {}, rule.segment, ctx);
            lookups := lookups + o.lookups;
          }
          if t.Err? {
            action := if t.error.UnrecognizedRule? then Pass else Fault(t.error);
            return;
          }
          matched := t.value == Known(true);
          if matched {
            var variant := First(ctx.records.records, q).value.variant;
            var stuck := SelectAssignment(world, variant, unit.value, rule.spec.value, rule.segment);
            if stuck.Some? {
              return missing, Sticky(stuck.value, unit.value);
            }
          }
        }
      }
      if !matched {
        ghost var o := SegmentMatch(ev, {}, rule.segment);
        NotedAppend(ctx.records, old(ctx.toRead), lookups, o.lookups);
        var m := SegmentMatchInternal(unit, {}, rule.segment, ctx);
        if m.Err? {
          action := if m.error.UnrecognizedRule? then Pass else Fault(m.error);
          return;
        }
        if m.value.Unknown? {
          missing' := true;
          return;
        }
        matched := m.value.value;
      }
      if matched && !missing' {
        action := Choose(Evaluation(world, unit, ctx.records), rule);
      }
    }

    /** What the loop does with a rule's action: write its record, then go on or stop. */
    method Perform(flag: Flag, rule: Rule, action: Action, falls: seq<Attribution>,
        ctx: MaterializationContext) returns (turn: Turn)
      modifies ctx`toWrite
      ensures turn == Act(ctx.records, flag, rule, action, falls, old(ctx.toWrite)) && ctx.toWrite == turn.toWrite
    {
      match action {
        case Pass =>
          turn := Next(falls, ctx.toWrite);
        case BadKey =>
          turn := End(Done(ErrorValue(flag, falls, TargetingKeyError)), ctx.toWrite);
        case Fault(error) =>
          turn := End(Failed(error), ctx.toWrite);
        case Sticky(a, unit) =>
          turn := End(MatchVariant(flag, falls, rule, a, unit), ctx.toWrite);
        case Assign(a, unit) =>
          var write := WriteOf(rule, a, unit);
          if write.Some? {
            var written := ctx.AddToWrite(write.value);
            if written.Err? {
              return End(Failed(written.error), ctx.toWrite);
            }
          }
          if a.target == Some(Fallthrough) {
            turn := Next(falls + [Attribution(rule.name, a.id, UnitText(unit), rule.selector)], ctx.toWrite);
          } else if a.target == Some(ClientDefault) {
            turn := End(Done(MatchValue(flag, falls, rule, "", a.id, UnitText(unit))), ctx.toWrite);
          } else {
            turn := End(MatchVariant(flag, falls, rule, a, UnitText(unit)), ctx.toWrite);
          }
      }
    }

    method ResolveFlagInternal(flag: Flag, ctx: MaterializationContext) returns (r: FlagResult)
      modifies ctx`toRead, ctx`toWrite
      ensures var o := Flags.ResolveFlagInternal(world, ctx.records, flag, old(ctx.toWrite));
              r == o.result && ctx.toRead == Noted(ctx.records, old(ctx.toRead), o.lookups) && ctx.toWrite == o.toWrite
    {
      hide RuleEffect;
      if flag.state.Archived? {
        return Done(ErrorValue(flag, [], FlagArchived));
      }
      var missing, falls, i := false, [], 0;
      ghost var start, rs, lookups := ctx.toRead, ctx.records, [];
      ghost var whole := ResolveRules(world, rs, flag, flag.rules, false, [], ctx.toWrite);
      while i < |flag.rules|
        invariant i <= |flag.rules|
        invariant ctx.toRead == Noted(rs, start, lookups)
        invariant whole == After(lookups, ResolveRules(world, rs, flag, flag.rules[i..], missing, falls, ctx.toWrite))
      {
        var rule := flag.rules[i];
        ghost var e := RuleEffect(world, rs, rule, missing);
        NotedAppend(rs, start, lookups, e.lookups);
        assert flag.rules[i..][0] == rule && flag.rules[i..][1..] == flag.rules[i + 1..];
        var action;
        missing, action := TryRule(rule, missing, ctx);
        var turn := Perform(flag, rule, action, falls, ctx);
        if turn.End? {
          return turn.result;
        }
        falls := turn.falls;
        lookups := lookups + e.lookups;
        i := i + 1;
      }
      assert lookups + [] == lookups;
      r := if missing then Missing else Done(NewValue(flag, falls));
    }

    method ResolveFlag(flag: Flag, ctx: MaterializationContext) returns (r: FlagResult)
      modifies ctx`toRead, ctx`toWrite
      ensures var o := Flags.ResolveFlag(world, ctx.records, flag, old(ctx.toWrite));
              r == o.result && ctx.toRead == Noted(ctx.records, old(ctx.toRead), o.lookups) && ctx.toWrite == o.toWrite
    {
      hide RuleEffect, ResolveRules;
      r := ResolveFlagInternal(flag, ctx);
      if r == Failed(MaterializationsUnsupported) {
        r := Done(ErrorValue(flag, [], MaterializationNotSupported));
      } else if r == Failed(UnrecognizedRule) {
        r := Done(ErrorValue(flag, [], UnrecognizedTargetingRule));
      }
    }

    /** The request, as `Protocol.Process` specifies it. */
    method ResolveFlags(catalog: seq<Flag>, request: Request) returns (response: Response)
      ensures response == Process(world, catalog, request)
    {
      hide Flags.ResolveFlag, ResolveAll, ToResolve;
      var (state, rs) := Begin(request);
      var ctx := new MaterializationContext(rs);
      ctx.toWrite := state.toWrite;
      var flags := ToResolve(world, catalog, state);
      if |flags| > MAX_FLAGS {
        return Rejected(TooManyFlags);
      }
      var resolved, i := state.resolved, 0;
      ghost var run, lookups := ResolveAll(world, rs, flags, state.toWrite), [];
      assert flags[0..] == flags && [] + run.lookups == run.lookups;
      while i < |flags|
        invariant i <= |flags| && ctx.toRead == Noted(rs, [], lookups)
        invariant Continues(run, state.resolved, resolved, lookups, ResolveAll(world, rs, flags[i..], ctx.toWrite))
      {
        ghost var o := Flags.ResolveFlag(world, rs, flags[i], ctx.toWrite);
        FlagStep(world, rs, flags, i, ctx.toWrite, run, state.resolved, resolved, lookups);
        ghost var was := resolved;
        var r := ResolveFlag(flags[i], ctx);
        match r {
          case Done(value) =>
            resolved := resolved + [value];
          case Missing =>
          case Failed(error) =>
            return Rejected(ResolveFailed(error));
        }
        assert resolved == was + ValueOf(o);
        lookups := lookups + o.lookups;
        i := i + 1;
      }
      FlagLoopEnds(world, rs, flags, state, run, resolved, lookups, ctx.toWrite);
      if ctx.toRead != [] {
        response := Suspended(ctx.toRead, Continuation(state.names, resolved, ctx.toWrite));
      } else {
        response := Resolved(resolved, ctx.toWrite);
      }
    }
  }
}
