/**
 Laws of targeting evaluation. A discovery run is sound and covers every read of a run with records; evaluation
 depends on the records only through the answers to its own lookups; on acyclic segment graphs the visited set is
 irrelevant and the answer is the plain boolean reading of the expression.
 */
module SegmentLaws {
  import opened Wrappers
  import opened Materializations
  import opened Segments
  import Strings

  // ----- Locality: equal answers to the lookups made, equal outcome

  ghost predicate Agree(a: Records, b: Records, lookups: seq<Query>) {
    forall q :: q in lookups ==> AnswerTo(a, q) == AnswerTo(b, q)
  }

  lemma {:induction false} EvaluateIsLocal(ev: Evaluation, other: Records, criteria: map<string, Criterion>,
      visited: set<string>, e: Expr)
    requires Agree(ev.records, other, Evaluate(ev, criteria, visited, e).lookups)
    ensures Evaluate(ev.(records := other), criteria, visited, e) == Evaluate(ev, criteria, visited, e)
    decreases Left(ev, visited), Size(e), 1
  {
    match e
    case Empty =>
    case Ref(id) => if id in criteria { CriterionIsLocal(ev, other, visited, criteria[id]); }
    case Not(x) => EvaluateIsLocal(ev, other, criteria, visited, x);
    case And(ops) => AllIsLocal(ev, other, criteria, visited, ops, false, false);
    case Or(ops) => AllIsLocal(ev, other, criteria, visited, ops, true, false);
  }

  lemma {:induction false} AllIsLocal(ev: Evaluation, other: Records, criteria: map<string, Criterion>,
      visited: set<string>, ops: seq<Expr>, stop: bool, sawUnknown: bool)
    requires Agree(ev.records, other, EvaluateAll(ev, criteria, visited, ops, stop, sawUnknown).lookups)
    ensures EvaluateAll(ev.(records := other), criteria, visited, ops, stop, sawUnknown)
         == EvaluateAll(ev, criteria, visited, ops, stop, sawUnknown)
    decreases Left(ev, visited), SizeAll(ops), 0
  {
    if ops != [] {
      EvaluateIsLocal(ev, other, criteria, visited, ops[0]);
      var head := Evaluate(ev, criteria, visited, ops[0]);
      if head.result.Ok? && head.result.value != Known(stop) {
        AllIsLocal(ev, other, criteria, visited, ops[1..], stop, sawUnknown || head.result.value.Unknown?);
      }
    }
  }

  lemma {:induction false} CriterionIsLocal(ev: Evaluation, other: Records, visited: set<string>, c: Criterion)
    requires Agree(ev.records, other, EvaluateCriterion(ev, visited, c).lookups)
    ensures EvaluateCriterion(ev.(records := other), visited, c) == EvaluateCriterion(ev, visited, c)
    decreases Left(ev, visited), 1, 0
  {
    if c.SegmentRef? && c.segment in ev.world.segments {
      SegmentIsLocal(ev, other, visited, c.segment);
    }
  }

  lemma {:induction false} SegmentIsLocal(ev: Evaluation, other: Records, visited: set<string>, name: string)
    requires name in ev.world.segments
    requires Agree(ev.records, other, SegmentMatch(ev, visited, name).lookups)
    ensures SegmentMatch(ev.(records := other), visited, name) == SegmentMatch(ev, visited, name)
    decreases Left(ev, visited), 0, 0
  {
    if name !in visited {
      assert name in Left(ev, visited) && name !in Left(ev, visited + {name});
      TargetingIsLocal(ev, other, visited + {name}, name);
    }
  }

  lemma {:induction false} TargetingIsLocal(ev: Evaluation, other: Records, visited: set<string>, name: string)
    requires name in ev.world.segments
    requires Agree(ev.records, other, TargetingMatch(ev, visited, name).lookups)
    ensures TargetingMatch(ev.(records := other), visited, name) == TargetingMatch(ev, visited, name)
    decreases Left(ev, visited), TargetingSize(ev.world.segments[name]), 2
  {
    var s := ev.world.segments[name];
    if s.targeting.Some? && s.targeting.value.expression.Some? {
      EvaluateIsLocal(ev, other, s.targeting.value.criteria, visited, s.targeting.value.expression.value);
    }
  }

  // ----- Discovery is sound, and covers the reads of every complete run

  /** What a discovery outcome promises about the outcome under complete records. Targeting only asks for membership. */
  ghost predicate Covers(discovered: Outcome, complete: Outcome) {
    && (complete.result.Ok? ==> complete.result.value.Known?)
    && (forall q :: q in discovered.lookups || q in complete.lookups ==> q.Membership?)
    && (discovered.result.Ok? ==>
      && complete.result.Ok?
      && (discovered.result.value.Known? ==> complete.result.value == discovered.result.value)
      && forall q :: q in complete.lookups ==> q in discovered.lookups)
  }

  function Discovering(ev: Evaluation): Evaluation { ev.(records := Discovery) }

  lemma {:induction false} EvaluateCovers(ev: Evaluation, criteria: map<string, Criterion>, visited: set<string>,
      e: Expr)
    requires ev.records.Complete?
    ensures Covers(Evaluate(Discovering(ev), criteria, visited, e), Evaluate(ev, criteria, visited, e))
    decreases Left(ev, visited), Size(e), 1
  {
    match e
    case Empty =>
    case Ref(id) => if id in criteria { CriterionCovers(ev, visited, criteria[id]); }
    case Not(x) => EvaluateCovers(ev, criteria, visited, x);
    case And(ops) => AllCovers(ev, criteria, visited, ops, false, false);
    case Or(ops) => AllCovers(ev, criteria, visited, ops, true, false);
  }

  lemma {:induction false} AllCovers(ev: Evaluation, criteria: map<string, Criterion>, visited: set<string>,
      ops: seq<Expr>, stop: bool, sawUnknown: bool)
    requires ev.records.Complete?
    ensures Covers(EvaluateAll(Discovering(ev), criteria, visited, ops, stop, sawUnknown),
                   EvaluateAll(ev, criteria, visited, ops, stop, false))
    ensures sawUnknown ==>
              EvaluateAll(Discovering(ev), criteria, visited, ops, stop, sawUnknown).result != Ok(Known(!stop))
    decreases Left(ev, visited), SizeAll(ops), 0
  {
    if ops != [] {
      EvaluateCovers(ev, criteria, visited, ops[0]);
      var head := Evaluate(Discovering(ev), criteria, visited, ops[0]);
      AllCovers(ev, criteria, visited, ops[1..], stop, sawUnknown || head.result == Ok(Unknown));
    }
  }

  lemma {:induction false} CriterionCovers(ev: Evaluation, visited: set<string>, c: Criterion)
    requires ev.records.Complete?
    ensures Covers(EvaluateCriterion(Discovering(ev), visited, c), EvaluateCriterion(ev, visited, c))
    decreases Left(ev, visited), 1, 0
  {
    if c.SegmentRef? && c.segment in ev.world.segments {
      SegmentCovers(ev, visited, c.segment);
    }
  }

  lemma {:induction false} SegmentCovers(ev: Evaluation, visited: set<string>, name: string)
    requires name in ev.world.segments && ev.records.Complete?
    ensures Covers(SegmentMatch(Discovering(ev), visited, name), SegmentMatch(ev, visited, name))
    decreases Left(ev, visited), 0, 0
  {
    if name !in visited {
      assert name in Left(ev, visited) && name !in Left(ev, visited + {name});
      TargetingCovers(ev, visited + {name}, name);
    }
  }

  lemma {:induction false} TargetingCovers(ev: Evaluation, visited: set<string>, name: string)
    requires name in ev.world.segments && ev.records.Complete?
    ensures Covers(TargetingMatch(Discovering(ev), visited, name), TargetingMatch(ev, visited, name))
    decreases Left(ev, visited), TargetingSize(ev.world.segments[name]), 2
  {
    var s := ev.world.segments[name];
    if s.targeting.Some? && s.targeting.value.expression.Some? {
      EvaluateCovers(ev, s.targeting.value.criteria, visited, s.targeting.value.expression.value);
    }
  }

  // ----- Acyclic graphs: the visited set never decides

  ghost predicate RefsBelow(criteria: map<string, Criterion>, rank: string -> nat, bound: nat) {
    forall id :: id in criteria && criteria[id].SegmentRef? ==> rank(criteria[id].segment) < bound
  }

  /** No segment reaches itself: references go down in some ranking. Diamonds are allowed. */
  ghost predicate Acyclic(w: World, rank: string -> nat) {
    forall s :: s in w.segments && w.segments[s].targeting.Some? ==>
        RefsBelow(w.segments[s].targeting.value.criteria, rank, rank(s))
  }

  ghost predicate AllAbove(visited: set<string>, rank: string -> nat, bound: nat) {
    forall s :: s in visited ==> rank(s) >= bound
  }

  lemma {:induction false} EvaluateIgnoresVisited(ev: Evaluation, rank: string -> nat, criteria: map<string, Criterion>,
      v: set<string>, u: set<string>, bound: nat, e: Expr)
    requires Acyclic(ev.world, rank) && RefsBelow(criteria, rank, bound)
    requires AllAbove(v, rank, bound) && AllAbove(u, rank, bound)
    ensures Evaluate(ev, criteria, v, e) == Evaluate(ev, criteria, u, e)
    decreases bound, Size(e), 1
  {
    match e
    case Empty =>
    case Ref(id) =>
      if id in criteria && criteria[id].SegmentRef? && criteria[id].segment in ev.world.segments {
        SegmentIgnoresVisited(ev, rank, v, u, criteria[id].segment);
      }
    case Not(x) => EvaluateIgnoresVisited(ev, rank, criteria, v, u, bound, x);
    case And(ops) => AllIgnoresVisited(ev, rank, criteria, v, u, bound, ops, false, false);
    case Or(ops) => AllIgnoresVisited(ev, rank, criteria, v, u, bound, ops, true, false);
  }

  lemma {:induction false} AllIgnoresVisited(ev: Evaluation, rank: string -> nat, criteria: map<string, Criterion>,
      v: set<string>, u: set<string>, bound: nat, ops: seq<Expr>, stop: bool, sawUnknown: bool)
    requires Acyclic(ev.world, rank) && RefsBelow(criteria, rank, bound)
    requires AllAbove(v, rank, bound) && AllAbove(u, rank, bound)
    ensures EvaluateAll(ev, criteria, v, ops, stop, sawUnknown) == EvaluateAll(ev, criteria, u, ops, stop, sawUnknown)
    decreases bound, SizeAll(ops), 0
  {
    if ops != [] {
      EvaluateIgnoresVisited(ev, rank, criteria, v, u, bound, ops[0]);
      var head := Evaluate(ev, criteria, v, ops[0]);
      if head.result.Ok? && head.result.value != Known(stop) {
        AllIgnoresVisited(ev, rank, criteria, v, u, bound, ops[1..], stop, sawUnknown || head.result.value.Unknown?);
      }
    }
  }

  lemma {:induction false} SegmentIgnoresVisited(ev: Evaluation, rank: string -> nat, v: set<string>, u: set<string>,
      name: string)
    requires name in ev.world.segments && Acyclic(ev.world, rank)
    requires AllAbove(v, rank, rank(name) + 1) && AllAbove(u, rank, rank(name) + 1)
    ensures SegmentMatch(ev, v, name) == SegmentMatch(ev, u, name)
    decreases rank(name) + 1, 0, 0
  {
    TargetingIgnoresVisited(ev, rank, v + {name}, u + {name}, name);
  }

  lemma {:induction false} TargetingIgnoresVisited(ev: Evaluation, rank: string -> nat, v: set<string>, u: set<string>,
      name: string)
    requires name in ev.world.segments && Acyclic(ev.world, rank)
    requires AllAbove(v, rank, rank(name)) && AllAbove(u, rank, rank(name))
    ensures TargetingMatch(ev, v, name) == TargetingMatch(ev, u, name)
    decreases rank(name), TargetingSize(ev.world.segments[name]), 2
  {
    var s := ev.world.segments[name];
    if s.targeting.Some? && s.targeting.value.expression.Some? {
      EvaluateIgnoresVisited(ev, rank, s.targeting.value.criteria, v, u, rank(name),
          s.targeting.value.expression.value);
    }
  }

  // ----- Bitsets

  /** The bit of the unit is set; a bitset that is too short has no bit for it. Without a unit every bit must be set. */
  ghost predicate BitHolds(w: World, unit: Option<string>, bits: seq<bool>) {
    if unit.None? then forall i :: 0 <= i < |bits| ==> bits[i]
    else
      exists account ::
        && Strings.SecondPart(w.accountName, '/', account)
        && var b := w.hash("MegaSalt-" + account + "|" + unit.value) % 0x1_0000_0000_0000_0000 / 16 % 1_000_000;
           b < |bits| && bits[b]
  }

  /** There is a unit, but no account to salt it with. */
  ghost predicate Unsalted(w: World, unit: Option<string>) {
    unit.Some? && forall account :: !Strings.SecondPart(w.accountName, '/', account)
  }

  /**
   A segment not entered before is its targeting and its bit: the bit is only looked at where the targeting does not
   fail or exclude the unit, and then it excludes it or leaves the answer as it was, an unknown one included.
   */
  lemma {:induction false} MatchIsTargetingAndBit(ev: Evaluation, visited: set<string>, name: string)
    requires name in ev.world.segments && name !in visited
    ensures var targeting, matched := TargetingMatch(ev, visited + {name}, name), SegmentMatch(ev, visited, name);
            && matched.lookups == targeting.lookups
            && matched.result ==
               if targeting.result.Err? || targeting.result == Ok(Known(false)) || name !in ev.world.bitsets
               then targeting.result
               else if Unsalted(ev.world, ev.unit) then Err(Internal)
               else if BitHolds(ev.world, ev.unit, ev.world.bitsets[name]) then targeting.result
               else Ok(Known(false))
  {
    hide Strings.Split;
    if name in ev.world.bitsets {
      BitIsAdmitted(ev.world, ev.unit, ev.world.bitsets[name]);
    }
  }

  lemma {:induction false} BitIsAdmitted(w: World, unit: Option<string>, bits: seq<bool>)
    ensures Admits(w, unit, bits) ==
            if Unsalted(w, unit) then Err(Internal) else Ok(BitHolds(w, unit, bits))
  {
    hide Strings.Split, Strings.SecondPart;
    if unit.Some? {
      forall account {
        Strings.SecondPartTells(w.accountName, '/', account);
      }
    }
  }

  // ----- The meaning of targeting on an acyclic graph, with no visited set and no lookups

  /** Whether the unit is in the materialization; where no records are given yet, as hoped for. */
  ghost predicate MemberHolds(rs: Records, unit: string, materialization: string, hoping: bool) {
    match rs
    case Discovery => hoping
    case Unsupported => false
    case Complete(records) => exists r :: r in records && r.unit == unit && r.materialization == materialization
  }

  /** The boolean reading of an expression, in which memberships that are not known yet turn out as hoped for. */
  ghost predicate Holds(ev: Evaluation, rank: string -> nat, criteria: map<string, Criterion>, bound: nat, e: Expr,
      hoping: bool)
    requires Acyclic(ev.world, rank) && RefsBelow(criteria, rank, bound)
    decreases bound, 1, e, 0
  {
    match e
    case Empty => false
    case Ref(id) => id in criteria && (
      match criteria[id]
      case Unset => false
      case Attribute(text) => ev.world.attribute(text) == Decided(true)
      case SegmentRef(name) => name in ev.world.segments && SegmentHolds(ev, rank, name, hoping)
      case MaterializedSegment(name) =>
        && ev.unit.Some?
        && if name in ev.world.blooms then ev.world.blooms[name](ev.unit.value)
           else MemberHolds(ev.records, ev.unit.value, name, hoping))
    case Not(x) => !Holds(ev, rank, criteria, bound, x, !hoping)
    case And(ops) => forall op | op in ops :: Holds(ev, rank, criteria, bound, op, hoping)
    case Or(ops) => exists op | op in ops :: Holds(ev, rank, criteria, bound, op, hoping)
  }

  ghost predicate SegmentHolds(ev: Evaluation, rank: string -> nat, name: string, hoping: bool)
    requires name in ev.world.segments && Acyclic(ev.world, rank)
    decreases rank(name) + 1, 0, Empty, 0
  {
    && TargetingHolds(ev, rank, name, hoping)
    && (name in ev.world.bitsets ==> BitHolds(ev.world, ev.unit, ev.world.bitsets[name]))
  }

  ghost predicate TargetingHolds(ev: Evaluation, rank: string -> nat, name: string, hoping: bool)
    requires name in ev.world.segments && Acyclic(ev.world, rank)
    decreases rank(name), 2, Empty, 0
  {
    match ev.world.segments[name].targeting
    case None => true
    case Some(t) => t.expression.Some? ==> Holds(ev, rank, t.criteria, rank(name), t.expression.value, hoping)
  }

  /** The expression fails with `error`: one of its operands does, and none in front of that fails or decides. */
  ghost predicate Raises(ev: Evaluation, rank: string -> nat, criteria: map<string, Criterion>, bound: nat, e: Expr,
      error: ResolveError)
    requires Acyclic(ev.world, rank) && RefsBelow(criteria, rank, bound)
    decreases bound, 1, e, 0
  {
    match e
    case Empty => false
    case Ref(id) => id in criteria && (
      match criteria[id]
      case Unset => false
      case Attribute(text) =>
        || (ev.world.attribute(text) == Unrecognized && error == UnrecognizedRule)
        || (ev.world.attribute(text) == Broken && error == Internal)
      case SegmentRef(name) => name in ev.world.segments && SegmentRaises(ev, rank, name, error)
      case MaterializedSegment(name) =>
        ev.unit.Some? && name !in ev.world.blooms && ev.records.Unsupported? && error == MaterializationsUnsupported)
    case Not(x) => Raises(ev, rank, criteria, bound, x, error)
    case And(ops) =>
      exists i :: 0 <= i < |ops| && Raises(ev, rank, criteria, bound, ops[i], error)
                  && forall j :: 0 <= j < i ==> GoesOn(ev, rank, criteria, bound, ops[j], false)
    case Or(ops) =>
      exists i :: 0 <= i < |ops| && Raises(ev, rank, criteria, bound, ops[i], error)
                  && forall j :: 0 <= j < i ==> GoesOn(ev, rank, criteria, bound, ops[j], true)
  }

  /** The operand does not fail, and is not known to be `stop`, which would decide. */
  ghost predicate GoesOn(ev: Evaluation, rank: string -> nat, criteria: map<string, Criterion>, bound: nat, op: Expr,
      stop: bool)
    requires Acyclic(ev.world, rank) && RefsBelow(criteria, rank, bound)
    decreases bound, 1, op, 1
  {
    && Holds(ev, rank, criteria, bound, op, !stop) != stop
    && forall error :: !Raises(ev, rank, criteria, bound, op, error)
  }

  ghost predicate SegmentRaises(ev: Evaluation, rank: string -> nat, name: string, error: ResolveError)
    requires name in ev.world.segments && Acyclic(ev.world, rank)
    decreases rank(name) + 1, 0, Empty, 0
  {
    || TargetingRaises(ev, rank, name, error)
    || (name in ev.world.bitsets && Unsalted(ev.world, ev.unit) && error == Internal
        && TargetingHolds(ev, rank, name, true) && forall other :: !TargetingRaises(ev, rank, name, other))
  }

  ghost predicate TargetingRaises(ev: Evaluation, rank: string -> nat, name: string, error: ResolveError)
    requires name in ev.world.segments && Acyclic(ev.world, rank)
    decreases rank(name), 2, Empty, 0
  {
    match ev.world.segments[name].targeting
    case None => false
    case Some(t) => t.expression.Some? && Raises(ev, rank, t.criteria, rank(name), t.expression.value, error)
  }

  /** What is known: true if it holds whatever the records will say, false if it cannot hold whatever they say. */
  function Reading(certain: bool, possible: bool): Tribool {
    if certain then Known(true) else if possible then Unknown else Known(false)
  }

  lemma {:induction false} EvaluateTells(ev: Evaluation, rank: string -> nat, criteria: map<string, Criterion>,
      v: set<string>, bound: nat, e: Expr)
    requires Acyclic(ev.world, rank) && RefsBelow(criteria, rank, bound) && AllAbove(v, rank, bound)
    ensures var result := Evaluate(ev, criteria, v, e).result;
            && (forall error :: result == Err(error) <==> Raises(ev, rank, criteria, bound, e, error))
            && (result.Ok? ==>
                 result.value
                 == Reading(Holds(ev, rank, criteria, bound, e, false), Holds(ev, rank, criteria, bound, e, true)))
    ensures Holds(ev, rank, criteria, bound, e, false) ==> Holds(ev, rank, criteria, bound, e, true)
    decreases bound, Size(e), 1
  {
    match e
    case Empty =>
    case Ref(id) =>
      if id in criteria {
        MemberTells(ev, criteria[id]);
        if criteria[id].SegmentRef? && criteria[id].segment in ev.world.segments {
          SegmentTells(ev, rank, v, criteria[id].segment);
        }
      }
    case Not(x) => EvaluateTells(ev, rank, criteria, v, bound, x);
    case And(ops) =>
      AllTells(ev, rank, criteria, v, bound, ops, false, false);
    case Or(ops) =>
      AllTells(ev, rank, criteria, v, bound, ops, true, false);
  }

  lemma {:induction false} MemberTells(ev: Evaluation, c: Criterion)
    ensures c.MaterializedSegment? && ev.unit.Some? && c.name !in ev.world.blooms ==>
              Member(ev, c.name).result ==
              if ev.records.Unsupported? then Err(MaterializationsUnsupported)
              else Ok(Reading(MemberHolds(ev.records, ev.unit.value, c.name, false),
                              MemberHolds(ev.records, ev.unit.value, c.name, true)))
  {
    if c.MaterializedSegment? && ev.unit.Some? && ev.records.Complete? {
      var q := Membership(ev.unit.value, c.name);
      assert First(ev.records.records, q).Some? <==> exists r :: r in ev.records.records && q.Matches(r);
    }
  }

  /** Some operand fails with `error`, and none in front of it fails or is known to be `stop`. */
  ghost predicate AllRaise(ev: Evaluation, rank: string -> nat, criteria: map<string, Criterion>, bound: nat,
      ops: seq<Expr>, stop: bool, error: ResolveError)
    requires Acyclic(ev.world, rank) && RefsBelow(criteria, rank, bound)
  {
    exists i :: 0 <= i < |ops| && Raises(ev, rank, criteria, bound, ops[i], error)
      && forall j :: 0 <= j < i ==> GoesOn(ev, rank, criteria, bound, ops[j], stop)
  }

  /** Some operand is `stop`, if the memberships turn out as `hoping` says. */
  ghost predicate SomeStop(ev: Evaluation, rank: string -> nat, criteria: map<string, Criterion>, bound: nat,
      ops: seq<Expr>, stop: bool, hoping: bool)
    requires Acyclic(ev.world, rank) && RefsBelow(criteria, rank, bound)
  {
    exists op :: op in ops && Holds(ev, rank, criteria, bound, op, hoping) == stop
  }

  lemma {:induction false} AllRaiseTail(ev: Evaluation, rank: string -> nat, criteria: map<string, Criterion>,
      bound: nat, ops: seq<Expr>, stop: bool, error: ResolveError)
    requires Acyclic(ev.world, rank) && RefsBelow(criteria, rank, bound) && ops != []
    requires GoesOn(ev, rank, criteria, bound, ops[0], stop)
    ensures AllRaise(ev, rank, criteria, bound, ops[1..], stop, error) ==>
              AllRaise(ev, rank, criteria, bound, ops, stop, error)
  {
    hide Holds, Raises, GoesOn;
    if AllRaise(ev, rank, criteria, bound, ops[1..], stop, error) {
      var i :| 0 <= i < |ops[1..]| && Raises(ev, rank, criteria, bound, ops[1..][i], error)
          && forall j :: 0 <= j < i ==> GoesOn(ev, rank, criteria, bound, ops[1..][j], stop);
      assert ops[i + 1] == ops[1..][i];
      forall j | 0 < j < i + 1 ensures GoesOn(ev, rank, criteria, bound, ops[j], stop) {
        assert ops[j] == ops[1..][j - 1];
      }
    }
  }

  lemma {:induction false} AllRaiseHead(ev: Evaluation, rank: string -> nat, criteria: map<string, Criterion>,
      bound: nat, ops: seq<Expr>, stop: bool, error: ResolveError)
    requires Acyclic(ev.world, rank) && RefsBelow(criteria, rank, bound) && ops != []
    ensures AllRaise(ev, rank, criteria, bound, ops, stop, error) <==>
            || Raises(ev, rank, criteria, bound, ops[0], error)
            || (GoesOn(ev, rank, criteria, bound, ops[0], stop)
                && AllRaise(ev, rank, criteria, bound, ops[1..], stop, error))
  {
    hide Holds, Raises, GoesOn;
    if GoesOn(ev, rank, criteria, bound, ops[0], stop) {
      AllRaiseTail(ev, rank, criteria, bound, ops, stop, error);
    }
    if AllRaise(ev, rank, criteria, bound, ops, stop, error)
        && !Raises(ev, rank, criteria, bound, ops[0], error) {
      var i :| 0 <= i < |ops| && Raises(ev, rank, criteria, bound, ops[i], error)
          && forall j :: 0 <= j < i ==> GoesOn(ev, rank, criteria, bound, ops[j], stop);
      assert GoesOn(ev, rank, criteria, bound, ops[0], stop) && ops[1..][i - 1] == ops[i];
      forall j | 0 <= j < i - 1 ensures GoesOn(ev, rank, criteria, bound, ops[1..][j], stop) {
        assert ops[j + 1] == ops[1..][j];
      }
    }
  }

  lemma {:induction false} AllTells(ev: Evaluation, rank: string -> nat, criteria: map<string, Criterion>,
      v: set<string>, bound: nat, ops: seq<Expr>, stop: bool, sawUnknown: bool)
    requires Acyclic(ev.world, rank) && RefsBelow(criteria, rank, bound) && AllAbove(v, rank, bound)
    ensures var result := EvaluateAll(ev, criteria, v, ops, stop, sawUnknown).result;
            && (forall error :: result == Err(error) <==> AllRaise(ev, rank, criteria, bound, ops, stop, error))
            && (result.Ok? ==>
                 result.value ==
                 if SomeStop(ev, rank, criteria, bound, ops, stop, !stop) then Known(stop)
                 else if sawUnknown || SomeStop(ev, rank, criteria, bound, ops, stop, stop) then Unknown
                 else Known(!stop))
    ensures forall op :: op in ops && Holds(ev, rank, criteria, bound, op, false) ==>
              Holds(ev, rank, criteria, bound, op, true)
    decreases bound, SizeAll(ops), 0
  {
    hide Holds, Raises;
    if ops != [] {
      EvaluateTells(ev, rank, criteria, v, bound, ops[0]);
      assert forall op :: op in ops <==> op == ops[0] || op in ops[1..];
      var head := Evaluate(ev, criteria, v, ops[0]);
      AllTells(ev, rank, criteria, v, bound, ops[1..], stop, sawUnknown || head.result == Ok(Unknown));
      forall error {
        AllRaiseHead(ev, rank, criteria, bound, ops, stop, error);
      }
      if head.result.Ok? {
        assert forall error :: !Raises(ev, rank, criteria, bound, ops[0], error);
        assert GoesOn(ev, rank, criteria, bound, ops[0], stop) <==> head.result.value != Known(stop);
      } else {
        assert Raises(ev, rank, criteria, bound, ops[0], head.result.error);
        assert !GoesOn(ev, rank, criteria, bound, ops[0], stop);
      }
    }
  }

  /** The visited set may hold any segment that cannot be reached from this one. */
  lemma {:induction false} SegmentTells(ev: Evaluation, rank: string -> nat, v: set<string>, name: string)
    requires name in ev.world.segments && Acyclic(ev.world, rank) && AllAbove(v, rank, rank(name) + 1)
    ensures var result := SegmentMatch(ev, v, name).result;
            && (forall error :: result == Err(error) <==> SegmentRaises(ev, rank, name, error))
            && (result.Ok? ==>
                 result.value == Reading(SegmentHolds(ev, rank, name, false), SegmentHolds(ev, rank, name, true)))
    ensures SegmentHolds(ev, rank, name, false) ==> SegmentHolds(ev, rank, name, true)
    decreases rank(name) + 1, 0, 0
  {
    TargetingTells(ev, rank, v + {name}, name);
    MatchIsTargetingAndBit(ev, v, name);
    hide SegmentMatch, TargetingMatch, TargetingHolds, TargetingRaises, BitHolds, Unsalted;
  }

  lemma {:induction false} TargetingTells(ev: Evaluation, rank: string -> nat, v: set<string>, name: string)
    requires name in ev.world.segments && Acyclic(ev.world, rank) && AllAbove(v, rank, rank(name))
    ensures var result := TargetingMatch(ev, v, name).result;
            && (forall error :: result == Err(error) <==> TargetingRaises(ev, rank, name, error))
            && (result.Ok? ==>
                 result.value == Reading(TargetingHolds(ev, rank, name, false), TargetingHolds(ev, rank, name, true)))
    ensures TargetingHolds(ev, rank, name, false) ==> TargetingHolds(ev, rank, name, true)
    decreases rank(name), TargetingSize(ev.world.segments[name]), 2
  {
    var s := ev.world.segments[name];
    if s.targeting.Some? && s.targeting.value.expression.Some? {
      EvaluateTells(ev, rank, s.targeting.value.criteria, v, rank(name), s.targeting.value.expression.value);
    }
  }
}
