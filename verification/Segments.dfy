/**
 Targeting: boolean expressions over criteria, segments that refer to other segments, and membership of
 materialized segments. What a run without records cannot know is `Unknown`, and evaluation goes on past it so
 that every record a later run could ask for has been looked up once.
 */
module Segments {
  import opened Wrappers
  import opened Materializations
  import Counters
  import Strings

  const BUCKETS: nat := 1_000_000
  const U64: nat := 0x1_0000_0000_0000_0000

  datatype Expr = Empty | Ref(id: string) | Not(operand: Expr) | And(operands: seq<Expr>) | Or(operands: seq<Expr>)

  /** An attribute criterion is named by its text: the evaluation context is fixed for a run, so it has one outcome. */
  datatype Criterion = Unset | Attribute(text: string) | SegmentRef(segment: string) | MaterializedSegment(name: string)

  datatype AttributeOutcome = Decided(matches: bool) | Unrecognized | Broken

  datatype Targeting = Targeting(criteria: map<string, Criterion>, expression: Option<Expr>)

  datatype Segment = Segment(targeting: Option<Targeting>)

  datatype KeyOutcome = Unit(unit: string) | NoUnit | BadUnit

  /**
   The resolver state together with the evaluation context of one request. The hash, the bloom filters, the
   attribute criteria and the targeting keys are total functions of it and otherwise unconstrained.
   */
  datatype World = World(
    segments: map<string, Segment>,
    bitsets: map<string, seq<bool>>,
    blooms: map<string, string -> bool>,
    attribute: string -> AttributeOutcome,
    targetingKey: string -> KeyOutcome,
    hash: string -> nat,
    accountName: string,
    client: string,
    environments: seq<string>)

  /** One evaluation: what it asks, about whom, and which records it may consult. */
  datatype Evaluation = Evaluation(world: World, unit: Option<string>, records: Records)

  /** What an evaluation answers and the lookups it makes, in order, whether or not it succeeds. */
  datatype Outcome = Outcome(result: Result<Tribool, ResolveError>, lookups: seq<Query>)

  function Certain(b: bool): Outcome { Outcome(Ok(Known(b)), []) }

  function Negate(t: Tribool): Tribool {
    match t
    case Known(b) => Known(!b)
    case Unknown => Unknown
  }

  // ----- Bucketing

  /** The bucket is the residue of the hash without its low four bits. */
  function Bucket(hash: nat, buckets: nat): (r: Result<nat, ResolveError>)
    ensures r.Err? <==> buckets == 0
    ensures r.Ok? ==> r.value < buckets && (hash % U64 / 16 - r.value) % buckets == 0
  {
    if buckets == 0 then Err(Internal)
    else
      Counters.ResidueIsCongruent(hash % U64 / 16, buckets);
      Ok((hash % U64 / 16) % buckets)
  }

  /** The hash decides the bucket by its high 60 bits alone, and takes each of them in turn as these go up. */
  lemma {:induction false} BucketsTakeTurns(hash: nat, next: nat, buckets: nat)
    requires buckets > 0 && hash < U64 && next < U64
    ensures hash / 16 == next / 16 ==> Bucket(next, buckets) == Bucket(hash, buckets)
    ensures hash / 16 + 1 == next / 16 ==>
              var b := Bucket(hash, buckets).value; Bucket(next, buckets).value == if b + 1 < buckets then b + 1 else 0
  {
    assert hash % U64 == hash && next % U64 == next;
    Counters.ResidueTakesTurns(hash / 16, buckets);
  }

  function SaltUnit(w: World, unit: string): Result<string, ResolveError> {
    match Strings.Nth(Strings.Split(w.accountName, '/'), 1)
    case None => Err(Internal)
    case Some(id) => Ok("MegaSalt-" + id + "|" + unit)
  }

  /** Whether the segment's bitset admits the unit; `None` is a segment that is fully open. */
  function Admits(w: World, unit: Option<string>, bits: seq<bool>): Result<bool, ResolveError> {
    match unit
    case None => Ok(forall i | 0 <= i < |bits| :: bits[i])
    case Some(u) =>
      match SaltUnit(w, u)
      case Err(e) => Err(e)
      case Ok(salted) => var b := Bucket(w.hash(salted), BUCKETS).value; Ok(b < |bits| && bits[b])
  }

  // ----- Evaluation

  function Size(e: Expr): nat
    decreases e, 1
  {
    match e
    case Not(x) => 1 + Size(x)
    case And(ops) => 1 + SizeAll(ops)
    case Or(ops) => 1 + SizeAll(ops)
    case _ => 1
  }

  function SizeAll(ops: seq<Expr>): nat
    decreases ops, 0
  {
    if ops == [] then 0 else 1 + Size(ops[0]) + SizeAll(ops[1..])
  }

  /** The segments an evaluation may still enter. It shrinks at every segment, whatever cycles the graph has. */
  function Left(ev: Evaluation, visited: set<string>): set<string> { ev.world.segments.Keys - visited }

  /** Only a run without records leaves anything unknown. */
  function Evaluate(ev: Evaluation, criteria: map<string, Criterion>, visited: set<string>, e: Expr): (o: Outcome)
    ensures !ev.records.Discovery? && o.result.Ok? ==> o.result.value.Known?
    decreases Left(ev, visited), Size(e), 1
  {
    match e
    case Empty => Certain(false)
    case Ref(id) => if id in criteria then EvaluateCriterion(ev, visited, criteria[id]) else Certain(false)
    case Not(x) =>
      var o := Evaluate(ev, criteria, visited, x);
      if o.result.Err? then o else Outcome(Ok(Negate(o.result.value)), o.lookups)
    case And(ops) => EvaluateAll(ev, criteria, visited, ops, false, false)
    case Or(ops) => EvaluateAll(ev, criteria, visited, ops, true, false)
  }

  /** Both connectives: an operand that is known to be `stop` decides, an unknown one is remembered. */
  function EvaluateAll(ev: Evaluation, criteria: map<string, Criterion>, visited: set<string>, ops: seq<Expr>,
      stop: bool, sawUnknown: bool): (o: Outcome)
    ensures !ev.records.Discovery? && !sawUnknown && o.result.Ok? ==> o.result.value.Known?
    decreases Left(ev, visited), SizeAll(ops), 0
  {
    if ops == [] then Outcome(Ok(if sawUnknown then Unknown else Known(!stop)), [])
    else
      var head := Evaluate(ev, criteria, visited, ops[0]);
      if head.result.Err? || head.result.value == Known(stop) then head
      else
        var rest := EvaluateAll(ev, criteria, visited, ops[1..], stop, sawUnknown || head.result.value.Unknown?);
        Outcome(rest.result, head.lookups + rest.lookups)
  }

  function EvaluateCriterion(ev: Evaluation, visited: set<string>, c: Criterion): (o: Outcome)
    ensures !ev.records.Discovery? && o.result.Ok? ==> o.result.value.Known?
    decreases Left(ev, visited), 1, 0
  {
    match c
    case Unset => Certain(false)
    case Attribute(text) =>
      (match ev.world.attribute(text)
       case Decided(b) => Certain(b)
       case Unrecognized => Outcome(Err(UnrecognizedRule), [])
       case Broken => Outcome(Err(Internal), []))
    case SegmentRef(name) =>
      if name in ev.world.segments then SegmentMatch(ev, visited, name) else Certain(false)
    case MaterializedSegment(name) => Member(ev, name)
  }

  function Member(ev: Evaluation, name: string): Outcome {
    match ev.unit
    case None => Certain(false)
    case Some(u) =>
      if name in ev.world.blooms then Certain(ev.world.blooms[name](u))
      else
        var q := Membership(u, name);
        Outcome(Verdict(AnswerTo(ev.records, q)), [q])
  }

  function SegmentMatch(ev: Evaluation, visited: set<string>, name: string): (o: Outcome)
    requires name in ev.world.segments
    ensures !ev.records.Discovery? && o.result.Ok? ==> o.result.value.Known?
    decreases Left(ev, visited), 0, 0
  {
    if name in visited then Certain(false)
    else
      assert name in Left(ev, visited) && name !in Left(ev, visited + {name});
      InBitset(ev, name, TargetingMatch(ev, visited + {name}, name))
  }

  function TargetingMatch(ev: Evaluation, visited: set<string>, name: string): (o: Outcome)
    requires name in ev.world.segments
    ensures !ev.records.Discovery? && o.result.Ok? ==> o.result.value.Known?
    decreases Left(ev, visited), TargetingSize(ev.world.segments[name]), 2
  {
    match ev.world.segments[name].targeting
    case None => Certain(true)
    case Some(t) => if t.expression.None? then Certain(true) else Evaluate(ev, t.criteria, visited, t.expression.value)
  }

  function TargetingSize(s: Segment): nat {
    if s.targeting.Some? && s.targeting.value.expression.Some? then Size(s.targeting.value.expression.value) else 0
  }

  function InBitset(ev: Evaluation, name: string, targeting: Outcome): Outcome {
    if targeting.result.Err? || targeting.result.value == Known(false) || name !in ev.world.bitsets then targeting
    else
      match Admits(ev.world, ev.unit, ev.world.bitsets[name])
      case Err(e) => Outcome(Err(e), targeting.lookups)
      case Ok(admitted) => if admitted then targeting else Outcome(Ok(Known(false)), targeting.lookups)
  }
}
