/**
 Resolving one flag: its rules are tried in order, each against its sticky record, its segment and its bucket,
 until one assigns. `RuleEffect` says what a single rule does; `ResolveRules` is the loop.
 */
module Flags {
  import opened Wrappers
  import opened Materializations
  import opened Segments
  import Strings

  const TARGETING_KEY := "targeting_key"

  datatype Range = Range(lower: int, upper: int)

  datatype Target = Fallthrough | ClientDefault | Variant(variant: string)

  datatype Assignment = Assignment(id: string, target: Option<Target>, ranges: seq<Range>)

  datatype AssignmentSpec = AssignmentSpec(assignments: seq<Assignment>, bucketCount: int)

  datatype ReadMode = ReadMode(targetingCanBeIgnored: bool, mustMatch: bool)

  datatype MaterializationSpec = MaterializationSpec(read: string, write: string, mode: Option<ReadMode>)

  datatype Rule = Rule(
    name: string,
    enabled: bool,
    environments: seq<string>,
    segment: string,
    selector: string,
    spec: Option<AssignmentSpec>,
    materialization: Option<MaterializationSpec>)

  datatype FlagState = Active | Archived | Other

  datatype Flag = Flag(name: string, state: FlagState, clients: seq<string>, rules: seq<Rule>, variants: seq<string>)

  datatype Reason =
    | NoSegmentMatch
    | Match
    | FlagArchived
    | TargetingKeyError
    | MaterializationNotSupported
    | UnrecognizedTargetingRule

  datatype Attribution = Attribution(rule: string, assignmentId: string, targetingKey: string, selector: string)

  datatype AssignedFlag = AssignedFlag(
    flag: string,
    reason: Reason,
    rule: string,
    segment: string,
    variant: string,
    assignmentId: string,
    targetingKey: string,
    selector: string,
    fallthroughs: seq<Attribution>)

  function NewValue(flag: Flag, falls: seq<Attribution>): AssignedFlag {
    AssignedFlag(flag.name, NoSegmentMatch, "", "", "", "", "", "", falls)
  }

  function ErrorValue(flag: Flag, falls: seq<Attribution>, reason: Reason): AssignedFlag {
    NewValue(flag, falls).(reason := reason)
  }

  function MatchValue(flag: Flag, falls: seq<Attribution>, rule: Rule, variant: string, assignmentId: string,
      unit: string): AssignedFlag {
    AssignedFlag(flag.name, Match, rule.name, rule.segment, variant, assignmentId, unit, rule.selector, falls)
  }

  // ----- Bucketing

  /** `i32 as u64` of a bucket count: negative counts become huge, not zero. */
  function AsU64(bucketCount: int): nat { bucketCount % U64 }

  /** `usize as i32`: the low 32 bits, read as two's complement. */
  function AsI32(n: nat): (i: int)
    ensures -0x8000_0000 <= i < 0x8000_0000 && (n - i) % 0x1_0000_0000 == 0
  {
    var low := n % 0x1_0000_0000;
    if low < 0x8000_0000 then low else low - 0x1_0000_0000
  }

  function RuleBucket(w: World, segment: string, unit: string, bucketCount: int): Result<int, ResolveError> {
    match Strings.Nth(Strings.Split(segment, '/'), 1)
    case None => Err(Internal)
    case Some(salt) =>
      match Bucket(w.hash(salt + "|" + unit), AsU64(bucketCount))
      case Err(e) => Err(e)
      case Ok(b) => Ok(AsI32(b))
  }

  predicate InRanges(ranges: seq<Range>, b: int) {
    exists i | 0 <= i < |ranges| :: ranges[i].lower <= b < ranges[i].upper
  }

  function FirstInBucket(assignments: seq<Assignment>, b: int): Option<Assignment> {
    if assignments == [] then None
    else if InRanges(assignments[0].ranges, b) then Some(assignments[0])
    else FirstInBucket(assignments[1..], b)
  }

  /** A single assignment over all buckets: nothing needs hashing. */
  predicate OneFullVariant(spec: AssignmentSpec) {
    && |spec.assignments| == 1
    && |spec.assignments[0].ranges| == 1
    && spec.assignments[0].ranges[0] == Range(0, spec.bucketCount)
  }

  function WithVariant(assignments: seq<Assignment>, variant: string): seq<Assignment> {
    if assignments == [] then []
    else
      var first := if assignments[0].target == Some(Variant(variant)) then [assignments[0]] else [];
      first + WithVariant(assignments[1..], variant)
  }

  /** The assignment a stored variant stands for: by variant, and by bucket where several assignments share it. */
  function SelectAssignment(w: World, variant: string, unit: string, spec: AssignmentSpec,
      segment: string): Option<Assignment> {
    if variant == "" then None
    else
      var matching := WithVariant(spec.assignments, variant);
      if |matching| <= 1 then (if matching == [] then None else Some(matching[0]))
      else
        match RuleBucket(w, segment, unit, spec.bucketCount)
        case Err(_) => None
        case Ok(b) => FirstInBucket(matching, b)
  }

  // ----- One rule

  datatype RuleUnit = Use(unit: Option<string>) | NoKey | KeyError

  function UnitFor(w: World, rule: Rule): RuleUnit {
    match w.targetingKey(if rule.selector != "" then rule.selector else TARGETING_KEY)
    case Unit(u) => Use(Some(u))
    case NoUnit => if rule.selector == "" then Use(None) else NoKey
    case BadUnit => if rule.selector == "" && rule.spec.Some? && OneFullVariant(rule.spec.value) then Use(None)
        else KeyError
  }

  predicate Applies(w: World, rule: Rule) {
    && rule.enabled
    && (rule.environments == [] || exists e | e in rule.environments :: e in w.environments)
    && rule.segment in w.segments
  }

  datatype Action =
    | Pass
    | BadKey
    | Fault(error: ResolveError)
    | Sticky(stuck: Assignment, holder: string)
    | Assign(chosen: Assignment, unit: Option<string>)

  /** `missing` is the flag's "some record is not here yet" mark after the rule. */
  datatype Effect = Effect(missing: bool, lookups: seq<Query>, action: Action)

  function RuleEffect(w: World, rs: Records, rule: Rule, missing: bool): Effect {
    if !Applies(w, rule) then Effect(missing, [], Pass)
    else
      match UnitFor(w, rule)
      case NoKey => Effect(missing, [], Pass)
      case KeyError => Effect(missing, [], BadKey)
      case Use(unit) =>
        if rule.spec.None? then Effect(missing, [], Pass)
        else
          var ev := Evaluation(w, unit, rs);
          if rule.materialization.None? || rule.materialization.value.read == "" then ThroughSegment(ev, rule, missing)
          else if unit.None? then Effect(missing, [], Pass)
          else
            var q := RuleRecord(unit.value, rule.materialization.value.read, rule.name);
            var rest := Recall(ev, rule, missing, AnswerTo(rs, q));
            rest.(lookups := [q] + rest.lookups)
  }

  function ModeOf(rule: Rule): ReadMode
    requires rule.materialization.Some?
  {
    match rule.materialization.value.mode
    case None => ReadMode(false, false)
    case Some(mode) => mode
  }

  /** The rule after its sticky record has been consulted. */
  function Recall(ev: Evaluation, rule: Rule, missing: bool, answer: Answer): Effect
    requires Applies(ev.world, rule) && rule.spec.Some? && rule.materialization.Some? && ev.unit.Some?
  {
    match answer
    case NotFetched => ThroughSegment(ev, rule, true)
    case Refused => Effect(missing, [], Fault(MaterializationsUnsupported))
    case Absent => if ModeOf(rule).mustMatch then Effect(missing, [], Pass) else ThroughSegment(ev, rule, missing)
    case Present(variant) =>
      var t := if ModeOf(rule).targetingCanBeIgnored then Certain(true) else TargetingMatch(ev, {}, rule.segment);
      if t.result.Err? then Failing(missing, t)
      else if t.result.value == Known(true) then
        match SelectAssignment(ev.world, variant, ev.unit.value, rule.spec.value, rule.segment)
        case Some(a) => Effect(missing, t.lookups, Sticky(a, ev.unit.value))
        case None => Effect(missing, t.lookups, if missing then Pass else Choose(ev, rule))
      else var rest := ThroughSegment(ev, rule, missing); rest.(lookups := t.lookups + rest.lookups)
  }

  /** An unrecognized criterion drops the rule; any other error fails the flag. */
  function Failing(missing: bool, o: Outcome): Effect
    requires o.result.Err?
  {
    Effect(missing, o.lookups, if o.result.error.UnrecognizedRule? then Pass else Fault(o.result.error))
  }

  /** The rule through its segment: only a known match of a flag with nothing missing may assign. */
  function ThroughSegment(ev: Evaluation, rule: Rule, missing: bool): Effect
    requires Applies(ev.world, rule) && rule.spec.Some?
  {
    var m := SegmentMatch(ev, {}, rule.segment);
    if m.result.Err? then Failing(missing, m)
    else
      match m.result.value
      case Known(matched) => Effect(missing, m.lookups, if !matched || missing then Pass else Choose(ev, rule))
      case Unknown => Effect(true, m.lookups, Pass)
  }

  function Choose(ev: Evaluation, rule: Rule): Action
    requires rule.spec.Some?
  {
    var spec := rule.spec.value;
    if OneFullVariant(spec) then Chosen(spec.assignments[0], ev.unit)
    else if ev.unit.None? then Pass
    else
      match RuleBucket(ev.world, rule.segment, ev.unit.value, spec.bucketCount)
      case Err(e) => Fault(e)
      case Ok(b) =>
        match FirstInBucket(spec.assignments, b)
        case None => Pass
        case Some(a) => Chosen(a, ev.unit)
  }

  function Chosen(a: Assignment, unit: Option<string>): Action {
    if a.target.None? then Pass else Assign(a, unit)
  }

  // ----- All rules

  /** `Missing`: some rule could not be decided without its records, and no rule before it assigned. */
  datatype FlagResult = Done(value: AssignedFlag) | Missing | Failed(error: ResolveError)

  datatype FlagOutcome = FlagOutcome(result: FlagResult, lookups: seq<Query>, toWrite: seq<Record>)

  function VariantName(a: Assignment): string {
    if a.target.Some? && a.target.value.Variant? then a.target.value.variant else ""
  }

  /** The record an assigning rule writes, if it writes one. */
  function WriteOf(rule: Rule, a: Assignment, unit: Option<string>): Option<Record> {
    if unit.Some? && rule.materialization.Some?
    then Some(Record(unit.value, rule.materialization.value.write, rule.name, VariantName(a)))
    else None
  }

  function Write(rs: Records, toWrite: seq<Record>, record: Option<Record>): (seq<Record>, Result<(), ResolveError>) {
    match record
    case None => (toWrite, Ok(()))
    case Some(r) => Written(rs, toWrite, r)
  }

  function UnitText(unit: Option<string>): string { if unit.Some? then unit.value else "" }

  function MatchVariant(flag: Flag, falls: seq<Attribution>, rule: Rule, a: Assignment, unit: string): FlagResult {
    if a.target.Some? && a.target.value.Variant? && a.target.value.variant in flag.variants
    then Done(MatchValue(flag, falls, rule, a.target.value.variant, a.id, unit))
    else Failed(Internal)
  }

  /** What follows a rule: the next rule, with what the flag has gathered so far, or the end. */
  datatype Turn = Next(falls: seq<Attribution>, toWrite: seq<Record>) | End(result: FlagResult, toWrite: seq<Record>)

  function Act(rs: Records, flag: Flag, rule: Rule, action: Action, falls: seq<Attribution>,
      toWrite: seq<Record>): Turn {
    match action
    case Pass => Next(falls, toWrite)
    case BadKey => End(Done(ErrorValue(flag, falls, TargetingKeyError)), toWrite)
    case Fault(error) => End(Failed(error), toWrite)
    case Sticky(a, unit) => End(MatchVariant(flag, falls, rule, a, unit), toWrite)
    case Assign(a, unit) =>
      var (written, r) := Write(rs, toWrite, WriteOf(rule, a, unit));
      if r.Err? then End(Failed(r.error), written)
      else if a.target == Some(Fallthrough) then Next(falls
          + [Attribution(rule.name, a.id, UnitText(unit), rule.selector)], written)
      else if a.target == Some(ClientDefault) then End(Done(MatchValue(flag, falls, rule, "", a.id, UnitText(unit))),
          written)
      else End(MatchVariant(flag, falls, rule, a, UnitText(unit)), written)
  }

  function ResolveRules(w: World, rs: Records, flag: Flag, rules: seq<Rule>, missing: bool, falls: seq<Attribution>,
      toWrite: seq<Record>): FlagOutcome
    decreases |rules|
  {
    if rules == [] then FlagOutcome(if missing then Missing else Done(NewValue(flag, falls)), [], toWrite)
    else
      var e := RuleEffect(w, rs, rules[0], missing);
      match Act(rs, flag, rules[0], e.action, falls, toWrite)
      case Next(falls', toWrite') => After(e.lookups,
          ResolveRules(w, rs, flag, rules[1..], e.missing, falls', toWrite'))
      case End(result, toWrite') => FlagOutcome(result, e.lookups, toWrite')
  }

  function After(lookups: seq<Query>, o: FlagOutcome): FlagOutcome { o.(lookups := lookups + o.lookups) }

  function ResolveFlagInternal(w: World, rs: Records, flag: Flag, toWrite: seq<Record>): FlagOutcome {
    if flag.state.Archived? then FlagOutcome(Done(ErrorValue(flag, [], FlagArchived)), [], toWrite)
    else ResolveRules(w, rs, flag, flag.rules, false, [], toWrite)
  }

  /** Errors that concern only the flag become its reason; the others end the run or suspend it. */
  function ResolveFlag(w: World, rs: Records, flag: Flag, toWrite: seq<Record>): FlagOutcome {
    var o := ResolveFlagInternal(w, rs, flag, toWrite);
    match o.result
    case Failed(MaterializationsUnsupported) => o.(result := Done(ErrorValue(flag, [], MaterializationNotSupported)))
    case Failed(UnrecognizedRule) => o.(result := Done(ErrorValue(flag, [], UnrecognizedTargetingRule)))
    case _ => o
  }
}
