/**
 What a flag is assigned, read off its rules: which of them decides, by its segment and bucket or by the unit's sticky
 record, and what the answer then is. Everything but a run without records, which may leave the flag open.
 */
module AssignmentLaws {
  import opened Wrappers
  import opened Materializations
  import opened Segments
  import opened Flags
  import Counters
  import Strings

  // ----- Buckets

  predicate In(r: Range, b: int) { r.lower <= b < r.upper }

  ghost predicate Spans(a: Assignment, b: int) { exists i :: 0 <= i < |a.ranges| && In(a.ranges[i], b) }

  /** Assignment `k` is the first that spans the bucket. */
  ghost predicate FirstSpanning(assignments: seq<Assignment>, k: nat, b: int) {
    k < |assignments| && Spans(assignments[k], b) && forall j :: 0 <= j < k ==> !Spans(assignments[j], b)
  }

  lemma {:induction false} BucketFinds(assignments: seq<Assignment>, b: int)
    ensures var found := FirstInBucket(assignments, b);
            && (found.None? ==> forall k :: 0 <= k < |assignments| ==> !Spans(assignments[k], b))
            && (found.Some? ==> exists k: nat :: FirstSpanning(assignments, k, b) && assignments[k] == found.value)
  {
    if assignments != [] {
      SpansIsInRanges(assignments[0], b);
      if Spans(assignments[0], b) {
        assert FirstSpanning(assignments, 0, b);
      } else {
        var rest := assignments[1..];
        BucketFinds(rest, b);
        assert forall j :: 0 < j < |assignments| ==> assignments[j] == rest[j - 1];
        if k: nat :| FirstSpanning(rest, k, b) && rest[k] == FirstInBucket(rest, b).value {
          assert FirstSpanning(assignments, k + 1, b);
        }
      }
    }
  }

  /** `b` is the low 32 bits of `n` as a signed number. */
  ghost predicate Signed(n: nat, b: int) {
    -0x8000_0000 <= b < 0x8000_0000 && (n - b) % 0x1_0000_0000 == 0
  }

  /** The unit's bucket in the segment: the residue of a hash without its low four bits. */
  ghost predicate BucketIs(w: World, segment: string, unit: string, bucketCount: int, b: int) {
    var buckets := bucketCount % 0x1_0000_0000_0000_0000;
    buckets != 0 && exists salt ::
      && Strings.SecondPart(segment, '/', salt)
      && Signed(w.hash(salt + "|" + unit) % 0x1_0000_0000_0000_0000 / 16 % buckets, b)
  }

  lemma {:induction false} BucketIsRead(w: World, segment: string, unit: string, bucketCount: int)
    ensures var bucket := RuleBucket(w, segment, unit, bucketCount);
            && (forall b :: bucket == Ok(b) <==> BucketIs(w, segment, unit, bucketCount, b))
            && (bucket.Err? ==> bucket.error == Internal)
  {
    hide Strings.SecondPart, Strings.Split, Signed;
    forall salt {
      Strings.SecondPartTells(segment, '/', salt);
    }
    var buckets := bucketCount % 0x1_0000_0000_0000_0000;
    if salt :| Strings.SecondPart(segment, '/', salt) {
      if buckets != 0 {
        SignedIs(w.hash(salt + "|" + unit) % 0x1_0000_0000_0000_0000 / 16 % buckets);
      }
    }
  }

  lemma SignedIs(n: nat)
    ensures forall b :: Signed(n, b) <==> b == AsI32(n)
  {
  }

  // ----- The unit a rule is tried for

  ghost predicate Applicable(w: World, rule: Rule) {
    && rule.enabled && rule.segment in w.segments
    && (rule.environments == [] || exists e :: e in rule.environments && e in w.environments)
  }

  function KeyOf(w: World, rule: Rule): KeyOutcome {
    w.targetingKey(if rule.selector == "" then "targeting_key" else rule.selector)
  }

  /** A single assignment over all buckets, which needs no key. */
  predicate Whole(spec: AssignmentSpec) {
    |spec.assignments| == 1 && spec.assignments[0].ranges == [Range(0, spec.bucketCount)]
  }

  /** Only a rule that names no key of its own is tried without a unit, and with a bad key only if it is whole. */
  ghost predicate Tried(w: World, rule: Rule, unit: Option<string>) {
    && Applicable(w, rule) && rule.spec.Some?
    && match KeyOf(w, rule)
       case Unit(u) => unit == Some(u)
       case NoUnit => rule.selector == "" && unit == None
       case BadUnit => rule.selector == "" && unit == None && Whole(rule.spec.value)
  }

  ghost predicate BadlyKeyed(w: World, rule: Rule) {
    Applicable(w, rule) && KeyOf(w, rule).BadUnit? && !Tried(w, rule, None)
  }

  // ----- The sticky record

  predicate Reads(rule: Rule) { rule.materialization.Some? && rule.materialization.value.read != "" }

  predicate IgnoresTargeting(rule: Rule)
    requires Reads(rule)
  {
    rule.materialization.value.mode.Some? && rule.materialization.value.mode.value.targetingCanBeIgnored
  }

  predicate NeedsRecord(rule: Rule)
    requires Reads(rule)
  {
    rule.materialization.value.mode.Some? && rule.materialization.value.mode.value.mustMatch
  }

  predicate IsFor(r: Record, rule: Rule, unit: string)
    requires Reads(rule)
  {
    r.unit == unit && r.materialization == rule.materialization.value.read && r.rule == rule.name
  }

  /** The first of the unit's records for the rule has `variant`. */
  ghost predicate Stored(rs: Records, rule: Rule, unit: string, variant: string)
    requires Reads(rule)
  {
    rs.Complete? && exists i ::
      && 0 <= i < |rs.records| && IsFor(rs.records[i], rule, unit) && rs.records[i].variant == variant
      && forall j :: 0 <= j < i ==> !IsFor(rs.records[j], rule, unit)
  }

  ghost predicate NotStored(rs: Records, rule: Rule, unit: string)
    requires Reads(rule)
  {
    rs.Complete? && forall r :: r in rs.records ==> !IsFor(r, rule, unit)
  }

  lemma {:induction false} StoredIsRead(rs: Records, rule: Rule, unit: string)
    requires Reads(rule) && rs.Complete?
    ensures var answer := AnswerTo(rs, RuleRecord(unit, rule.materialization.value.read, rule.name));
            && (answer == Absent <==> NotStored(rs, rule, unit))
            && (forall v :: answer == Present(v) <==> Stored(rs, rule, unit, v))
            && (answer.Absent? || answer.Present?)
  {
    hide IsFor, First;
    var q := RuleRecord(unit, rule.materialization.value.read, rule.name);
    var found := First(rs.records, q);
    MatchingIsFor(rule, unit);
    if found.Some? {
      FoundIsFirst(rs.records, q);
      var i :| 0 <= i < |rs.records| && rs.records[i] == found.value && q.Matches(rs.records[i])
          && forall j :: 0 <= j < i ==> !q.Matches(rs.records[j]);
      FirstStored(rs, rule, unit, i);
    } else {
      assert forall j :: 0 <= j < |rs.records| ==> rs.records[j] in rs.records;
    }
  }

  lemma MatchingIsFor(rule: Rule, unit: string)
    requires Reads(rule)
    ensures forall r ::
              RuleRecord(unit, rule.materialization.value.read, rule.name).Matches(r) <==> IsFor(r, rule, unit)
  {
  }

  /** Record `i` is the first of the unit's for the rule: its variant, and no other, is the one stored. */
  lemma {:induction false} FirstStored(rs: Records, rule: Rule, unit: string, i: nat)
    requires Reads(rule) && rs.Complete? && i < |rs.records| && IsFor(rs.records[i], rule, unit)
    requires forall j :: 0 <= j < i ==> !IsFor(rs.records[j], rule, unit)
    ensures forall v :: Stored(rs, rule, unit, v) <==> v == rs.records[i].variant
    ensures !NotStored(rs, rule, unit)
  {
    hide IsFor;
    assert rs.records[i] in rs.records;
  }

  /** The segment's answer for the unit, and that of its targeting alone. */
  function Matched(w: World, rs: Records, rule: Rule, unit: Option<string>): Result<Tribool, ResolveError>
    requires rule.segment in w.segments
  {
    SegmentMatch(Evaluation(w, unit, rs), {}, rule.segment).result
  }

  function Targeted(w: World, rs: Records, rule: Rule, unit: Option<string>): Result<Tribool, ResolveError>
    requires rule.segment in w.segments
  {
    TargetingMatch(Evaluation(w, unit, rs), {}, rule.segment).result
  }

  /** The unit's record holds: `variant` is what it was assigned. */
  ghost predicate Recalled(w: World, rs: Records, rule: Rule, unit: Option<string>, variant: string)
    requires rule.segment in w.segments
  {
    && Reads(rule) && unit.Some? && Stored(rs, rule, unit.value, variant)
    && (IgnoresTargeting(rule) || Targeted(w, rs, rule, unit) == Ok(Known(true)))
  }

  /** No record decides, so that the segment does. */
  ghost predicate AsksSegment(w: World, rs: Records, rule: Rule, unit: Option<string>)
    requires rule.segment in w.segments
  {
    Reads(rule) ==>
      && unit.Some?
      && ((NotStored(rs, rule, unit.value) && !NeedsRecord(rule))
          || ((exists v :: Stored(rs, rule, unit.value, v)) && !IgnoresTargeting(rule)
              && Targeted(w, rs, rule, unit) == Ok(Known(false))))
  }

  /** Assignment `k` is the only one of the variant. */
  ghost predicate OnlyOf(assignments: seq<Assignment>, variant: string, k: nat) {
    && k < |assignments| && assignments[k].target == Some(Variant(variant))
    && forall j :: 0 <= j < |assignments| && assignments[j].target == Some(Variant(variant)) ==> j == k
  }

  /** Assignment `k` is the first of the variant that spans the bucket. */
  ghost predicate FirstOf(assignments: seq<Assignment>, variant: string, k: nat, b: int) {
    && k < |assignments| && assignments[k].target == Some(Variant(variant)) && Spans(assignments[k], b)
    && forall j :: 0 <= j < k && assignments[j].target == Some(Variant(variant)) ==> !Spans(assignments[j], b)
  }

  /** A stored variant stands for its only assignment, or for the first of several that spans the unit's bucket. */
  ghost predicate StandsFor(w: World, rule: Rule, unit: string, variant: string, a: Assignment)
    requires rule.spec.Some?
  {
    var all := rule.spec.value.assignments;
    variant != "" && exists k: nat ::
      && k < |all| && a == all[k]
      && (OnlyOf(all, variant, k) || exists b ::
           BucketIs(w, rule.segment, unit, rule.spec.value.bucketCount, b) && FirstOf(all, variant, k, b))
  }

  lemma {:induction false} FirstOfRest(assignments: seq<Assignment>, variant: string, b: int)
    requires assignments != []
    requires !(assignments[0].target == Some(Variant(variant)) && Spans(assignments[0], b))
    ensures forall k: nat :: FirstOf(assignments, variant, k, b) <==>
              k > 0 && FirstOf(assignments[1..], variant, k - 1, b)
    ensures forall k: nat :: FirstOf(assignments[1..], variant, k, b) ==>
              k + 1 < |assignments| && FirstOf(assignments, variant, k + 1, b)
  {
    hide Spans;
    var rest := assignments[1..];
    assert forall j :: 0 < j < |assignments| ==> assignments[j] == rest[j - 1];
  }

  lemma {:induction false} VariantFinds(assignments: seq<Assignment>, variant: string, b: int)
    ensures var found := FirstInBucket(WithVariant(assignments, variant), b);
            && (found.None? ==> forall k: nat :: !FirstOf(assignments, variant, k, b))
            && (found.Some? ==> exists k: nat :: FirstOf(assignments, variant, k, b) && assignments[k] == found.value)
  {
    hide Spans, InRanges, FirstOf;
    if assignments == [] {
      NoneOf(variant, b);
    } else {
      var first, rest := assignments[0], assignments[1..];
      VariantFinds(rest, variant, b);
      SpansIsInRanges(first, b);
      var matching := if first.target == Some(Variant(variant)) then [first] else [];
      assert (matching + WithVariant(rest, variant))[|matching|..] == WithVariant(rest, variant);
      if matching == [] || !Spans(first, b) {
        FirstOfRest(assignments, variant, b);
        var found := FirstInBucket(WithVariant(rest, variant), b);
        if found.Some? {
          var k: nat :| FirstOf(rest, variant, k, b) && rest[k] == found.value;
          assert FirstOf(assignments, variant, k + 1, b) && assignments[k + 1] == rest[k];
        }
      } else {
        FirstIsFirst(assignments, variant, b);
      }
    }
  }

  lemma NoneOf(variant: string, b: int)
    ensures forall k: nat :: !FirstOf([], variant, k, b)
  {
  }

  lemma FirstIsFirst(assignments: seq<Assignment>, variant: string, b: int)
    requires assignments != [] && assignments[0].target == Some(Variant(variant)) && Spans(assignments[0], b)
    ensures FirstOf(assignments, variant, 0, b)
  {
  }

  lemma SpansIsInRanges(a: Assignment, b: int)
    ensures InRanges(a.ranges, b) <==> Spans(a, b)
  {
  }

  lemma {:induction false} VariantCounts(assignments: seq<Assignment>, variant: string)
    ensures var found := WithVariant(assignments, variant);
            && (found == [] ==> forall k :: 0 <= k < |assignments| ==> assignments[k].target != Some(Variant(variant)))
            && (|found| == 1 ==> exists k: nat :: OnlyOf(assignments, variant, k) && assignments[k] == found[0])
            && (|found| > 1 ==> forall k: nat :: !OnlyOf(assignments, variant, k))
            && (found != [] ==> exists k: nat :: k < |assignments| && assignments[k].target == Some(Variant(variant)))
  {
    if assignments != [] {
      var first, rest := assignments[0], assignments[1..];
      VariantCounts(rest, variant);
      assert forall j :: 0 < j < |assignments| ==> assignments[j] == rest[j - 1];
      if first.target == Some(Variant(variant)) {
        if WithVariant(rest, variant) == [] {
          assert OnlyOf(assignments, variant, 0);
        } else {
          var k: nat :| k < |rest| && rest[k].target == Some(Variant(variant));
          assert assignments[k + 1] == rest[k];
        }
      } else {
        forall k: nat ensures OnlyOf(assignments, variant, k) <==> k > 0 && OnlyOf(rest, variant, k - 1) {
          if k > 0 && OnlyOf(assignments, variant, k) {
            forall j | 0 <= j < |rest| && rest[j].target == Some(Variant(variant)) ensures j == k - 1 {
              assert assignments[j + 1] == rest[j];
            }
          }
        }
        if k: nat :| OnlyOf(rest, variant, k) && WithVariant(rest, variant) == [rest[k]] {
          assert OnlyOf(assignments, variant, k + 1);
        }
      }
    }
  }

  lemma {:induction false} SelectionIsRead(w: World, rule: Rule, unit: string, variant: string)
    requires rule.spec.Some?
    ensures forall a :: SelectAssignment(w, variant, unit, rule.spec.value, rule.segment) == Some(a)
              <==> StandsFor(w, rule, unit, variant, a)
  {
    hide BucketIs, RuleBucket, WithVariant, FirstInBucket;
    var spec := rule.spec.value;
    var all := spec.assignments;
    BucketIsRead(w, rule.segment, unit, spec.bucketCount);
    VariantCounts(all, variant);
    var bucket := RuleBucket(w, rule.segment, unit, spec.bucketCount);
    if bucket.Ok? {
      VariantFinds(all, variant, bucket.value);
    }
  }

  // ----- What a rule does

  /** The rule gets to its assignments: its segment matches, or the stored variant is none of them any more. */
  ghost predicate Reaches(w: World, rs: Records, rule: Rule, unit: Option<string>)
    requires rule.segment in w.segments && rule.spec.Some?
  {
    || (AsksSegment(w, rs, rule, unit) && Matched(w, rs, rule, unit) == Ok(Known(true)))
    || exists v :: Recalled(w, rs, rule, unit, v) && forall a :: !StandsFor(w, rule, unit.value, v, a)
  }

  /** Among the rule's assignments, `a` is the first with a range `lower <= b < upper` around the unit's bucket. */
  ghost predicate Picks(w: World, rule: Rule, unit: Option<string>, a: Assignment)
    requires rule.spec.Some?
  {
    var spec := rule.spec.value;
    if Whole(spec) then a == spec.assignments[0]
    else
      unit.Some? && exists b, k: nat ::
        && BucketIs(w, rule.segment, unit.value, spec.bucketCount, b)
        && FirstSpanning(spec.assignments, k, b) && a == spec.assignments[k]
  }

  ghost predicate Assigns(w: World, rs: Records, rule: Rule, a: Assignment, unit: Option<string>) {
    Tried(w, rule, unit) && Reaches(w, rs, rule, unit) && a.target.Some? && Picks(w, rule, unit, a)
  }

  ghost predicate Sticks(w: World, rs: Records, rule: Rule, a: Assignment, unit: string) {
    Tried(w, rule, Some(unit)) && exists v :: Recalled(w, rs, rule, Some(unit), v) && StandsFor(w, rule, unit, v, a)
  }

  /** The unit has no bucket: the segment has no second part to salt it with, or there are no buckets. */
  ghost predicate Unbucketed(w: World, rule: Rule, unit: Option<string>)
    requires rule.spec.Some?
  {
    !Whole(rule.spec.value) && unit.Some?
    && forall b :: !BucketIs(w, rule.segment, unit.value, rule.spec.value.bucketCount, b)
  }

  /** The rule fails: without records, in its segment or its targeting, or for want of a bucket. */
  ghost predicate Fails(w: World, rs: Records, rule: Rule, error: ResolveError) {
    exists unit :: Tried(w, rule, unit) && FailsFor(w, rs, rule, unit, error)
  }

  ghost predicate FailsFor(w: World, rs: Records, rule: Rule, unit: Option<string>, error: ResolveError)
    requires rule.segment in w.segments && rule.spec.Some?
  {
    || (Reads(rule) && unit.Some? && rs.Unsupported? && error == MaterializationsUnsupported)
    || (AsksSegment(w, rs, rule, unit) && Matched(w, rs, rule, unit) == Err(error) && !error.UnrecognizedRule?)
    || (Reads(rule) && unit.Some? && (exists v :: Stored(rs, rule, unit.value, v)) && !IgnoresTargeting(rule)
        && Targeted(w, rs, rule, unit) == Err(error) && !error.UnrecognizedRule?)
    || (Reaches(w, rs, rule, unit) && Unbucketed(w, rule, unit) && error == Internal)
  }

  lemma {:induction false} ChoiceIsRead(ev: Evaluation, rule: Rule)
    requires rule.spec.Some?
    ensures var choice := Choose(ev, rule);
            && (forall a, unit :: choice == Assign(a, unit)
                 <==> unit == ev.unit && a.target.Some? && Picks(ev.world, rule, unit, a))
            && (forall error :: choice == Fault(error) <==> error == Internal && Unbucketed(ev.world, rule, ev.unit))
            && (choice.Pass? || choice.Assign? || choice.Fault?)
  {
    hide BucketIs, RuleBucket, FirstInBucket, FirstSpanning;
    var spec := rule.spec.value;
    assert OneFullVariant(spec) <==> Whole(spec);
    if ev.unit.Some? {
      BucketIsRead(ev.world, rule.segment, ev.unit.value, spec.bucketCount);
      var bucket := RuleBucket(ev.world, rule.segment, ev.unit.value, spec.bucketCount);
      if bucket.Ok? {
        BucketFinds(spec.assignments, bucket.value);
        FirstIsUnique(spec.assignments, bucket.value);
      }
    }
  }

  lemma FirstIsUnique(assignments: seq<Assignment>, b: int)
    ensures forall j: nat, k: nat :: FirstSpanning(assignments, j, b) && FirstSpanning(assignments, k, b) ==> j == k
    ensures (forall k :: 0 <= k < |assignments| ==> !Spans(assignments[k], b)) ==>
              forall k: nat :: !FirstSpanning(assignments, k, b)
  {
  }

  /** The effect `action` of a rule tried for `unit` is what the rule's records, segment and assignments say. */
  ghost predicate IsEffect(w: World, rs: Records, rule: Rule, unit: Option<string>, action: Action)
    requires rule.segment in w.segments && rule.spec.Some?
  {
    && (forall a, u :: action == Assign(a, u)
         <==> u == unit && Reaches(w, rs, rule, unit) && a.target.Some? && Picks(w, rule, unit, a))
    && (forall a, u :: action == Flags.Sticky(a, u)
         <==> unit == Some(u) && exists v :: Recalled(w, rs, rule, unit, v) && StandsFor(w, rule, u, v, a))
    && (forall error :: action == Fault(error) <==> FailsFor(w, rs, rule, unit, error))
    && !action.BadKey?
  }

  lemma {:induction false} SegmentIsRead(w: World, rs: Records, rule: Rule, unit: Option<string>)
    requires !rs.Discovery? && Applies(w, rule) && rule.spec.Some? && AsksSegment(w, rs, rule, unit)
    ensures var e := ThroughSegment(Evaluation(w, unit, rs), rule, false);
            IsEffect(w, rs, rule, unit, e.action) && !e.missing
  {
    hide SegmentMatch, TargetingMatch, Choose, Picks, Unbucketed, StandsFor;
    if Reads(rule) && rs.Complete? {
      StoredIsRead(rs, rule, unit.value);
    }
    ChoiceIsRead(Evaluation(w, unit, rs), rule);
  }

  lemma {:induction false} PresentIsRead(w: World, rs: Records, rule: Rule, unit: Option<string>, variant: string)
    requires rs.Complete? && Applies(w, rule) && rule.spec.Some? && Reads(rule) && unit.Some?
    requires Stored(rs, rule, unit.value, variant) && !NotStored(rs, rule, unit.value)
    requires forall v :: Stored(rs, rule, unit.value, v) ==> v == variant
    ensures var e := Recall(Evaluation(w, unit, rs), rule, false, Present(variant));
            IsEffect(w, rs, rule, unit, e.action) && !e.missing
  {
    hide SegmentMatch, TargetingMatch, Choose, Picks, Unbucketed, StandsFor, SelectAssignment, ThroughSegment, Stored,
        NotStored;
    var ev := Evaluation(w, unit, rs);
    SelectionIsRead(w, rule, unit.value, variant);
    ChoiceIsRead(ev, rule);
    var targeted := Targeted(w, rs, rule, unit);
    if !IgnoresTargeting(rule) && targeted.Ok? && targeted.value == Known(false) {
      assert AsksSegment(w, rs, rule, unit);
      SegmentIsRead(w, rs, rule, unit);
    } else if !IgnoresTargeting(rule) && targeted.Err? {
      assert forall v :: !Recalled(w, rs, rule, unit, v);
    } else {
      assert Recalled(w, rs, rule, unit, variant);
    }
  }

  lemma {:induction false} RecallIsRead(w: World, rs: Records, rule: Rule, unit: Option<string>)
    requires !rs.Discovery? && Applies(w, rule) && rule.spec.Some? && Reads(rule) && unit.Some?
    ensures var answer := AnswerTo(rs, RuleRecord(unit.value, rule.materialization.value.read, rule.name));
            var e := Recall(Evaluation(w, unit, rs), rule, false, answer);
            IsEffect(w, rs, rule, unit, e.action) && !e.missing
  {
    hide SegmentMatch, TargetingMatch, Choose, Picks, Unbucketed, StandsFor, SelectAssignment, ThroughSegment;
    var answer := AnswerTo(rs, RuleRecord(unit.value, rule.materialization.value.read, rule.name));
    if rs.Complete? {
      StoredIsRead(rs, rule, unit.value);
      if answer.Present? {
        PresentIsRead(w, rs, rule, unit, answer.variant);
      } else if !NeedsRecord(rule) {
        SegmentIsRead(w, rs, rule, unit);
      }
    }
  }

  lemma {:induction false} RuleIsRead(w: World, rs: Records, rule: Rule)
    requires !rs.Discovery?
    ensures var e := RuleEffect(w, rs, rule, false);
            && !e.missing && (e.action.BadKey? <==> BadlyKeyed(w, rule))
            && (forall a, unit :: e.action == Assign(a, unit) <==> Assigns(w, rs, rule, a, unit))
            && (forall a, unit :: e.action == Flags.Sticky(a, unit) <==> Sticks(w, rs, rule, a, unit))
            && (forall error :: e.action == Fault(error) <==> Fails(w, rs, rule, error))
  {
    hide SegmentMatch, TargetingMatch, Choose, Picks, StandsFor, Recall, ThroughSegment, Stored, NotStored, Recalled,
        Reaches, FailsFor, AsksSegment;
    assert rule.spec.Some? ==> (OneFullVariant(rule.spec.value) <==> Whole(rule.spec.value));
    assert Applicable(w, rule) <==> Applies(w, rule);
    if Applies(w, rule) && UnitFor(w, rule).Use? && rule.spec.Some? {
      var unit := UnitFor(w, rule).unit;
      assert forall u :: Tried(w, rule, u) <==> u == unit;
      if !Reads(rule) {
        UnreadAsks(w, rs, rule, unit);
        SegmentIsRead(w, rs, rule, unit);
      } else if unit.Some? {
        RecallIsRead(w, rs, rule, unit);
      } else {
        UnreadWithout(w, rs, rule);
      }
    } else {
      assert forall u :: !Tried(w, rule, u);
    }
  }

  lemma UnreadAsks(w: World, rs: Records, rule: Rule, unit: Option<string>)
    requires rule.segment in w.segments && !Reads(rule)
    ensures AsksSegment(w, rs, rule, unit)
  {
  }

  lemma UnreadWithout(w: World, rs: Records, rule: Rule)
    requires Applies(w, rule) && rule.spec.Some? && Reads(rule)
    ensures !Reaches(w, rs, rule, None) && forall error :: !FailsFor(w, rs, rule, None, error)
  {
  }

  // ----- What a flag is assigned

  /** The rule decides the flag: it ends with a bad key, a failure or a match that does not fall through. */
  ghost predicate Ends(w: World, rs: Records, rule: Rule) {
    || BadlyKeyed(w, rule)
    || (exists error :: Fails(w, rs, rule, error))
    || (exists a, unit :: Sticks(w, rs, rule, a, unit))
    || (exists a, unit :: Assigns(w, rs, rule, a, unit) && a.target != Some(Fallthrough))
  }

  /** Rule `k` is the first that decides, or `k` is past the last rule. */
  ghost predicate Decides(w: World, rs: Records, rules: seq<Rule>, k: nat) {
    && k <= |rules| && (k < |rules| ==> Ends(w, rs, rules[k]))
    && forall j :: 0 <= j < k ==> !Ends(w, rs, rules[j])
  }

  function Text(unit: Option<string>): string { if unit.Some? then unit.value else "" }

  /** The attribution of a rule that assigns and falls through. */
  ghost function FallOf(w: World, rs: Records, rule: Rule): seq<Attribution> {
    if exists a, unit :: Assigns(w, rs, rule, a, unit) && a.target == Some(Fallthrough) then
      var a, unit :| Assigns(w, rs, rule, a, unit) && a.target == Some(Fallthrough);
      [Attribution(rule.name, a.id, Text(unit), rule.selector)]
    else []
  }

  ghost function FallsOf(w: World, rs: Records, rules: seq<Rule>): seq<Attribution> {
    if rules == [] then [] else FallOf(w, rs, rules[0]) + FallsOf(w, rs, rules[1..])
  }

  /** The record of a rule that assigns: the variant, if there is one, for the unit under the rule's name. */
  ghost function RecordOf(w: World, rs: Records, rule: Rule): seq<Record> {
    if rule.materialization.Some? && exists a, unit :: Assigns(w, rs, rule, a, Some(unit)) then
      var a, unit :| Assigns(w, rs, rule, a, Some(unit));
      var variant := match a.target case Some(Variant(v)) => v case _ => "";
      [Record(unit, rule.materialization.value.write, rule.name, variant)]
    else []
  }

  ghost function RecordsOf(w: World, rs: Records, rules: seq<Rule>): seq<Record> {
    if rules == [] then [] else RecordOf(w, rs, rules[0]) + RecordsOf(w, rs, rules[1..])
  }

  /** A match of the rule with assignment `a`; it fails if the flag does not have the variant. */
  function MatchOf(flag: Flag, rule: Rule, a: Assignment, unit: string, falls: seq<Attribution>): FlagResult {
    match a.target
    case Some(Variant(v)) =>
      if v !in flag.variants then Failed(Internal)
      else Done(AssignedFlag(flag.name, Match, rule.name, rule.segment, v, a.id, unit, rule.selector, falls))
    case _ => Done(AssignedFlag(flag.name, Match, rule.name, rule.segment, "", a.id, unit, rule.selector, falls))
  }

  /** The answer of a flag that the rule decides, after `falls`. */
  ghost predicate IsAnswer(w: World, rs: Records, flag: Flag, rule: Rule, falls: seq<Attribution>, result: FlagResult) {
    && (BadlyKeyed(w, rule) ==>
         result == Done(AssignedFlag(flag.name, TargetingKeyError, "", "", "", "", "", "", falls)))
    && (forall error :: Fails(w, rs, rule, error) ==> result == Failed(error))
    && (forall a, unit :: Sticks(w, rs, rule, a, unit) ==> result == MatchOf(flag, rule, a, unit, falls))
    && (forall a, unit :: Assigns(w, rs, rule, a, unit) && a.target != Some(Fallthrough) ==>
         result == MatchOf(flag, rule, a, Text(unit), falls))
  }

  lemma {:induction false} SticksToVariants(w: World, rs: Records, rule: Rule, a: Assignment, unit: string)
    requires Sticks(w, rs, rule, a, unit)
    ensures a.target.Some? && a.target.value.Variant?
  {
  }

  lemma {:induction false} TurnIsRead(w: World, rs: Records, flag: Flag, rule: Rule, falls: seq<Attribution>,
      own: seq<Record>)
    requires !rs.Discovery? && Distinct(own)
    ensures var e := RuleEffect(w, rs, rule, false);
            var turn, write := Act(rs, flag, rule, e.action, falls, own), RecordOf(w, rs, rule);
            && !e.missing
            && if rs.Unsupported? && write != [] then turn == End(Failed(MaterializationsUnsupported), own)
               else if !Distinct(own + write) then turn == End(Failed(Internal), own)
               else
                 && turn.toWrite == own + write && Distinct(own + write)
                 && (turn.Next? <==> !Ends(w, rs, rule))
                 && (turn.Next? ==> turn.falls == falls + FallOf(w, rs, rule))
                 && (turn.End? ==> IsAnswer(w, rs, flag, rule, falls, turn.result))
  {
    hide RuleEffect, Sticks, Assigns, Fails, BadlyKeyed, Distinct, HasKey;
    RuleIsRead(w, rs, rule);
    var e, write := RuleEffect(w, rs, rule, false), RecordOf(w, rs, rule);
    if write != [] {
      DistinctUnlessHeld(own, write[0]);
    }
    assert own + [] == own && falls + [] == falls;
    if e.action.Sticky? {
      SticksToVariants(w, rs, rule, e.action.stuck, e.action.holder);
    }
    if e.action.Assign? {
      TargetIsSet(w, rs, rule, e.action.chosen, e.action.unit);
    }
  }

  lemma {:induction false} DistinctUnlessHeld(own: seq<Record>, r: Record)
    requires Distinct(own)
    ensures Distinct(own + [r]) <==> !HasKey(own, r)
  {
    var all := own + [r];
    assert forall i :: 0 <= i < |own| ==> all[i] == own[i];
    assert all[|own|] == r;
  }

  lemma {:induction false} TargetIsSet(w: World, rs: Records, rule: Rule, a: Assignment, unit: Option<string>)
    requires Assigns(w, rs, rule, a, unit)
    ensures a.target.Some?
  {
  }

  /** The outcome `o` of a flag whose rule `k` decides, after the writes `own` and the attributions `falls`. */
  ghost predicate IsOutcome(w: World, rs: Records, flag: Flag, rules: seq<Rule>, k: nat, falls: seq<Attribution>,
      own: seq<Record>, o: FlagOutcome)
    requires k <= |rules|
  {
    var writes := RecordsOf(w, rs, if k < |rules| then rules[..k + 1] else rules);
    if rs.Unsupported? && writes != [] then o.result == Failed(MaterializationsUnsupported)
    else if !Distinct(own + writes) then o.result == Failed(Internal)
    else
      && o.toWrite == own + writes
      && var all := falls + FallsOf(w, rs, rules[..k]);
         if k < |rules| then IsAnswer(w, rs, flag, rules[k], all, o.result)
         else o.result == Done(AssignedFlag(flag.name, NoSegmentMatch, "", "", "", "", "", "", all))
  }

  lemma DistinctPrefix(a: seq<Record>, b: seq<Record>)
    requires Distinct(a + b)
    ensures Distinct(a)
  {
    assert forall i :: 0 <= i < |a| ==> (a + b)[i] == a[i];
  }

  /** The outcome after a rule that does not decide is that of the rules behind it. */
  lemma {:induction false} OutcomeGoesOn(w: World, rs: Records, flag: Flag, rules: seq<Rule>, k: nat,
      falls: seq<Attribution>, own: seq<Record>, o: FlagOutcome)
    requires 0 < k <= |rules|
    requires var write, fall := RecordOf(w, rs, rules[0]), FallOf(w, rs, rules[0]);
             && (rs.Unsupported? ==> write == [])
             && IsOutcome(w, rs, flag, rules[1..], k - 1, falls + fall, own + write, o)
    ensures IsOutcome(w, rs, flag, rules, k, falls, own, o)
  {
    hide Distinct, IsAnswer, RecordOf, FallOf;
    var rest := rules[1..];
    var upto, upto' := if k < |rules| then rules[..k + 1] else rules, if k - 1 < |rest| then rest[..k] else rest;
    assert upto[0] == rules[0] && upto[1..] == upto';
    assert rules[..k][0] == rules[0] && rules[..k][1..] == rest[..k - 1];
    var write, fall := RecordOf(w, rs, rules[0]), FallOf(w, rs, rules[0]);
    assert own + write + RecordsOf(w, rs, upto') == own + (write + RecordsOf(w, rs, upto'));
    assert falls + fall + FallsOf(w, rs, rest[..k - 1]) == falls + (fall + FallsOf(w, rs, rest[..k - 1]));
  }

  /** The outcome at a rule that decides, or whose record cannot be written. */
  lemma {:induction false} OutcomeEnds(w: World, rs: Records, flag: Flag, rules: seq<Rule>, k: nat,
      falls: seq<Attribution>, own: seq<Record>, o: FlagOutcome)
    requires k <= |rules| && rules != [] && Distinct(own)
    requires var write := RecordOf(w, rs, rules[0]);
             if rs.Unsupported? && write != [] then o.result == Failed(MaterializationsUnsupported)
             else if !Distinct(own + write) then o.result == Failed(Internal)
             else k == 0 && o.toWrite == own + write && IsAnswer(w, rs, flag, rules[0], falls, o.result)
    ensures IsOutcome(w, rs, flag, rules, k, falls, own, o)
  {
    hide Distinct, IsAnswer, RecordOf, FallOf;
    var upto := if k < |rules| then rules[..k + 1] else rules;
    var write, rest := RecordOf(w, rs, rules[0]), RecordsOf(w, rs, upto[1..]);
    assert upto[0] == rules[0] && RecordsOf(w, rs, upto) == write + rest;
    assert own + (write + rest) == own + write + rest && own + [] == own;
    if !Distinct(own + write) && Distinct(own + write + rest) {
      DistinctPrefix(own + write, rest);
    }
    if k == 0 {
      assert upto[1..] == [] && write + [] == write && falls + [] == falls && rules[..0] == [];
    }
  }

  lemma {:induction false} RulesAnswer(w: World, rs: Records, flag: Flag, rules: seq<Rule>, k: nat,
      falls: seq<Attribution>, own: seq<Record>)
    requires !rs.Discovery? && Distinct(own) && Decides(w, rs, rules, k)
    ensures IsOutcome(w, rs, flag, rules, k, falls, own, ResolveRules(w, rs, flag, rules, false, falls, own))
    decreases |rules|
  {
    hide RuleEffect, Act, Distinct, IsOutcome, IsAnswer, RecordOf, FallOf, Ends;
    if rules == [] {
      NoRules(w, rs, flag, falls, own);
    } else {
      var rule := rules[0];
      TurnIsRead(w, rs, flag, rule, falls, own);
      var o := ResolveRules(w, rs, flag, rules, false, falls, own);
      var turn := Act(rs, flag, rule, RuleEffect(w, rs, rule, false).action, falls, own);
      if turn.Next? {
        assert forall j :: 0 <= j < |rules[1..]| ==> rules[1..][j] == rules[j + 1];
        RulesAnswer(w, rs, flag, rules[1..], k - 1, turn.falls, turn.toWrite);
        OutcomeIgnoresLookups(w, rs, flag, rules[1..], k - 1, turn.falls, turn.toWrite,
            ResolveRules(w, rs, flag, rules[1..], false, turn.falls, turn.toWrite), o);
        OutcomeGoesOn(w, rs, flag, rules, k, falls, own, o);
      } else {
        OutcomeEnds(w, rs, flag, rules, k, falls, own, o);
      }
    }
  }

  lemma NoRules(w: World, rs: Records, flag: Flag, falls: seq<Attribution>, own: seq<Record>)
    requires Distinct(own)
    ensures IsOutcome(w, rs, flag, [], 0, falls, own, ResolveRules(w, rs, flag, [], false, falls, own))
  {
    assert own + [] == own && falls + [] == falls;
  }

  lemma OutcomeIgnoresLookups(w: World, rs: Records, flag: Flag, rules: seq<Rule>, k: nat, falls: seq<Attribution>,
      own: seq<Record>, o: FlagOutcome, o': FlagOutcome)
    requires k <= |rules| && IsOutcome(w, rs, flag, rules, k, falls, own, o)
    requires o'.result == o.result && o'.toWrite == o.toWrite
    ensures IsOutcome(w, rs, flag, rules, k, falls, own, o')
  {
  }

  /** Some rule is the first that decides, or none does. */
  lemma {:induction false} SomeRuleDecides(w: World, rs: Records, rules: seq<Rule>)
    ensures exists k: nat :: Decides(w, rs, rules, k)
  {
    hide Ends;
    if rules == [] {
      assert Decides(w, rs, rules, 0);
    } else if Ends(w, rs, rules[0]) {
      assert Decides(w, rs, rules, 0);
    } else {
      SomeRuleDecides(w, rs, rules[1..]);
      var k: nat :| Decides(w, rs, rules[1..], k);
      assert forall j :: 0 < j < |rules| ==> rules[j] == rules[1..][j - 1];
      assert Decides(w, rs, rules, k + 1);
    }
  }

  /**
   A flag is what its first deciding rule says, after the attributions and records of the rules in front of it; it has
   no segment match exactly when none decides. Only missing support for records is left of its failures.
   */
  lemma {:induction false} FlagAnswer(w: World, rs: Records, flag: Flag, k: nat, own: seq<Record>)
    requires !rs.Discovery? && Distinct(own) && Decides(w, rs, flag.rules, k)
    ensures var o, inner := ResolveFlag(w, rs, flag, own), ResolveFlagInternal(w, rs, flag, own);
            && o.toWrite == inner.toWrite
            && o.result == (if inner.result != Failed(MaterializationsUnsupported) then inner.result
                else Done(AssignedFlag(flag.name, MaterializationNotSupported, "", "", "", "", "", "", [])))
            && if flag.state.Archived?
               then inner.result == Done(AssignedFlag(flag.name, FlagArchived, "", "", "", "", "", "", []))
               else
                 && IsOutcome(w, rs, flag, flag.rules, k, [], own, inner)
                 && (inner.result.Done? ==> (inner.result.value.reason.NoSegmentMatch? <==> k == |flag.rules|))
  {
    hide ResolveRules, Distinct, RecordOf, FallOf, FallsOf, RecordsOf, Ends;
    if !flag.state.Archived? {
      RulesAnswer(w, rs, flag, flag.rules, k, [], own);
      var falls, result := [] + FallsOf(w, rs, flag.rules[..k]), ResolveFlagInternal(w, rs, flag, own).result;
      if k < |flag.rules| && IsAnswer(w, rs, flag, flag.rules[k], falls, result) {
        DecidedIsNotOpen(w, rs, flag, flag.rules[k], falls, result);
      }
    }
  }

  lemma {:induction false} DecidedIsNotOpen(w: World, rs: Records, flag: Flag, rule: Rule, falls: seq<Attribution>,
      result: FlagResult)
    requires !rs.Discovery? && Ends(w, rs, rule) && IsAnswer(w, rs, flag, rule, falls, result)
    ensures result.Done? ==> !result.value.reason.NoSegmentMatch?
    ensures result != Failed(UnrecognizedRule)
  {
    hide Sticks, Assigns, BadlyKeyed;
    RuleIsRead(w, rs, rule);
    hide RuleEffect;
  }

  // ----- Shares

  /** The ranges are of the `n` buckets, and no bucket is in two of them. */
  ghost predicate Disjoint(ranges: seq<Range>, n: nat) {
    && (forall r :: r in ranges ==> 0 <= r.lower <= r.upper <= n)
    && forall i, j, b :: 0 <= i < j < |ranges| && In(ranges[i], b) ==> !In(ranges[j], b)
  }

  function AllRanges(assignments: seq<Assignment>): seq<Range> {
    if assignments == [] then [] else assignments[0].ranges + AllRanges(assignments[1..])
  }

  function Width(ranges: seq<Range>): int {
    if ranges == [] then 0 else ranges[0].upper - ranges[0].lower + Width(ranges[1..])
  }

  ghost function Interval(r: Range): set<int> { set b | r.lower <= b < r.upper && In(r, b) }

  lemma {:induction false} IntervalSize(r: Range)
    requires r.lower <= r.upper
    ensures |Interval(r)| == r.upper - r.lower
    decreases r.upper - r.lower
  {
    if r.lower < r.upper {
      var rest := Range(r.lower + 1, r.upper);
      IntervalSize(rest);
      assert Interval(r) == {r.lower} + Interval(rest);
    }
  }

  ghost predicate InSome(ranges: seq<Range>, b: int) { exists r :: r in ranges && In(r, b) }

  ghost function Spanned(ranges: seq<Range>, n: nat): set<int> { set b | 0 <= b < n && InSome(ranges, b) }

  lemma {:induction false} DisjointParts(ranges: seq<Range>, n: nat)
    requires ranges != [] && Disjoint(ranges, n)
    ensures Disjoint(ranges[1..], n) && 0 <= ranges[0].lower <= ranges[0].upper <= n
    ensures forall b :: In(ranges[0], b) ==> !InSome(ranges[1..], b)
    ensures forall b :: InSome(ranges, b) <==> In(ranges[0], b) || InSome(ranges[1..], b)
  {
    var rest := ranges[1..];
    assert ranges[0] in ranges && forall r :: r in rest ==> r in ranges;
    assert forall r :: r in ranges <==> r == ranges[0] || r in rest;
    assert forall i :: 0 <= i < |rest| ==> rest[i] == ranges[i + 1];
  }

  lemma {:induction false} SpannedSize(ranges: seq<Range>, n: nat)
    requires Disjoint(ranges, n)
    ensures |Spanned(ranges, n)| == Width(ranges)
  {
    hide Disjoint, InSome;
    if ranges == [] {
      NothingSpanned(n);
    } else {
      var first, rest := ranges[0], ranges[1..];
      DisjointParts(ranges, n);
      SpannedSize(rest, n);
      IntervalSize(first);
      assert Spanned(ranges, n) == Interval(first) + Spanned(rest, n);
      assert Interval(first) !! Spanned(rest, n);
    }
  }

  lemma NothingSpanned(n: nat)
    ensures Spanned([], n) == {}
  {
  }

  lemma {:induction false} DisjointAppend(a: seq<Range>, b: seq<Range>, n: nat)
    requires Disjoint(a + b, n)
    ensures Disjoint(a, n) && Disjoint(b, n) && forall x :: InSome(a, x) ==> !InSome(b, x)
  {
    var all := a + b;
    assert forall i :: 0 <= i < |a| ==> all[i] == a[i];
    assert forall i :: 0 <= i < |b| ==> all[|a| + i] == b[i];
    assert forall r :: r in a || r in b ==> r in all;
  }

  lemma {:induction false} RangesOfAll(assignments: seq<Assignment>, k: nat)
    requires k < |assignments|
    ensures forall b :: Spans(assignments[k], b) ==> InSome(AllRanges(assignments), b)
    decreases k
  {
    var rest := AllRanges(assignments[1..]);
    assert forall r :: r in AllRanges(assignments) <==> r in assignments[0].ranges || r in rest;
    if k > 0 {
      RangesOfAll(assignments[1..], k - 1);
    }
  }

  /** Where no bucket is in two ranges, an assignment spans a bucket only if it is the first to. */
  lemma {:induction false} SpanningIsFirst(assignments: seq<Assignment>, n: nat, k: nat)
    requires Disjoint(AllRanges(assignments), n) && k < |assignments|
    ensures forall b :: FirstSpanning(assignments, k, b) <==> Spans(assignments[k], b)
    ensures Disjoint(assignments[k].ranges, n)
    decreases k
  {
    hide Disjoint, Spans, InSome;
    DisjointAppend(assignments[0].ranges, AllRanges(assignments[1..]), n);
    SpansIsInSome(assignments[0]);
    if k > 0 {
      SpanningIsFirst(assignments[1..], n, k - 1);
      RangesOfAll(assignments[1..], k - 1);
      assert forall j :: 0 < j < |assignments| ==> assignments[j] == assignments[1..][j - 1];
    }
  }

  lemma SpansIsInSome(a: Assignment)
    ensures forall b :: Spans(a, b) <==> InSome(a.ranges, b)
  {
  }

  /** Ranges that share out the `n` buckets give each assignment exactly as many of them as they are wide. */
  lemma {:induction false} SharesAreWidths(assignments: seq<Assignment>, n: nat, k: nat)
    requires Disjoint(AllRanges(assignments), n) && k < |assignments|
    ensures |set b | 0 <= b < n && FirstSpanning(assignments, k, b)| == Width(assignments[k].ranges)
  {
    hide Disjoint, FirstSpanning, Spans, InSome;
    SpanningIsFirst(assignments, n, k);
    SpansIsInSome(assignments[k]);
    SpannedSize(assignments[k].ranges, n);
    assert (set b | 0 <= b < n && FirstSpanning(assignments, k, b)) == Spanned(assignments[k].ranges, n);
  }
}
