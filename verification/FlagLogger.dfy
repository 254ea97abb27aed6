/** Aggregating a batch of flag log messages into one message. */
module FlagLogger {
  import opened Wrappers
  import opened ResolveLogger
  import BatchLaws
  import Counters
  import MergeTelemetry
  import Telemetry

  const I64_MAX: int := 0x7FFF_FFFF_FFFF_FFFF
  const I64_MIN: int := -0x8000_0000_0000_0000

  /** The sum, which the result falls short of, or exceeds, only at the end of the range. */
  function SaturatingAdd(a: int, b: int): (r: int)
    ensures I64_MIN <= r <= I64_MAX
    ensures (r < a + b ==> r == 0x7FFF_FFFF_FFFF_FFFF) && (r > a + b ==> r == -0x8000_0000_0000_0000)
  {
    if a + b > I64_MAX then I64_MAX else if a + b < I64_MIN then I64_MIN else a + b
  }

  datatype RuleCounts = RuleCounts(count: int, assignments: map<string, int>)

  datatype FlagCounts = FlagCounts(rules: map<string, RuleCounts>, variants: map<string, int>)

  datatype ClientInfo = ClientInfo(credential: string, client: string, schemas: seq<string>)

  datatype SchemaItem = SchemaItem(client: string, schemas: set<string>)

  /** A telemetry delta, and the SDK it comes from, if that is named. */
  datatype Sent = Sent(delta: Telemetry.Delta, sdk: Option<string>)

  /**
   A message: what was resolved per flag, the apply events in it, the context schemas seen per credential, and
   telemetry.
   */
  datatype Message = Message(infos: seq<FlagInfo>, events: seq<string>, clients: seq<ClientInfo>,
                             telemetry: Option<Sent>)

  datatype Aggregate = Aggregate(flags: map<string, FlagCounts>, events: seq<string>,
                                 schemas: map<string, SchemaItem>, telemetry: Option<Sent>)

  const NOTHING := FlagCounts(map[], map[])

  function Or(m: map<string, int>, key: string): int { if key in m then m[key] else 0 }

  /** The assignment counts of the newer entry, each on top of what was there; other ids are not carried over. */
  function NewAssignments(was: map<string, int>, tallies: seq<Tally>, built: map<string, int>): map<string, int>
    decreases |tallies|
  {
    if tallies == [] then built
    else NewAssignments(was, tallies[1..],
        built[tallies[0].key := SaturatingAdd(Or(was, tallies[0].key), tallies[0].count)])
  }

  function RuleOr(fc: FlagCounts, rule: string): RuleCounts {
    if rule in fc.rules then fc.rules[rule] else RuleCounts(0, map[])
  }

  function UpdateRule(fc: FlagCounts, r: RuleInfo): FlagCounts {
    var was := RuleOr(fc, r.rule);
    fc.(rules := fc.rules[r.rule := RuleCounts(SaturatingAdd(was.count, r.count),
        NewAssignments(was.assignments, r.assignments, map[]))])
  }

  function UpdateRules(fc: FlagCounts, rules: seq<RuleInfo>): FlagCounts
    decreases |rules|
  {
    if rules == [] then fc else UpdateRules(UpdateRule(fc, rules[0]), rules[1..])
  }

  function UpdateVariants(fc: FlagCounts, variants: seq<Tally>): FlagCounts
    decreases |variants|
  {
    if variants == [] then fc
    else
      var v := variants[0];
      UpdateVariants(fc.(variants := fc.variants[v.key := SaturatingAdd(Or(fc.variants, v.key), v.count)]),
          variants[1..])
  }

  function UpdateFlag(fc: FlagCounts, info: FlagInfo): FlagCounts {
    UpdateVariants(UpdateRules(fc, info.rules), info.variants)
  }

  function FlagOr(flags: map<string, FlagCounts>, flag: string): FlagCounts {
    if flag in flags then flags[flag] else NOTHING
  }

  function UpdateFlags(flags: map<string, FlagCounts>, infos: seq<FlagInfo>): map<string, FlagCounts>
    decreases |infos|
  {
    if infos == [] then flags
    else UpdateFlags(flags[infos[0].flag := UpdateFlag(FlagOr(flags, infos[0].flag), infos[0])], infos[1..])
  }

  function SetOf(s: seq<string>): set<string> { set x | x in s }

  function UpdateSchema(schemas: map<string, SchemaItem>, c: ClientInfo): map<string, SchemaItem> {
    if c.credential in schemas
    then schemas[c.credential := schemas[c.credential].(schemas := schemas[c.credential].schemas + SetOf(c.schemas))]
    else schemas[c.credential := SchemaItem(c.client, SetOf(c.schemas))]
  }

  function UpdateSchemas(schemas: map<string, SchemaItem>, clients: seq<ClientInfo>): map<string, SchemaItem>
    decreases |clients|
  {
    if clients == [] then schemas else UpdateSchemas(UpdateSchema(schemas, clients[0]), clients[1..])
  }

  function Infos(messages: seq<Message>): seq<FlagInfo> {
    if messages == [] then [] else messages[0].infos + Infos(messages[1..])
  }

  function Assigned(messages: seq<Message>): seq<string> {
    if messages == [] then [] else messages[0].events + Assigned(messages[1..])
  }

  function Clients(messages: seq<Message>): seq<ClientInfo> {
    if messages == [] then [] else messages[0].clients + Clients(messages[1..])
  }

  function Deltas(messages: seq<Message>): seq<Telemetry.Delta> {
    if messages == [] then []
    else (if messages[0].telemetry.Some? then [messages[0].telemetry.value.delta] else []) + Deltas(messages[1..])
  }

  /** The first SDK that a message names. */
  function FirstSdk(messages: seq<Message>): Option<string> {
    if messages == [] then None
    else if messages[0].telemetry.Some? && messages[0].telemetry.value.sdk.Some? then messages[0].telemetry.value.sdk
    else FirstSdk(messages[1..])
  }

  function Merged(messages: seq<Message>): Option<Sent> {
    if Deltas(messages) == [] then None
    else Some(Sent(MergeTelemetry.MergeAll(Telemetry.EMPTY_DELTA, Deltas(messages)), FirstSdk(messages)))
  }

  lemma {:induction false} UpdateFlagsAppend(flags: map<string, FlagCounts>, a: seq<FlagInfo>, b: seq<FlagInfo>)
    ensures UpdateFlags(flags, a + b) == UpdateFlags(UpdateFlags(flags, a), b)
    decreases |a|
  {
    if a == [] {
      assert a + b == b;
    } else {
      assert (a + b)[0] == a[0] && (a + b)[1..] == a[1..] + b;
      UpdateFlagsAppend(flags[a[0].flag := UpdateFlag(FlagOr(flags, a[0].flag), a[0])], a[1..], b);
    }
  }

  lemma {:induction false} UpdateSchemasAppend(schemas: map<string, SchemaItem>, a: seq<ClientInfo>, b: seq<ClientInfo>)
    ensures UpdateSchemas(schemas, a + b) == UpdateSchemas(UpdateSchemas(schemas, a), b)
    decreases |a|
  {
    if a == [] {
      assert a + b == b;
    } else {
      assert (a + b)[0] == a[0] && (a + b)[1..] == a[1..] + b;
      UpdateSchemasAppend(UpdateSchema(schemas, a[0]), a[1..], b);
    }
  }

  // ----- The aggregation as it runs

  method UpdateRuleVariantInfo(fc: FlagCounts, info: FlagInfo) returns (updated: FlagCounts)
    ensures updated == UpdateFlag(fc, info)
  {
    updated := fc;
    var i := 0;
    assert info.rules[0..] == info.rules && info.variants[0..] == info.variants;
    while i < |info.rules|
      invariant i <= |info.rules| && UpdateRules(updated, info.rules[i..]) == UpdateRules(fc, info.rules)
    {
      var r := info.rules[i];
      assert info.rules[i..][1..] == info.rules[i + 1..];
      var was := RuleOr(updated, r.rule);
      var counts: map<string, int>, j := map[], 0;
      assert r.assignments[0..] == r.assignments;
      while j < |r.assignments|
        invariant j <= |r.assignments|
        invariant NewAssignments(was.assignments, r.assignments[j..], counts)
            == NewAssignments(was.assignments, r.assignments, map[])
      {
        assert r.assignments[j..][1..] == r.assignments[j + 1..];
        counts := counts[r.assignments[j].key := SaturatingAdd(Or(was.assignments, r.assignments[j].key),
            r.assignments[j].count)];
        j := j + 1;
      }
      updated := updated.(rules := updated.rules[r.rule := RuleCounts(SaturatingAdd(was.count, r.count), counts)]);
      i := i + 1;
    }
    i := 0;
    while i < |info.variants|
      invariant i <= |info.variants| && UpdateVariants(updated, info.variants[i..]) == UpdateFlag(fc, info)
    {
      var v := info.variants[i];
      assert info.variants[i..][1..] == info.variants[i + 1..];
      updated := updated.(variants := updated.variants[v.key := SaturatingAdd(Or(updated.variants, v.key), v.count)]);
      i := i + 1;
    }
  }

  /** What the messages up to `rest` have left of the telemetry to be merged. */
  ghost predicate Merging(merged: Option<Telemetry.Delta>, sdk: Option<string>, rest: seq<Message>,
      messages: seq<Message>) {
    var empty, deltas := Telemetry.EMPTY_DELTA, Deltas(messages);
    && (if sdk.Some? then sdk else FirstSdk(rest)) == FirstSdk(messages)
    && (deltas == [] ==> merged.None?)
    && (merged.None? ==> sdk.None? && Deltas(rest) == deltas)
    && (merged.Some? ==>
          MergeTelemetry.MergeAll(merged.value, Deltas(rest)) == MergeTelemetry.MergeAll(empty, deltas))
  }

  function AddSdk(sdk: Option<string>, m: Message): Option<string> {
    if sdk.None? && m.telemetry.Some? then m.telemetry.value.sdk else sdk
  }

  function AddDelta(merged: Option<Telemetry.Delta>, m: Message): Option<Telemetry.Delta> {
    if m.telemetry.None? then merged
    else
      var acc := if merged.Some? then merged.value else Telemetry.EMPTY_DELTA;
      Some(MergeTelemetry.Merge(acc, m.telemetry.value.delta))
  }

  lemma {:induction false} MergingGoesOn(merged: Option<Telemetry.Delta>, sdk: Option<string>, rest: seq<Message>,
      messages: seq<Message>)
    requires rest != [] && Merging(merged, sdk, rest, messages)
    ensures Merging(AddDelta(merged, rest[0]), AddSdk(sdk, rest[0]), rest[1..], messages)
  {
    hide MergeTelemetry.Merge;
    var more := Deltas(rest[1..]);
    if rest[0].telemetry.Some? {
      assert ([rest[0].telemetry.value.delta] + more)[1..] == more;
    } else {
      assert [] + more == more;
    }
  }

  /** What the messages up to `rest` have left to be aggregated. */
  ghost predicate Aggregating(flags: map<string, FlagCounts>, schemas: map<string, SchemaItem>, events: seq<string>,
      rest: seq<Message>, messages: seq<Message>) {
    && UpdateFlags(flags, Infos(rest)) == UpdateFlags(map[], Infos(messages))
    && UpdateSchemas(schemas, Clients(rest)) == UpdateSchemas(map[], Clients(messages))
    && events + Assigned(rest) == Assigned(messages)
  }

  lemma {:induction false} AggregatingGoesOn(flags: map<string, FlagCounts>, schemas: map<string, SchemaItem>,
      events: seq<string>, rest: seq<Message>, messages: seq<Message>)
    requires rest != [] && Aggregating(flags, schemas, events, rest, messages)
    ensures Aggregating(UpdateFlags(flags, rest[0].infos), UpdateSchemas(schemas, rest[0].clients),
                        events + rest[0].events, rest[1..], messages)
  {
    hide UpdateFlags, UpdateSchemas;
    UpdateFlagsAppend(flags, rest[0].infos, Infos(rest[1..]));
    UpdateSchemasAppend(schemas, rest[0].clients, Clients(rest[1..]));
    assert events + (rest[0].events + Assigned(rest[1..])) == events + rest[0].events + Assigned(rest[1..]);
  }

  lemma AggregationStarts(messages: seq<Message>)
    ensures Aggregating(map[], map[], [], messages, messages) && Merging(None, None, messages, messages)
  {
  }

  lemma AggregationEnds(flags: map<string, FlagCounts>, schemas: map<string, SchemaItem>, events: seq<string>,
      merged: Option<Telemetry.Delta>, sdk: Option<string>, messages: seq<Message>)
    requires Aggregating(flags, schemas, events, [], messages) && Merging(merged, sdk, [], messages)
    ensures flags == UpdateFlags(map[], Infos(messages)) && schemas == UpdateSchemas(map[], Clients(messages))
    ensures events == Assigned(messages)
    ensures Merged(messages) == if merged.Some? then Some(Sent(merged.value, sdk)) else None
  {
    assert events + [] == events;
  }

  method AggregateBatch(messages: seq<Message>) returns (a: Aggregate)
    ensures a == Aggregate(UpdateFlags(map[], Infos(messages)), Assigned(messages),
        UpdateSchemas(map[], Clients(messages)), Merged(messages))
  {
    hide Aggregating, Merging, Merged, MergeTelemetry.Merge, UpdateFlags, UpdateSchemas;
    var flags: map<string, FlagCounts>, schemas: map<string, SchemaItem>, events: seq<string> := map[], map[], [];
    var sdk: Option<string>, merged: Option<Telemetry.Delta> := None, None;
    var m := 0;
    AggregationStarts(messages);
    assert messages[0..] == messages;
    while m < |messages|
      invariant m <= |messages|
      invariant Aggregating(flags, schemas, events, messages[m..], messages)
      invariant Merging(merged, sdk, messages[m..], messages)
    {
      var message := messages[m];
      assert messages[m..][1..] == messages[m + 1..];
      MergingGoesOn(merged, sdk, messages[m..], messages);
      AggregatingGoesOn(flags, schemas, events, messages[m..], messages);
      if message.telemetry.Some? {
        if sdk.None? && message.telemetry.value.sdk.Some? {
          sdk := message.telemetry.value.sdk;
        }
        merged := Some(MergeTelemetry.Merge(if merged.Some? then merged.value else Telemetry.EMPTY_DELTA,
                                            message.telemetry.value.delta));
      }
      schemas := AddClients(schemas, message.clients);
      flags := AddInfos(flags, message.infos);
      events := events + message.events;
      m := m + 1;
    }
    assert messages[m..] == [];
    AggregationEnds(flags, schemas, events, merged, sdk, messages);
    a := Aggregate(flags, events, schemas, if merged.Some? then Some(Sent(merged.value, sdk)) else None);
  }

  method AddInfos(flags: map<string, FlagCounts>, infos: seq<FlagInfo>) returns (updated: map<string, FlagCounts>)
    ensures updated == UpdateFlags(flags, infos)
  {
    hide UpdateFlag;
    updated := flags;
    var i := 0;
    assert infos[0..] == infos;
    while i < |infos|
      invariant i <= |infos| && UpdateFlags(updated, infos[i..]) == UpdateFlags(flags, infos)
    {
      assert infos[i..][1..] == infos[i + 1..];
      var fc := UpdateRuleVariantInfo(FlagOr(updated, infos[i].flag), infos[i]);
      updated := updated[infos[i].flag := fc];
      i := i + 1;
    }
  }

  method AddClients(schemas: map<string, SchemaItem>, clients: seq<ClientInfo>)
    returns (updated: map<string, SchemaItem>)
    ensures updated == UpdateSchemas(schemas, clients)
  {
    updated := schemas;
    var i := 0;
    assert clients[0..] == clients;
    while i < |clients|
      invariant i <= |clients| && UpdateSchemas(updated, clients[i..]) == UpdateSchemas(schemas, clients)
    {
      var c := clients[i];
      assert clients[i..][1..] == clients[i + 1..];
      if c.credential in updated {
        updated := updated[c.credential := updated[c.credential].(schemas := updated[c.credential].schemas
            + SetOf(c.schemas))];
      } else {
        updated := updated[c.credential := SchemaItem(c.client, SetOf(c.schemas))];
      }
      i := i + 1;
    }
  }

  // ----- What is conserved

  predicate AllNatural(infos: seq<FlagInfo>) {
    forall info :: info in infos ==>
      && (forall t :: t in info.variants ==> t.count >= 0)
      && (forall r :: r in info.rules ==> r.count >= 0)
  }

  /** The count the aggregate has, zero where it has no entry. */
  function CountOf(flags: map<string, FlagCounts>, c: Counter): int {
    if c.flag in flags then CountIn(flags[c.flag], c) else 0
  }

  function CountIn(fc: FlagCounts, c: Counter): int {
    match c
    case VariantCount(_, variant) => if variant in fc.variants then fc.variants[variant] else 0
    case RuleCount(_, rule) => if rule in fc.rules then fc.rules[rule].count else 0
    case AssignmentCount(_, rule, id) =>
      if rule in fc.rules && id in fc.rules[rule].assignments then fc.rules[rule].assignments[id] else 0
  }

  function Capped(n: int): int { if n > I64_MAX then I64_MAX else n }

  lemma {:induction false} RulesCount(fc: FlagCounts, rules: seq<RuleInfo>, c: Counter)
    requires !c.AssignmentCount? && (forall r :: r in rules ==> r.count >= 0) && 0 <= CountIn(fc, c) <= I64_MAX
    ensures CountIn(UpdateRules(fc, rules), c) ==
            if c.VariantCount? then CountIn(fc, c) else Capped(CountIn(fc, c) + RuleTotal(rules, c))
    ensures c.RuleCount? ==> RuleTotal(rules, c) >= 0
    decreases |rules|
  {
    if rules != [] {
      hide NewAssignments;
      assert rules[0] in rules && forall r :: r in rules[1..] ==> r in rules;
      RulesCount(UpdateRule(fc, rules[0]), rules[1..], c);
    }
  }

  lemma {:induction false} VariantsCount(fc: FlagCounts, variants: seq<Tally>, c: Counter)
    requires !c.AssignmentCount? && (forall t :: t in variants ==> t.count >= 0) && 0 <= CountIn(fc, c) <= I64_MAX
    ensures CountIn(UpdateVariants(fc, variants), c) ==
            if c.VariantCount? then Capped(CountIn(fc, c) + TallyTotal(variants, c.variant)) else CountIn(fc, c)
    ensures c.VariantCount? ==> TallyTotal(variants, c.variant) >= 0
    decreases |variants|
  {
    if variants != [] {
      var v := variants[0];
      assert v in variants && forall t :: t in variants[1..] ==> t in variants;
      VariantsCount(fc.(variants := fc.variants[v.key := SaturatingAdd(Or(fc.variants, v.key), v.count)]),
          variants[1..], c);
    }
  }

  lemma {:induction false} FlagCountsAdd(fc: FlagCounts, info: FlagInfo, c: Counter)
    requires !c.AssignmentCount? && AllNatural([info]) && info.flag == c.flag && 0 <= CountIn(fc, c) <= I64_MAX
    ensures CountIn(UpdateFlag(fc, info), c) == Capped(CountIn(fc, c) + FlagTotal(info, c)) && FlagTotal(info, c) >= 0
  {
    hide UpdateRules, UpdateVariants, RuleTotal, TallyTotal;
    assert info in [info];
    RulesCount(fc, info.rules, c);
    VariantsCount(UpdateRules(fc, info.rules), info.variants, c);
  }

  /** Rule and variant counts are conserved: the aggregate has the sum over all entries, within its counter's range. */
  lemma {:induction false} CountsAreConserved(flags: map<string, FlagCounts>, infos: seq<FlagInfo>, c: Counter)
    requires !c.AssignmentCount? && AllNatural(infos) && 0 <= CountOf(flags, c) <= I64_MAX
    ensures CountOf(UpdateFlags(flags, infos), c) == Capped(CountOf(flags, c) + LogTotal(infos, c))
    ensures LogTotal(infos, c) >= 0
    decreases |infos|
  {
    hide UpdateFlag, FlagTotal, CountOf, AllNatural;
    if infos != [] {
      NaturalParts(infos);
      InfoCounts(flags, infos[0], c);
      CountsAreConserved(flags[infos[0].flag := UpdateFlag(FlagOr(flags, infos[0].flag), infos[0])], infos[1..], c);
    }
  }

  lemma {:induction false} InfoCounts(flags: map<string, FlagCounts>, info: FlagInfo, c: Counter)
    requires !c.AssignmentCount? && AllNatural([info]) && 0 <= CountOf(flags, c) <= I64_MAX
    ensures CountOf(flags[info.flag := UpdateFlag(FlagOr(flags, info.flag), info)], c)
        == Capped(CountOf(flags, c) + FlagTotal(info, c))
    ensures FlagTotal(info, c) >= 0
  {
    hide UpdateFlag, FlagTotal, CountIn, AllNatural;
    NothingIn(c);
    if info.flag == c.flag {
      FlagCountsAdd(FlagOr(flags, info.flag), info, c);
    } else {
      OtherFlag(info, c);
    }
  }

  lemma NothingIn(c: Counter)
    ensures CountIn(NOTHING, c) == 0
  {
  }

  lemma NaturalParts(infos: seq<FlagInfo>)
    requires infos != [] && AllNatural(infos)
    ensures AllNatural([infos[0]]) && AllNatural(infos[1..])
  {
    assert infos[0] in infos && forall x :: x in infos[1..] ==> x in infos;
  }

  lemma OtherFlag(info: FlagInfo, c: Counter)
    requires info.flag != c.flag
    ensures FlagTotal(info, c) == 0
  {
  }

  // ----- What is not

  /** The assignment counts of each entry of the rule, in order. */
  function EntriesIn(rules: seq<RuleInfo>, rule: string): seq<seq<Tally>> {
    if rules == [] then []
    else (if rules[0].rule == rule then [rules[0].assignments] else []) + EntriesIn(rules[1..], rule)
  }

  function EntriesOf(infos: seq<FlagInfo>, flag: string, rule: string): seq<seq<Tally>> {
    if infos == [] then []
    else (if infos[0].flag == flag then EntriesIn(infos[0].rules, rule) else []) + EntriesOf(infos[1..], flag, rule)
  }

  ghost predicate Mentions(tallies: seq<Tally>, id: string) { exists t :: t in tallies && t.key == id }

  /** Counts of the id are only ever repeated in an entry behind a count of zero. */
  ghost predicate Once(tallies: seq<Tally>, id: string) {
    forall i, j :: 0 <= i < j < |tallies| && tallies[i].key == id && tallies[j].key == id ==> tallies[i].count == 0
  }

  /** Each entry behind one that counted the id mentions it, and none counts it twice. */
  ghost predicate Kept(entries: seq<seq<Tally>>, id: string, start: int) {
    && (start > 0 ==> forall j :: 0 <= j < |entries| ==> Mentions(entries[j], id))
    && (forall i, j :: 0 <= i < j < |entries| && TallyTotal(entries[i], id) > 0 ==> Mentions(entries[j], id))
    && (forall j :: 0 <= j < |entries| ==> Once(entries[j], id))
  }

  function EntriesTotal(entries: seq<seq<Tally>>, id: string): int {
    if entries == [] then 0 else TallyTotal(entries[0], id) + EntriesTotal(entries[1..], id)
  }

  ghost predicate NaturalEntries(entries: seq<seq<Tally>>) {
    forall j, t :: 0 <= j < |entries| && t in entries[j] ==> t.count >= 0
  }

  /** The count of an id behind an entry. */
  function Renewed(n: int, tallies: seq<Tally>, id: string): int {
    Or(NewAssignments(map[id := n], tallies, map[]), id)
  }

  function RenewedBy(n: int, entries: seq<seq<Tally>>, id: string): int
    decreases |entries|
  {
    if entries == [] then n else RenewedBy(Renewed(n, entries[0], id), entries[1..], id)
  }

  lemma {:induction false} RenewedIsLocal(was: map<string, int>, other: map<string, int>, tallies: seq<Tally>,
      built: map<string, int>, built': map<string, int>, id: string)
    requires Or(was, id) == Or(other, id) && Or(built, id) == Or(built', id)
    ensures Or(NewAssignments(was, tallies, built), id) == Or(NewAssignments(other, tallies, built'), id)
    decreases |tallies|
  {
    if tallies != [] {
      var t := tallies[0];
      RenewedIsLocal(was, other, tallies[1..], built[t.key := SaturatingAdd(Or(was, t.key), t.count)],
          built'[t.key := SaturatingAdd(Or(other, t.key), t.count)], id);
    }
  }

  lemma {:induction false} RuleRenews(fc: FlagCounts, r: RuleInfo, flag: string, rule: string, id: string)
    ensures var c := AssignmentCount(flag, rule, id);
            CountIn(UpdateRule(fc, r), c)
            == if r.rule == rule then Renewed(CountIn(fc, c), r.assignments, id) else CountIn(fc, c)
  {
    hide NewAssignments;
    if r.rule == rule {
      var was := RuleOr(fc, rule).assignments;
      RenewedIsLocal(was, map[id := Or(was, id)], r.assignments, map[], map[], id);
    }
  }

  lemma {:induction false} RulesRenew(fc: FlagCounts, rules: seq<RuleInfo>, flag: string, rule: string, id: string)
    ensures CountIn(UpdateRules(fc, rules), AssignmentCount(flag, rule, id))
        == RenewedBy(CountIn(fc, AssignmentCount(flag, rule, id)), EntriesIn(rules, rule), id)
    decreases |rules|
  {
    hide CountIn, UpdateRule, Renewed;
    if rules != [] {
      RuleRenews(fc, rules[0], flag, rule, id);
      RulesRenew(UpdateRule(fc, rules[0]), rules[1..], flag, rule, id);
      var first, rest := if rules[0].rule == rule then [rules[0].assignments] else [], EntriesIn(rules[1..], rule);
      assert first == [] ==> first + rest == rest;
      assert first != [] ==> (first + rest)[0] == rules[0].assignments && (first + rest)[1..] == rest;
    }
  }

  lemma {:induction false} RenewedByAppend(n: int, a: seq<seq<Tally>>, b: seq<seq<Tally>>, id: string)
    ensures RenewedBy(n, a + b, id) == RenewedBy(RenewedBy(n, a, id), b, id)
    decreases |a|
  {
    if a == [] {
      assert a + b == b;
    } else {
      assert (a + b)[0] == a[0] && (a + b)[1..] == a[1..] + b;
      RenewedByAppend(Renewed(n, a[0], id), a[1..], b, id);
    }
  }

  lemma {:induction false} VariantsLeaveRules(fc: FlagCounts, variants: seq<Tally>)
    ensures UpdateVariants(fc, variants).rules == fc.rules
    decreases |variants|
  {
    if variants != [] {
      var v := variants[0];
      VariantsLeaveRules(fc.(variants := fc.variants[v.key := SaturatingAdd(Or(fc.variants, v.key), v.count)]),
          variants[1..]);
    }
  }

  lemma {:induction false} InfosRenew(flags: map<string, FlagCounts>, infos: seq<FlagInfo>, c: Counter)
    requires c.AssignmentCount?
    ensures CountOf(UpdateFlags(flags, infos), c)
        == RenewedBy(CountOf(flags, c), EntriesOf(infos, c.flag, c.rule), c.assignmentId)
    decreases |infos|
  {
    hide UpdateRules, UpdateVariants, EntriesIn;
    if infos != [] {
      var info, rest := infos[0], EntriesOf(infos[1..], c.flag, c.rule);
      var fc := FlagOr(flags, info.flag);
      InfosRenew(flags[info.flag := UpdateFlag(fc, info)], infos[1..], c);
      VariantsLeaveRules(UpdateRules(fc, info.rules), info.variants);
      if info.flag == c.flag {
        RulesRenew(fc, info.rules, c.flag, c.rule, c.assignmentId);
        RenewedByAppend(CountOf(flags, c), EntriesIn(info.rules, c.rule), rest, c.assignmentId);
      } else {
        assert [] + rest == rest;
      }
    }
  }

  lemma {:induction false} EntriesTotalAppend(a: seq<seq<Tally>>, b: seq<seq<Tally>>, id: string)
    ensures EntriesTotal(a + b, id) == EntriesTotal(a, id) + EntriesTotal(b, id)
    decreases |a|
  {
    if a == [] {
      assert a + b == b;
    } else {
      assert (a + b)[1..] == a[1..] + b;
      EntriesTotalAppend(a[1..], b, id);
    }
  }

  lemma {:induction false} RulesTotal(rules: seq<RuleInfo>, c: Counter)
    requires c.AssignmentCount?
    ensures EntriesTotal(EntriesIn(rules, c.rule), c.assignmentId) == RuleTotal(rules, c)
  {
    if rules != [] {
      RulesTotal(rules[1..], c);
      var rest := EntriesIn(rules[1..], c.rule);
      if rules[0].rule == c.rule {
        assert ([rules[0].assignments] + rest)[1..] == rest;
      } else {
        assert [] + rest == rest;
      }
    }
  }

  lemma {:induction false} InfosTotal(infos: seq<FlagInfo>, c: Counter)
    requires c.AssignmentCount?
    ensures EntriesTotal(EntriesOf(infos, c.flag, c.rule), c.assignmentId) == LogTotal(infos, c)
  {
    if infos != [] {
      InfosTotal(infos[1..], c);
      RulesTotal(infos[0].rules, c);
      var first := if infos[0].flag == c.flag then EntriesIn(infos[0].rules, c.rule) else [];
      EntriesTotalAppend(first, EntriesOf(infos[1..], c.flag, c.rule), c.assignmentId);
    }
  }

  /** Behind one entry: at most what was counted, and exactly that if nothing was forgotten or the counter is full. */
  lemma {:induction false} RenewedHolds(n: int, tallies: seq<Tally>, built: map<string, int>, id: string)
    requires 0 <= n <= I64_MAX && forall t :: t in tallies ==> t.count >= 0
    ensures var m := Or(NewAssignments(map[id := n], tallies, built), id);
            && TallyTotal(tallies, id) >= 0
            && (if Mentions(tallies, id)
                then n <= m <= Capped(n + TallyTotal(tallies, id))
                  && (m == Capped(n + TallyTotal(tallies, id)) <==> Once(tallies, id) || m == I64_MAX)
                else TallyTotal(tallies, id) == 0 && m == Or(built, id) && Once(tallies, id))
    decreases |tallies|
  {
    hide Mentions, Once;
    if tallies == [] {
      NothingMentioned(id);
    } else {
      var t, rest := tallies[0], tallies[1..];
      assert t in tallies && forall x :: x in rest ==> x in tallies;
      RenewedHolds(n, rest, built[t.key := SaturatingAdd(Or(map[id := n], t.key), t.count)], id);
      OnceHead(tallies, id);
    }
  }

  lemma NothingMentioned(id: string)
    ensures !Mentions([], id) && Once([], id)
  {
  }

  lemma {:induction false} OnceHead(tallies: seq<Tally>, id: string)
    requires tallies != []
    ensures Mentions(tallies, id) <==> tallies[0].key == id || Mentions(tallies[1..], id)
    ensures !Mentions(tallies, id) ==> Once(tallies, id)
    ensures Once(tallies, id) <==>
            Once(tallies[1..], id)
            && (tallies[0].key == id && Mentions(tallies[1..], id) ==> tallies[0].count == 0)
  {
    var rest := tallies[1..];
    assert forall i :: 0 < i < |tallies| ==> tallies[i] == rest[i - 1];
    if Once(tallies, id) {
      forall i, j | 0 <= i < j < |rest| && rest[i].key == id && rest[j].key == id ensures rest[i].count == 0 {
        assert tallies[i + 1] == rest[i] && tallies[j + 1] == rest[j];
      }
      if tallies[0].key == id && Mentions(rest, id) {
        var j :| 0 <= j < |rest| && rest[j].key == id;
        assert tallies[j + 1] == rest[j];
      }
    }
  }

  lemma {:induction false} KeptHead(entries: seq<seq<Tally>>, id: string, start: int)
    requires entries != [] && start >= 0 && TallyTotal(entries[0], id) >= 0
    ensures Kept(entries, id, start) <==>
            && (start > 0 ==> Mentions(entries[0], id)) && Once(entries[0], id)
            && Kept(entries[1..], id, start + TallyTotal(entries[0], id))
  {
    hide Mentions, Once, TallyTotal;
    var rest := entries[1..];
    assert forall i :: 0 < i < |entries| ==> entries[i] == rest[i - 1];
    assert forall i :: 0 <= i < |rest| ==> rest[i] == entries[i + 1];
  }

  /** Over all entries of the rule, from a count `n`. */
  lemma {:induction false} RenewedExactly(n: int, entries: seq<seq<Tally>>, id: string)
    requires 0 <= n <= I64_MAX && NaturalEntries(entries)
    ensures var m, total := RenewedBy(n, entries, id), n + EntriesTotal(entries, id);
            0 <= m <= Capped(total) && (m == Capped(total) <==> Kept(entries, id, n) || m == I64_MAX)
    ensures EntriesTotal(entries, id) >= 0
    decreases |entries|
  {
    hide TallyTotal, Mentions, Once, Kept, Renewed, NaturalEntries;
    if entries == [] {
      KeptOfNothing(id, n);
    } else {
      var first, rest := entries[0], entries[1..];
      NaturalHead(entries);
      RenewedOnce(n, first, id);
      KeptHead(entries, id, n);
      RenewedExactly(Renewed(n, first, id), rest, id);
      KeptIgnores(rest, id, Renewed(n, first, id), n + TallyTotal(first, id));
    }
  }

  lemma KeptOfNothing(id: string, n: int)
    ensures Kept([], id, n)
  {
  }

  lemma NaturalHead(entries: seq<seq<Tally>>)
    requires entries != [] && NaturalEntries(entries)
    ensures NaturalEntries(entries[1..]) && forall t :: t in entries[0] ==> t.count >= 0
  {
    assert forall i :: 0 <= i < |entries[1..]| ==> entries[1..][i] == entries[i + 1];
  }

  lemma {:induction false} RenewedOnce(n: int, tallies: seq<Tally>, id: string)
    requires 0 <= n <= I64_MAX && forall t :: t in tallies ==> t.count >= 0
    ensures var m, total := Renewed(n, tallies, id), n + TallyTotal(tallies, id);
            && 0 <= m <= Capped(total) && n <= total
            && (m == Capped(total) <==>
                 ((n > 0 ==> Mentions(tallies, id)) && Once(tallies, id)) || m == I64_MAX)
  {
    hide TallyTotal, Mentions, Once;
    RenewedHolds(n, tallies, map[], id);
  }

  lemma KeptIgnores(entries: seq<seq<Tally>>, id: string, a: int, b: int)
    ensures (a > 0 <==> b > 0) ==> (Kept(entries, id, a) <==> Kept(entries, id, b))
  {
  }

  /**
   Counts per assignment are conserved only by chance: the aggregate has the sum over all entries, within its counter's
   range, exactly when each entry of the rule mentions every id that was counted before it, and once, or when what was
   counted since fills the counter by itself.
   */
  lemma {:induction false} AssignmentsConservedExactly(flags: map<string, FlagCounts>, infos: seq<FlagInfo>, c: Counter)
    requires c.AssignmentCount? && 0 <= CountOf(flags, c) <= I64_MAX
    requires NaturalEntries(EntriesOf(infos, c.flag, c.rule))
    ensures var before, after := CountOf(flags, c), CountOf(UpdateFlags(flags, infos), c);
            && 0 <= after <= Capped(before + LogTotal(infos, c))
            && (after == Capped(before + LogTotal(infos, c))
                <==> Kept(EntriesOf(infos, c.flag, c.rule), c.assignmentId, before) || after == I64_MAX)
  {
    hide RenewedBy, UpdateFlags, EntriesOf, EntriesTotal, LogTotal, Kept, CountOf, NaturalEntries;
    InfosRenew(flags, infos, c);
    InfosTotal(infos, c);
    RenewedExactly(CountOf(flags, c), EntriesOf(infos, c.flag, c.rule), c.assignmentId);
  }

  // ----- Schemas

  function SchemasOf(clients: seq<ClientInfo>, credential: string): set<string> {
    if clients == [] then {}
    else
      var first := if clients[0].credential == credential then SetOf(clients[0].schemas) else {};
      first + SchemasOf(clients[1..], credential)
  }

  ghost predicate FirstOf(clients: seq<ClientInfo>, credential: string, k: nat) {
    && k < |clients| && clients[k].credential == credential
    && forall j :: 0 <= j < k ==> clients[j].credential != credential
  }

  lemma FirstOfRest(clients: seq<ClientInfo>, credential: string)
    requires clients != []
    ensures clients[0].credential == credential ==> FirstOf(clients, credential, 0)
    ensures clients[0].credential != credential ==> forall k: nat :: FirstOf(clients[1..], credential, k) ==>
              FirstOf(clients, credential, k + 1) && clients[k + 1] == clients[1..][k]
  {
    assert forall j :: 0 < j < |clients| ==> clients[j] == clients[1..][j - 1];
  }

  /** Each credential ends with the union of its schemas, under the client that first came with it. */
  lemma {:induction false} SchemasAreUnited(schemas: map<string, SchemaItem>, clients: seq<ClientInfo>,
      credential: string)
    ensures var after := UpdateSchemas(schemas, clients);
            && (credential in after <==>
                credential in schemas || exists c :: c in clients && c.credential == credential)
            && (credential in after ==>
                  after[credential].schemas
                      == (if credential in schemas then schemas[credential].schemas else {})
                      + SchemasOf(clients, credential))
            && (credential in schemas ==> after[credential].client == schemas[credential].client)
            && (credential in after && credential !in schemas ==>
                  exists k :: 0 <= k < |clients| && FirstOf(clients, credential, k)
                              && after[credential].client == clients[k].client)
    decreases |clients|
  {
    if clients != [] {
      var c := clients[0];
      assert forall x :: x in clients <==> x == c || x in clients[1..];
      SchemasAreUnited(UpdateSchema(schemas, c), clients[1..], credential);
      FirstOfRest(clients, credential);
    }
  }

  /** A receiver of the aggregate counts what it would from the messages, exactly when no total overflows 32 bits. */
  lemma {:induction false} TelemetryIsConserved(s: Telemetry.Snapshot, messages: seq<Message>)
    requires MergeTelemetry.Valid(s) && BatchLaws.Typed(s) && BatchLaws.AllWired(Deltas(messages))
    ensures var t, deltas := Merged(messages), Deltas(messages);
            (if t.Some? then Telemetry.Accumulate(s, t.value.delta) else s) == Telemetry.AccumulateAll(s, deltas)
            <==> forall m :: BatchLaws.Total(deltas, m) % Counters.U64 < Counters.U32
  {
    BatchLaws.BatchingKeepsMetrics(s, Deltas(messages));
    BatchLaws.EmptyDelta(s);
  }
}
