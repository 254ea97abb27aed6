/** The counters one checkpoint interval collects, and the per-request log that carries the same counts. */
module ResolveLogger {
  import opened Flags
  import Counters

  const U32 := Counters.U32

  /** One counter of the nested flag, rule and assignment maps. A counter that was never touched reads as 0. */
  datatype Counter =
    | VariantCount(flag: string, variant: string)
    | RuleCount(flag: string, rule: string)
    | AssignmentCount(flag: string, rule: string, assignmentId: string)

  type Counts = map<Counter, nat>

  function At(counts: Counts, c: Counter): nat { if c in counts then counts[c] else 0 }

  /** `fetch_add(1)` on a counter, which wraps at 32 bits. */
  function Bump(counts: Counts, c: Counter): Counts { counts[c := (At(counts, c) + 1) % U32] }

  function BumpAll(counts: Counts, events: seq<Counter>): Counts
    decreases |events|
  {
    if events == [] then counts else BumpAll(Bump(counts, events[0]), events[1..])
  }

  function Times(events: seq<Counter>, c: Counter): nat {
    if events == [] then 0 else (if events[0] == c then 1 else 0) + Times(events[1..], c)
  }

  lemma {:induction false} TimesAppend(a: seq<Counter>, b: seq<Counter>, c: Counter)
    ensures Times(a + b, c) == Times(a, c) + Times(b, c)
    decreases |a|
  {
    if a == [] {
      assert a + b == b;
    } else {
      assert (a + b)[1..] == a[1..] + b;
      TimesAppend(a[1..], b, c);
    }
  }

  lemma BumpsOne(counts: Counts, e: Counter, c: Counter)
    requires At(counts, c) < U32
    ensures At(Bump(counts, e), c) == (At(counts, c) + (if e == c then 1 else 0)) % U32 < U32
  {
  }

  /** A counter ends up at the number of its increments, modulo 2^32. */
  lemma {:induction false} BumpAllCounts(counts: Counts, events: seq<Counter>, c: Counter)
    requires At(counts, c) < U32
    ensures At(BumpAll(counts, events), c) == (At(counts, c) + Times(events, c)) % U32
    decreases |events|
  {
    if events != [] {
      hide Bump, At;
      BumpsOne(counts, events[0], c);
      BumpAllCounts(Bump(counts, events[0]), events[1..], c);
      Counters.AddReduced(At(counts, c) + (if events[0] == c then 1 else 0), Times(events[1..], c), U32);
    }
  }

  lemma {:induction false} BumpAllAppend(counts: Counts, a: seq<Counter>, b: seq<Counter>)
    ensures BumpAll(counts, a + b) == BumpAll(BumpAll(counts, a), b)
    decreases |a|
  {
    if a == [] {
      assert a + b == b;
    } else {
      assert (a + b)[0] == a[0] && (a + b)[1..] == a[1..] + b;
      BumpAllAppend(Bump(counts, a[0]), a[1..], b);
    }
  }

  // ----- The increments of one resolve

  function Pair(flag: string, fall: Attribution): seq<Counter> {
    [RuleCount(flag, fall.rule), AssignmentCount(flag, fall.rule, fall.assignmentId)]
  }

  function FallEvents(flag: string, falls: seq<Attribution>): seq<Counter> {
    if falls == [] then []
    else Pair(flag, falls[0]) + FallEvents(flag, falls[1..])
  }

  function OwnEvents(v: AssignedFlag): seq<Counter> {
    if v.rule == "" then [VariantCount(v.flag, "")]
    else [VariantCount(v.flag, v.variant), RuleCount(v.flag, v.rule), AssignmentCount(v.flag, v.rule, v.assignmentId)]
  }

  function Events(values: seq<AssignedFlag>): seq<Counter> {
    if values == [] then []
    else FallEvents(values[0].flag, values[0].fallthroughs) + OwnEvents(values[0]) + Events(values[1..])
  }

  /** The schemas that resolves offered to the sample of each client credential, in order. */
  type Offers = map<string, seq<string>>

  function Offered(offers: Offers, credential: string): seq<string> {
    if credential in offers then offers[credential] else []
  }

  class ResolveInfoState {
    var counts: Counts
    var offers: Offers

    constructor ()
      ensures counts == map[] && offers == map[]
    {
      counts, offers := map[], map[];
    }

    /** The context's schema goes to the sample of the credential alone, which `BoundedSet` keeps. */
    method OfferSchema(credential: string, schema: string)
      modifies this`offers
      ensures Offered(offers, credential) == Offered(old(offers), credential) + [schema]
      ensures forall other :: other != credential ==> Offered(offers, other) == Offered(old(offers), other)
    {
      if credential !in offers {
        offers := offers[credential := []];
      }
      offers := offers[credential := offers[credential] + [schema]];
    }

    method Increment(c: Counter)
      modifies this`counts
      ensures counts == Bump(old(counts), c)
    {
      counts := counts[c := (At(counts, c) + 1) % U32];
    }

    method LogFalls(flag: string, falls: seq<Attribution>)
      modifies this`counts
      ensures counts == BumpAll(old(counts), FallEvents(flag, falls))
    {
      var i := 0;
      while i < |falls|
        invariant i <= |falls|
        invariant BumpAll(counts, FallEvents(flag, falls[i..])) == BumpAll(old(counts), FallEvents(flag, falls))
      {
        ghost var rest, pair := FallEvents(flag, falls[i + 1..]), Pair(flag, falls[i]);
        assert falls[i..][1..] == falls[i + 1..];
        assert (pair + rest)[1..] == [pair[1]] + rest && ([pair[1]] + rest)[1..] == rest;
        Increment(RuleCount(flag, falls[i].rule));
        Increment(AssignmentCount(flag, falls[i].rule, falls[i].assignmentId));
        i := i + 1;
      }
    }

    method LogResolve(credential: string, schema: string, values: seq<AssignedFlag>)
      modifies this
      ensures counts == BumpAll(old(counts), Events(values))
      ensures Offered(offers, credential) == Offered(old(offers), credential) + [schema]
      ensures forall other :: other != credential ==> Offered(offers, other) == Offered(old(offers), other)
    {
      OfferSchema(credential, schema);
      LogValues(values);
    }

    method LogValues(values: seq<AssignedFlag>)
      modifies this`counts
      ensures counts == BumpAll(old(counts), Events(values))
    {
      var i := 0;
      while i < |values|
        invariant i <= |values|
        invariant BumpAll(counts, Events(values[i..])) == BumpAll(old(counts), Events(values))
      {
        var v := values[i];
        assert values[i..][1..] == values[i + 1..];
        ghost var falls, own, rest := FallEvents(v.flag, v.fallthroughs), OwnEvents(v), Events(values[i + 1..]);
        BumpAllAppend(counts, falls + own, rest);
        BumpAllAppend(counts, falls, own);
        LogFalls(v.flag, v.fallthroughs);
        ghost var before := counts;
        if v.rule != "" {
          Increment(VariantCount(v.flag, v.variant));
          Increment(RuleCount(v.flag, v.rule));
          Increment(AssignmentCount(v.flag, v.rule, v.assignmentId));
          OwnBumps(before, own);
        } else {
          Increment(VariantCount(v.flag, ""));
          assert own[1..] == [];
        }
        i := i + 1;
      }
    }
  }

  lemma OwnBumps(counts: Counts, e: seq<Counter>)
    requires |e| == 3
    ensures BumpAll(counts, e) == Bump(Bump(Bump(counts, e[0]), e[1]), e[2])
  {
    assert e == [e[0]] + ([e[1]] + [e[2]]);
    BumpAllAppend(counts, [e[0]], [e[1]] + [e[2]]);
    BumpAllAppend(Bump(counts, e[0]), [e[1]], [e[2]]);
    assert forall m: Counts, c: Counter :: BumpAll(m, [c]) == BumpAll(Bump(m, c), [c][1..]) == Bump(m, c);
  }

  // ----- Rules and their assignments

  function OfRule(events: seq<Counter>, flag: string, rule: string): nat {
    if events == [] then 0
    else
      var first := if events[0].AssignmentCount? && events[0].flag == flag && events[0].rule == rule then 1 else 0;
      first + OfRule(events[1..], flag, rule)
  }

  lemma {:induction false} OfRuleAppend(a: seq<Counter>, b: seq<Counter>, flag: string, rule: string)
    ensures OfRule(a + b, flag, rule) == OfRule(a, flag, rule) + OfRule(b, flag, rule)
    decreases |a|
  {
    if a == [] {
      assert a + b == b;
    } else {
      assert (a + b)[1..] == a[1..] + b;
      OfRuleAppend(a[1..], b, flag, rule);
    }
  }

  lemma {:induction false} PairIsEven(name: string, fall: Attribution, flag: string, rule: string)
    ensures Times(Pair(name, fall), RuleCount(flag, rule)) == OfRule(Pair(name, fall), flag, rule)
  {
    var pair := Pair(name, fall);
    assert pair[1..] == [pair[1]] && pair[1..][1..] == [];
    assert Times(pair[1..], RuleCount(flag, rule)) == 0;
    assert OfRule(pair[1..], flag, rule) == if name == flag && fall.rule == rule then 1 else 0;
  }

  lemma {:induction false} FallsPair(name: string, falls: seq<Attribution>, flag: string, rule: string)
    ensures Times(FallEvents(name, falls), RuleCount(flag, rule)) == OfRule(FallEvents(name, falls), flag, rule)
  {
    if falls != [] {
      var pair, rest := Pair(name, falls[0]), FallEvents(name, falls[1..]);
      FallsPair(name, falls[1..], flag, rule);
      TimesAppend(pair, rest, RuleCount(flag, rule));
      OfRuleAppend(pair, rest, flag, rule);
      PairIsEven(name, falls[0], flag, rule);
    }
  }

  lemma {:induction false} OwnPair(v: AssignedFlag, flag: string, rule: string)
    ensures Times(OwnEvents(v), RuleCount(flag, rule)) == OfRule(OwnEvents(v), flag, rule)
  {
    var own := OwnEvents(v);
    if v.rule == "" {
      assert own[1..] == [];
    } else {
      var fall := Attribution(v.rule, v.assignmentId, "", "");
      assert own[1..] == Pair(v.flag, fall);
      PairIsEven(v.flag, fall, flag, rule);
    }
  }

  /** A resolve increments a rule exactly as often as assignments of that rule. */
  lemma {:induction false} EventsPair(values: seq<AssignedFlag>, flag: string, rule: string)
    ensures Times(Events(values), RuleCount(flag, rule)) == OfRule(Events(values), flag, rule)
  {
    if values != [] {
      var v := values[0];
      var falls, own, rest := FallEvents(v.flag, v.fallthroughs), OwnEvents(v), Events(values[1..]);
      EventsPair(values[1..], flag, rule);
      FallsPair(v.flag, v.fallthroughs, flag, rule);
      OwnPair(v, flag, rule);
      OfRuleAppend(falls + own, rest, flag, rule);
      OfRuleAppend(falls, own, flag, rule);
      TimesAppend(falls + own, rest, RuleCount(flag, rule));
      TimesAppend(falls, own, RuleCount(flag, rule));
    }
  }

  // ----- The log of a single request

  datatype Tally = Tally(key: string, count: int)

  datatype RuleInfo = RuleInfo(rule: string, count: int, assignments: seq<Tally>)

  datatype FlagInfo = FlagInfo(flag: string, variants: seq<Tally>, rules: seq<RuleInfo>)

  function FallInfos(falls: seq<Attribution>): seq<RuleInfo> {
    if falls == [] then [] else [RuleInfo(falls[0].rule, 1, [Tally(falls[0].assignmentId, 1)])] + FallInfos(falls[1..])
  }

  function BuildFlagInfo(v: AssignedFlag): FlagInfo {
    if v.rule == "" then FlagInfo(v.flag, [Tally("", 1)], FallInfos(v.fallthroughs))
    else FlagInfo(v.flag, [Tally(v.variant, 1)],
                  FallInfos(v.fallthroughs) + [RuleInfo(v.rule, 1, [Tally(v.assignmentId, 1)])])
  }

  function BuildResolveLog(values: seq<AssignedFlag>): seq<FlagInfo> {
    if values == [] then [] else [BuildFlagInfo(values[0])] + BuildResolveLog(values[1..])
  }

  /** What a receiver that adds up all entries of a log finds for a counter. */
  function TallyTotal(tallies: seq<Tally>, key: string): int {
    if tallies == [] then 0 else (if tallies[0].key == key then tallies[0].count else 0) + TallyTotal(tallies[1..], key)
  }

  function RuleTotal(rules: seq<RuleInfo>, c: Counter): int
    requires !c.VariantCount?
  {
    if rules == [] then 0
    else (if rules[0].rule != c.rule then 0
          else if c.RuleCount? then rules[0].count
          else TallyTotal(rules[0].assignments, c.assignmentId)) + RuleTotal(rules[1..], c)
  }

  function FlagTotal(info: FlagInfo, c: Counter): int {
    if info.flag != c.flag then 0
    else if c.VariantCount? then TallyTotal(info.variants, c.variant)
    else RuleTotal(info.rules, c)
  }

  function LogTotal(infos: seq<FlagInfo>, c: Counter): int {
    if infos == [] then 0 else FlagTotal(infos[0], c) + LogTotal(infos[1..], c)
  }

  lemma {:induction false} RuleTotalAppend(a: seq<RuleInfo>, b: seq<RuleInfo>, c: Counter)
    requires !c.VariantCount?
    ensures RuleTotal(a + b, c) == RuleTotal(a, c) + RuleTotal(b, c)
    decreases |a|
  {
    if a == [] {
      assert a + b == b;
    } else {
      assert (a + b)[1..] == a[1..] + b;
      RuleTotalAppend(a[1..], b, c);
    }
  }

  lemma {:induction false} OneRule(rule: string, assignmentId: string, c: Counter)
    requires !c.VariantCount?
    ensures var events := [RuleCount(c.flag, rule), AssignmentCount(c.flag, rule, assignmentId)];
            RuleTotal([RuleInfo(rule, 1, [Tally(assignmentId, 1)])], c) == Times(events, c)
  {
    var rules, tallies := [RuleInfo(rule, 1, [Tally(assignmentId, 1)])], [Tally(assignmentId, 1)];
    var events := [RuleCount(c.flag, rule), AssignmentCount(c.flag, rule, assignmentId)];
    assert rules[1..] == [] && tallies[1..] == [] && events[1..] == [events[1]] && events[1..][1..] == [];
    assert Times(events[1..], c) == if events[1] == c then 1 else 0;
    assert c.AssignmentCount? ==>
        TallyTotal(tallies, c.assignmentId) == if assignmentId == c.assignmentId then 1 else 0;
  }

  lemma {:induction false} FallInfosTotal(falls: seq<Attribution>, c: Counter)
    requires !c.VariantCount?
    ensures RuleTotal(FallInfos(falls), c) == Times(FallEvents(c.flag, falls), c)
  {
    if falls != [] {
      FallInfosTotal(falls[1..], c);
      OneRule(falls[0].rule, falls[0].assignmentId, c);
      RuleTotalAppend([RuleInfo(falls[0].rule, 1, [Tally(falls[0].assignmentId, 1)])], FallInfos(falls[1..]), c);
      TimesAppend(Pair(c.flag, falls[0]), FallEvents(c.flag, falls[1..]), c);
    }
  }

  lemma {:induction false} OtherCounters(flag: string, falls: seq<Attribution>, c: Counter)
    requires c.VariantCount? || flag != c.flag
    ensures Times(FallEvents(flag, falls), c) == 0
  {
    if falls != [] {
      var pair := Pair(flag, falls[0]);
      OtherCounters(flag, falls[1..], c);
      TimesAppend(pair, FallEvents(flag, falls[1..]), c);
      assert pair[1..] == [pair[1]] && pair[1..][1..] == [];
    }
  }

  lemma {:induction false} OwnTotal(v: AssignedFlag, c: Counter)
    requires v.flag == c.flag
    ensures Times(OwnEvents(v), c) ==
            if c.VariantCount? then TallyTotal(BuildFlagInfo(v).variants, c.variant)
            else if v.rule == "" then 0 else RuleTotal([RuleInfo(v.rule, 1, [Tally(v.assignmentId, 1)])], c)
  {
    var own, variants := OwnEvents(v), BuildFlagInfo(v).variants;
    assert variants[1..] == [];
    if v.rule == "" {
      assert own[1..] == [];
    } else {
      assert own[1..] == [own[1], own[2]];
      if c.VariantCount? {
        assert own[1..][1..] == [own[2]] && own[1..][1..][1..] == [];
        assert Times(own[1..][1..], c) == 0 + Times([], c);
      } else {
        OneRule(v.rule, v.assignmentId, c);
      }
    }
  }

  lemma {:induction false} FlagInfoTotal(v: AssignedFlag, c: Counter)
    ensures FlagTotal(BuildFlagInfo(v), c) == Times(FallEvents(v.flag, v.fallthroughs) + OwnEvents(v), c)
  {
    var falls, own := FallEvents(v.flag, v.fallthroughs), OwnEvents(v);
    TimesAppend(falls, own, c);
    if v.flag != c.flag {
      OtherCounters(v.flag, v.fallthroughs, c);
      OtherOwn(v, c);
    } else {
      OwnTotal(v, c);
      if c.VariantCount? {
        OtherCounters(v.flag, v.fallthroughs, c);
      } else {
        FallInfosTotal(v.fallthroughs, c);
        RuleTotalAppend(FallInfos(v.fallthroughs), [RuleInfo(v.rule, 1, [Tally(v.assignmentId, 1)])], c);
      }
    }
  }

  lemma {:induction false} OtherOwn(v: AssignedFlag, c: Counter)
    requires v.flag != c.flag
    ensures Times(OwnEvents(v), c) == 0
  {
    var own := OwnEvents(v);
    if v.rule == "" {
      assert own[1..] == [];
    } else {
      assert own[1..] == [own[1], own[2]] && own[1..][1..] == [own[2]] && own[1..][1..][1..] == [];
      assert Times(own[1..][1..], c) == 0 + Times([], c);
    }
  }

  /** The log of a single request adds up to exactly the increments the shared logger would have made for it. */
  lemma {:induction false} LogTotalsAreTheIncrements(values: seq<AssignedFlag>, c: Counter)
    ensures LogTotal(BuildResolveLog(values), c) == Times(Events(values), c)
  {
    if values != [] {
      LogTotalsAreTheIncrements(values[1..], c);
      FlagInfoTotal(values[0], c);
      TimesAppend(FallEvents(values[0].flag, values[0].fallthroughs) + OwnEvents(values[0]), Events(values[1..]), c);
    }
  }
}
