/**
 What merging a batch of deltas into one preserves. Each counter of the receiver ends at the same value exactly when
 the batch's total for it fits the 32 bits that a merged delta has; everything else is the same in any case.
 */
module BatchLaws {
  import opened Wrappers
  import opened Counters
  import opened Telemetry
  import opened MergeTelemetry

  // ----- Counters, one by one

  /** A counter that a delta reports an amount of and a snapshot adds up. */
  datatype Metric =
    | LatencySum
    | LatencyCount
    | RateOf(reason: nat)
    | DedupTotal
    | DedupDeduped
    | DedupOverflow
    | DedupSweeps
    | FlushSucceeded
    | FlushFailed
    | Published
    | BatchesSucceeded
    | BatchesFailed
    | Rejected
    | InitsOf(labels: Labels)

  const NO_LATENCY := LatencyDelta(0, 0, [])
  const NO_FLUSH := FlushCounts(0, 0)
  const NO_EVENTS := EventCounts(0, 0, 0, 0)

  function Or<T>(o: Option<T>, none: T): T { if o.Some? then o.value else none }

  function RateTotal(rates: seq<Rate>, reason: int): nat {
    if rates == [] then 0 else (if rates[0].reason == reason then rates[0].count else 0) + RateTotal(rates[1..], reason)
  }

  function Amount(d: Delta, m: Metric): nat {
    match m
    case LatencySum => Or(d.latency, NO_LATENCY).sum
    case LatencyCount => Or(d.latency, NO_LATENCY).count
    case RateOf(reason) => if reason < REASON_COUNT then RateTotal(d.rates, reason) else 0
    case DedupTotal => Or(d.dedup, NO_DEDUP).total
    case DedupDeduped => Or(d.dedup, NO_DEDUP).deduped
    case DedupOverflow => Or(d.dedup, NO_DEDUP).overflow
    case DedupSweeps => Or(d.dedup, NO_DEDUP).sweeps
    case FlushSucceeded => Or(d.flush, NO_FLUSH).succeeded
    case FlushFailed => Or(d.flush, NO_FLUSH).failed
    case Published => Or(d.events, NO_EVENTS).published
    case BatchesSucceeded => Or(d.events, NO_EVENTS).batchesSucceeded
    case BatchesFailed => Or(d.events, NO_EVENTS).batchesFailed
    case Rejected => Or(d.events, NO_EVENTS).rejected
    case InitsOf(labels) => SumFor(d.inits, labels)
  }

  function Reading(s: Snapshot, m: Metric): nat {
    match m
    case LatencySum => s.latency.sum
    case LatencyCount => s.latency.count
    case RateOf(reason) => Get(s.rates, reason)
    case DedupTotal => Or(s.dedup, NO_DEDUP).total
    case DedupDeduped => Or(s.dedup, NO_DEDUP).deduped
    case DedupOverflow => Or(s.dedup, NO_DEDUP).overflow
    case DedupSweeps => Or(s.dedup, NO_DEDUP).sweeps
    case FlushSucceeded => s.flush.succeeded
    case FlushFailed => s.flush.failed
    case Published => s.events.published
    case BatchesSucceeded => s.events.batchesSucceeded
    case BatchesFailed => s.events.batchesFailed
    case Rejected => s.events.rejected
    case InitsOf(labels) => Base(s.inits, labels)
  }

  function Total(deltas: seq<Delta>, m: Metric): nat {
    if deltas == [] then 0 else Amount(deltas[0], m) + Total(deltas[1..], m)
  }

  /** Counters within their 64 bits, as a snapshot's fields are. */
  ghost predicate Typed(s: Snapshot) { forall m :: Reading(s, m) < U64 }

  /** Counts within their 32 bits, as the fields of a delta are. */
  ghost predicate Wired(d: Delta) {
    && (forall m: Metric :: !m.RateOf? && !m.InitsOf? ==> Amount(d, m) < U32)
    && (forall r :: r in d.rates ==> r.count < U32) && Below(d.inits, U32)
  }

  ghost predicate AllWired(deltas: seq<Delta>) { forall d :: d in deltas ==> Wired(d) }

  // ----- What accumulating does to a counter

  lemma {:induction false} SumOfRates(rates: seq<Rate>, i: nat)
    ensures SumAt(RateBumps(rates), i) == if i < REASON_COUNT then RateTotal(rates, i) else 0
  {
    if rates != [] {
      SumOfRates(rates[1..], i);
      if !(0 <= rates[0].reason < REASON_COUNT) {
        assert [] + RateBumps(rates[1..]) == RateBumps(rates[1..]);
      }
    }
  }

  lemma {:induction false} RateAdds(s: Snapshot, d: Delta, reason: nat)
    requires Small(s.rates)
    ensures Get(AddAll(s.rates, RateBumps(d.rates)), reason)
        == Add(Get(s.rates, reason), Amount(d, RateOf(reason)), U64)
  {
    hide AddAll, RateBumps, SumAt, Add;
    AddAllSums(s.rates, RateBumps(d.rates));
    SumOfRates(d.rates, reason);
  }

  lemma {:induction false} InitAdds(l: Entries, es: seq<Entry>, m: nat, labels: Labels)
    requires Bounded(l, m) && m > 0 && Below(es, m)
    ensures Base(AddEntries(l, es, m), labels) == Add(Base(l, labels), SumFor(es, labels), m)
  {
    hide Sorted, Mentions, AddEntries;
    assert Base(l, labels) < m;
    AddEntriesSums(l, es, m, labels);
    if !Mentions(es, labels) {
      NoMention(es, labels);
    }
  }

  /** Accumulating a delta adds its amount of every counter. */
  lemma {:induction false} ReadingAdds(s: Snapshot, d: Delta, m: Metric)
    requires Valid(s) && Typed(s) && Below(d.inits, U64)
    ensures Reading(Accumulate(s, d), m) == Add(Reading(s, m), Amount(d, m), U64)
  {
    hide AddAll, AddEntries, RateBumps, SpansBumps, RateTotal, SumFor, Base;
    assert Reading(s, m) < U64;
    if m.RateOf? {
      RateAdds(s, d, m.reason);
    } else if m.InitsOf? {
      InitAdds(s.inits, d.inits, U64, m.labels);
    }
  }

  lemma {:induction false} AccumulateKeeps(s: Snapshot, d: Delta)
    requires Valid(s) && Typed(s) && Below(d.inits, U64)
    ensures Valid(Accumulate(s, d)) && Typed(Accumulate(s, d))
  {
    hide Accumulate, Reading, Amount, Valid;
    AccumulateKeepsValid(s, d);
    forall m ensures Reading(Accumulate(s, d), m) < U64 {
      ReadingAdds(s, d, m);
    }
  }

  // ----- What merging does to a counter

  predicate Has(rates: seq<Rate>, reason: int) { rates != [] && (rates[0].reason == reason || Has(rates[1..], reason)) }

  predicate Distinct(rates: seq<Rate>) {
    rates == [] || (!Has(rates[1..], rates[0].reason) && rates[0].count < U32 && Distinct(rates[1..]))
  }

  lemma {:induction false} RateOnce(rates: seq<Rate>, reason: int)
    requires Distinct(rates)
    ensures RateTotal(rates, reason) < U32 && (!Has(rates, reason) ==> RateTotal(rates, reason) == 0)
  {
    if rates != [] {
      RateOnce(rates[1..], reason);
    }
  }

  lemma {:induction false} MergeRateAdds(rates: seq<Rate>, r: Rate, reason: int)
    requires Distinct(rates) && r.count < U32
    ensures var merged := MergeRate(rates, r);
            && Distinct(merged) && (Has(merged, reason) <==> Has(rates, reason) || r.reason == reason)
            && RateTotal(merged, reason)
                == if r.reason == reason then Add(RateTotal(rates, reason), r.count, U32) else RateTotal(rates, reason)
  {
    RateOnce(rates, r.reason);
    if rates == [] {
      assert [r][1..] == [];
    } else {
      RateOnce(rates[1..], r.reason);
      MergeRateAdds(rates[1..], r, reason);
      MergeRateAdds(rates[1..], r, rates[0].reason);
    }
  }

  /** A merged list has each reason once, with its total to within 32 bits. */
  lemma {:induction false} MergeRatesAdds(rates: seq<Rate>, more: seq<Rate>, reason: int)
    requires Distinct(rates) && forall r :: r in more ==> r.count < U32
    ensures var merged := MergeRates(rates, more);
            && Distinct(merged) && (Has(merged, reason) <==> Has(rates, reason) || Has(more, reason))
            && RateTotal(merged, reason) == Add(RateTotal(rates, reason), RateTotal(more, reason), U32)
    decreases |more|
  {
    RateOnce(rates, reason);
    if more != [] {
      assert more[0] in more && forall r :: r in more[1..] ==> r in more;
      MergeRateAdds(rates, more[0], reason);
      MergeRatesAdds(MergeRate(rates, more[0]), more[1..], reason);
      AddAssociates(RateTotal(rates, reason), more[0].count, RateTotal(more[1..], reason), U32);
    }
  }

  /** A delta that others are merged into. */
  ghost predicate Settled(a: Delta) { Wired(a) && Distinct(a.rates) && Bounded(a.inits, U32) }

  lemma {:induction false} SettledAmount(a: Delta, m: Metric)
    requires Settled(a)
    ensures Amount(a, m) < U32
  {
    if m.RateOf? {
      RateOnce(a.rates, m.reason);
    } else if m.InitsOf? {
      SortedSum(a.inits, m.labels);
      assert Base(a.inits, m.labels) < U32;
    }
  }

  lemma {:induction false} InitMerges(a: Entries, es: seq<Entry>, labels: Labels)
    requires Bounded(a, U32) && Below(es, U32)
    ensures Bounded(AddEntries(a, es, U32), U32)
    ensures SumFor(AddEntries(a, es, U32), labels) == Add(SumFor(a, labels), SumFor(es, labels), U32)
  {
    hide AddEntries;
    EntriesStayBounded(a, es, U32);
    SortedSum(a, labels);
    SortedSum(AddEntries(a, es, U32), labels);
    InitAdds(a, es, U32, labels);
  }

  /** Merging a delta adds its amount of every counter, to within 32 bits. */
  lemma {:induction false} AmountMerges(a: Delta, d: Delta, m: Metric)
    requires Settled(a) && Wired(d)
    ensures Amount(Merge(a, d), m) == Add(Amount(a, m), Amount(d, m), U32)
  {
    hide MergeRates, AddEntries, RateTotal, SumFor, Bounded, Below, Distinct;
    if m.RateOf? {
      MergeRatesAdds(a.rates, d.rates, m.reason);
    } else if m.InitsOf? {
      InitMerges(a.inits, d.inits, m.labels);
    } else {
      assert Amount(a, m) < U32 && Amount(d, m) < U32;
    }
  }

  lemma {:induction false} DistinctIsBelow(rates: seq<Rate>)
    requires Distinct(rates)
    ensures forall r :: r in rates ==> r.count < U32
  {
    if rates != [] {
      DistinctIsBelow(rates[1..]);
    }
  }

  lemma {:induction false} MergeKeepsSettled(a: Delta, d: Delta)
    requires Settled(a) && Wired(d)
    ensures Settled(Merge(a, d))
  {
    var merged := Merge(a, d);
    MergeRatesAdds(a.rates, d.rates, 0);
    DistinctIsBelow(merged.rates);
    InitMerges(a.inits, d.inits, []);
    BoundedIsBelow(merged.inits, U32);
    hide Merge, Amount, Bounded, Below, Distinct;
    forall m: Metric | !m.RateOf? && !m.InitsOf? ensures Amount(merged, m) < U32 {
      AmountMerges(a, d, m);
    }
  }

  // ----- What is no counter

  /** Everything of a snapshot but its counters. */
  datatype Shape = Shape(buckets: Vector, width: nat, memory: nat, gauges: Option<(nat, nat)>, labels: set<Labels>)

  function Gauged(d: Option<Dedup>): Option<(nat, nat)> {
    if d.Some? then Some((d.value.mapSize, d.value.mapCapacity)) else None
  }

  function LabelsOf(es: seq<Entry>): set<Labels> { set e | e in es :: e.labels }

  function ShapeOf(s: Snapshot): Shape {
    Shape(s.latency.buckets, |s.rates|, s.memory, Gauged(s.dedup), LabelsOf(s.inits))
  }

  function Highest(a: nat, b: nat): nat { if a > b then a else b }

  function Reshaped(shape: Shape, d: Delta): Shape {
    Shape(AddAll(shape.buckets, SpansBumps(Or(d.latency, NO_LATENCY).spans)),
          Highest(shape.width, Reach(RateBumps(d.rates))),
          if d.memory > 0 then d.memory else shape.memory,
          if d.dedup.Some? then Gauged(d.dedup) else shape.gauges,
          shape.labels + LabelsOf(d.inits))
  }

  lemma {:induction false} LabelsAre(es: seq<Entry>, k: Labels)
    ensures k in LabelsOf(es) <==> Mentions(es, k)
    ensures k in LabelsOf(es) <==> Lookup(es, k).Some?
  {
    LookupNeedsEntry(es, k);
    if Mentions(es, k) {
      var i :| 0 <= i < |es| && es[i].labels == k;
      assert es[i] in es;
    }
  }

  lemma {:induction false} LabelsAdd(l: Entries, es: seq<Entry>, m: nat)
    requires Bounded(l, m) && m > 0 && Below(es, m)
    ensures LabelsOf(AddEntries(l, es, m)) == LabelsOf(l) + LabelsOf(es)
  {
    hide LabelsOf, Sorted, Mentions, AddEntries;
    forall k ensures k in LabelsOf(AddEntries(l, es, m)) <==> k in LabelsOf(l) + LabelsOf(es) {
      assert Base(l, k) < m;
      AddEntriesSums(l, es, m, k);
      LabelsAre(l, k);
      LabelsAre(es, k);
      LabelsAre(AddEntries(l, es, m), k);
    }
  }

  lemma NoSpans(v: Vector)
    ensures AddAll(v, SpansBumps([])) == v
  {
  }

  lemma {:induction false} AccumulateReshapes(s: Snapshot, d: Delta)
    requires Valid(s) && Below(d.inits, U64)
    ensures ShapeOf(Accumulate(s, d)) == Reshaped(ShapeOf(s), d)
  {
    hide AddAll, AddEntries, RateBumps, LabelsOf;
    AddAllSums(s.rates, RateBumps(d.rates));
    LabelsAdd(s.inits, d.inits, U64);
    NoSpans(s.latency.buckets);
  }

  lemma {:induction false} MergeRateReaches(rates: seq<Rate>, r: Rate)
    ensures Reach(RateBumps(MergeRate(rates, r))) == Highest(Reach(RateBumps(rates)), Reach(RateBumps([r])))
  {
    ReachOfCons(r, []);
    if rates != [] {
      var first, rest := rates[0], rates[1..];
      assert rates == [first] + rest && [r] + [] == [r];
      ReachOfCons(first, rest);
      if first.reason == r.reason {
        ReachOfCons(Rate(r.reason, Add(first.count, r.count, U32)), rest);
      } else {
        MergeRateReaches(rest, r);
        ReachOfCons(first, MergeRate(rest, r));
      }
    } else {
      assert [r] + [] == [r];
    }
  }

  lemma {:induction false} ReachOfCons(r: Rate, rest: seq<Rate>)
    ensures Reach(RateBumps([r] + rest))
        == Highest(if 0 <= r.reason < REASON_COUNT then r.reason + 1 else 0, Reach(RateBumps(rest)))
  {
    assert ([r] + rest)[1..] == rest;
    if 0 <= r.reason < REASON_COUNT {
      assert ([Bump(r.reason, r.count)] + RateBumps(rest))[1..] == RateBumps(rest);
    } else {
      assert [] + RateBumps(rest) == RateBumps(rest);
    }
  }

  lemma {:induction false} MergeRatesReach(rates: seq<Rate>, more: seq<Rate>)
    ensures Reach(RateBumps(MergeRates(rates, more))) == Highest(Reach(RateBumps(rates)), Reach(RateBumps(more)))
    decreases |more|
  {
    if more != [] {
      hide RateBumps, Reach, MergeRate;
      MergeRateReaches(rates, more[0]);
      MergeRatesReach(MergeRate(rates, more[0]), more[1..]);
      ReachOfCons(more[0], more[1..]);
      ReachOfCons(more[0], []);
      assert [more[0]] + more[1..] == more && [more[0]] + [] == [more[0]];
    }
  }

  /** Apart from the counters a merged delta does what the two do one after the other, whatever overflows. */
  lemma {:induction false} MergeReshapes(shape: Shape, a: Delta, d: Delta)
    requires Settled(a) && Wired(d)
    ensures Reshaped(shape, Merge(a, d)) == Reshaped(Reshaped(shape, a), d)
  {
    hide AddEntries, LabelsOf, RateBumps, MergeRates, SpansBumps, AddAll;
    MergeRatesReach(a.rates, d.rates);
    LabelsAdd(a.inits, d.inits, U32);
    var x, y := Or(a.latency, NO_LATENCY).spans, Or(d.latency, NO_LATENCY).spans;
    SpansBumpsAppend(x, y);
    AddAllAppend(shape.buckets, SpansBumps(x), SpansBumps(y));
    assert x + [] == x && [] + y == y;
  }

  lemma FieldsEqual(x: Snapshot, y: Snapshot)
    requires Gauged(x.dedup) == Gauged(y.dedup) && forall m :: Reading(x, m) == Reading(y, m)
    ensures x.latency.sum == y.latency.sum && x.latency.count == y.latency.count
    ensures x.dedup == y.dedup && x.flush == y.flush && x.events == y.events
  {
    hide Get, Base;
    assert Reading(x, LatencySum) == Reading(y, LatencySum) && Reading(x, LatencyCount) == Reading(y, LatencyCount);
    assert Reading(x, DedupTotal) == Reading(y, DedupTotal) && Reading(x, DedupDeduped) == Reading(y, DedupDeduped);
    assert Reading(x, DedupOverflow) == Reading(y, DedupOverflow) && Reading(x, DedupSweeps) == Reading(y, DedupSweeps);
    assert Reading(x, FlushSucceeded) == Reading(y, FlushSucceeded);
    assert Reading(x, FlushFailed) == Reading(y, FlushFailed);
    assert Reading(x, Published) == Reading(y, Published) && Reading(x, Rejected) == Reading(y, Rejected);
    assert Reading(x, BatchesSucceeded) == Reading(y, BatchesSucceeded);
    assert Reading(x, BatchesFailed) == Reading(y, BatchesFailed);
  }

  /** The counters and the rest are all of a snapshot. */
  lemma {:induction false} Determined(x: Snapshot, y: Snapshot)
    requires Valid(x) && Valid(y) && ShapeOf(x) == ShapeOf(y) && forall m :: Reading(x, m) == Reading(y, m)
    ensures x == y
  {
    hide LabelsOf, Base;
    FieldsEqual(x, y);
    forall i: nat ensures Get(x.rates, i) == Get(y.rates, i) {
      assert Reading(x, RateOf(i)) == Reading(y, RateOf(i));
    }
    VectorsEqual(x.rates, y.rates);
    forall k ensures Lookup(x.inits, k) == Lookup(y.inits, k) {
      assert Reading(x, InitsOf(k)) == Reading(y, InitsOf(k));
      LooksUp(x.inits, y.inits, k);
    }
    EntriesEqual(x.inits, y.inits);
  }

  lemma {:induction false} LooksUp(l: Entries, l': Entries, k: Labels)
    requires LabelsOf(l) == LabelsOf(l') && Base(l, k) == Base(l', k)
    ensures Lookup(l, k) == Lookup(l', k)
  {
    LabelsAre(l, k);
    LabelsAre(l', k);
  }

  // ----- Batches

  function ReshapedAll(shape: Shape, deltas: seq<Delta>): Shape
    decreases |deltas|
  {
    if deltas == [] then shape else ReshapedAll(Reshaped(shape, deltas[0]), deltas[1..])
  }

  /** What one by one leaves. */
  lemma {:induction false} AllAccumulate(s: Snapshot, deltas: seq<Delta>)
    requires Valid(s) && Typed(s) && AllWired(deltas)
    ensures Valid(AccumulateAll(s, deltas)) && ShapeOf(AccumulateAll(s, deltas)) == ReshapedAll(ShapeOf(s), deltas)
    ensures forall m :: Reading(AccumulateAll(s, deltas), m) == Add(Reading(s, m), Total(deltas, m), U64)
    decreases |deltas|
  {
    hide Accumulate, Reading, Amount, Valid, ShapeOf, Reshaped;
    if deltas != [] {
      var d, rest := deltas[0], deltas[1..];
      assert d in deltas && Wired(d) && forall x :: x in rest ==> x in deltas;
      WiredIsBelow(d);
      AccumulateKeeps(s, d);
      AccumulateReshapes(s, d);
      AllAccumulate(Accumulate(s, d), rest);
      forall m ensures Reading(AccumulateAll(s, deltas), m) == Add(Reading(s, m), Total(deltas, m), U64) {
        ReadingAdds(s, d, m);
        AddAssociates(Reading(s, m), Amount(d, m), Total(rest, m), U64);
      }
    }
  }

  /** What the merged delta holds. */
  lemma {:induction false} AllMerge(shape: Shape, acc: Delta, deltas: seq<Delta>)
    requires Settled(acc) && AllWired(deltas)
    ensures Settled(MergeAll(acc, deltas))
    ensures Reshaped(shape, MergeAll(acc, deltas)) == ReshapedAll(Reshaped(shape, acc), deltas)
    ensures forall m :: Amount(MergeAll(acc, deltas), m) == Add(Amount(acc, m), Total(deltas, m), U32)
    decreases |deltas|
  {
    hide Merge, Amount, Settled, Wired, Reshaped;
    forall m ensures Amount(acc, m) < U32 {
      SettledAmount(acc, m);
    }
    if deltas != [] {
      var d, rest := deltas[0], deltas[1..];
      assert d in deltas && forall x :: x in rest ==> x in deltas;
      MergeKeepsSettled(acc, d);
      MergeReshapes(shape, acc, d);
      AllMerge(shape, Merge(acc, d), rest);
      forall m ensures Amount(MergeAll(acc, deltas), m) == Add(Amount(acc, m), Total(deltas, m), U32) {
        AmountMerges(acc, d, m);
        AddAssociates(Amount(acc, m), Amount(d, m), Total(rest, m), U32);
      }
    }
  }

  lemma WiredIsBelow(d: Delta)
    requires Wired(d)
    ensures Below(d.inits, U64)
  {
  }

  /** A batch's total of every counter fits 32 bits, to within the 64 bits that a snapshot counts in. */
  ghost predicate Fits(acc: Delta, deltas: seq<Delta>) {
    forall m :: (Amount(acc, m) + Total(deltas, m)) % U64 < U32
  }

  /**
   Merging deltas into `acc` and accumulating the result is accumulating `acc` and then each of them, exactly when the
   totals fit.
   */
  lemma {:induction false} MergedOnto(s: Snapshot, acc: Delta, deltas: seq<Delta>)
    requires Valid(s) && Typed(s) && Settled(acc) && AllWired(deltas)
    ensures Accumulate(s, MergeAll(acc, deltas)) == AccumulateAll(Accumulate(s, acc), deltas) <==> Fits(acc, deltas)
  {
    hide Accumulate, Merge, Reading, Amount, Valid, Typed, Wired, ShapeOf, Reshaped, Total;
    var merged := MergeAll(acc, deltas);
    var once, each := Accumulate(s, merged), AccumulateAll(Accumulate(s, acc), deltas);
    AllMerge(ShapeOf(s), acc, deltas);
    WiredIsBelow(acc);
    WiredIsBelow(merged);
    AccumulateKeeps(s, acc);
    AccumulateReshapes(s, acc);
    AllAccumulate(Accumulate(s, acc), deltas);
    AccumulateKeeps(s, merged);
    AccumulateReshapes(s, merged);
    forall m ensures Reading(once, m) == Reading(each, m) <==> (Amount(acc, m) + Total(deltas, m)) % U64 < U32 {
      ReadingAdds(s, acc, m);
      ReadingAdds(s, merged, m);
      AddAssociates(Reading(s, m), Amount(acc, m), Total(deltas, m), U64);
      AddSurvives(Reading(s, m), Amount(acc, m) + Total(deltas, m));
    }
    if Fits(acc, deltas) {
      forall m ensures Reading(once, m) == Reading(each, m) {
        assert (Amount(acc, m) + Total(deltas, m)) % U64 < U32;
      }
      Determined(once, each);
    }
  }

  /** Merging two deltas and accumulating the result is accumulating both, exactly when no sum overflows 32 bits. */
  lemma {:induction false} MergeThenAccumulate(s: Snapshot, a: Delta, d: Delta)
    requires Valid(s) && Typed(s) && Settled(a) && Wired(d)
    ensures Accumulate(s, Merge(a, d)) == Accumulate(Accumulate(s, a), d)
       <==> forall m :: (Amount(a, m) + Amount(d, m)) % U64 < U32
  {
    hide Accumulate, Merge, Amount, Settled, Valid, Typed, Wired;
    assert [d][1..] == [];
    MergedOnto(s, a, [d]);
    assert MergeAll(a, [d]) == MergeAll(Merge(a, d), []) == Merge(a, d);
    assert AccumulateAll(Accumulate(s, a), [d]) == AccumulateAll(Accumulate(Accumulate(s, a), d), []);
    forall m ensures Total([d], m) == Amount(d, m) {
      assert Total([d][1..], m) == 0;
    }
  }

  lemma {:induction false} FitsAlone(deltas: seq<Delta>)
    ensures Fits(EMPTY_DELTA, deltas) <==> forall m :: Total(deltas, m) % U64 < U32
  {
    forall m ensures Amount(EMPTY_DELTA, m) + Total(deltas, m) == Total(deltas, m) {
      AmountOfNone(m);
    }
    if Fits(EMPTY_DELTA, deltas) {
      forall m ensures Total(deltas, m) % U64 < U32 {
        assert (Amount(EMPTY_DELTA, m) + Total(deltas, m)) % U64 < U32;
      }
    } else {
      var m :| !((Amount(EMPTY_DELTA, m) + Total(deltas, m)) % U64 < U32);
      assert !(Total(deltas, m) % U64 < U32);
    }
  }

  lemma AmountOfNone(m: Metric)
    ensures Amount(EMPTY_DELTA, m) == 0
  {
  }

  lemma EmptyDelta(s: Snapshot)
    ensures Settled(EMPTY_DELTA) && Accumulate(s, EMPTY_DELTA) == s
  {
  }

  /**
   Batching does not change metrics: a merged batch accumulates to what its deltas accumulate to one by one, exactly
   when for no counter the batch's total overflows 32 bits.
   */
  lemma {:induction false} BatchingKeepsMetrics(s: Snapshot, deltas: seq<Delta>)
    requires Valid(s) && Typed(s) && AllWired(deltas)
    ensures Accumulate(s, MergeAll(EMPTY_DELTA, deltas)) == AccumulateAll(s, deltas)
       <==> forall m :: Total(deltas, m) % U64 < U32
  {
    hide Accumulate, Merge, Amount, Settled, Valid, Typed, Fits;
    EmptyDelta(s);
    MergedOnto(s, EMPTY_DELTA, deltas);
    FitsAlone(deltas);
  }

  /** A counter of a merged batch arrives whole exactly when the merge does not overflow its 32 bits. */
  lemma {:induction false} SumSurvivesMergeExactly(s: Snapshot, a: Delta, d: Delta)
    requires a.latency.Some? && d.latency.Some? && a.latency.value.sum < U32 && d.latency.value.sum < U32
    ensures Accumulate(s, Merge(a, d)).latency.sum == Accumulate(Accumulate(s, a), d).latency.sum
            <==> a.latency.value.sum + d.latency.value.sum < U32
  {
    hide AddAll, SpansBumps, AddEntries;
    var x, y := a.latency.value.sum, d.latency.value.sum;
    var merged := Add(x, y, U32);
    AddAssociates(s.latency.sum, x, y, U64);
    assert merged == if x + y < U32 then x + y else x + y - U32;
    assert Add(s.latency.sum, merged, U64) == Add(s.latency.sum, x + y, U64) <==> merged == x + y by {
      AddApart(s.latency.sum, merged, x + y);
    }
  }

  /** A 32-bit overflow in a merged batch does lose counts: two deltas of 2^31 reach the receiver as none. */
  lemma {:induction false} OverflowLosesCounts(s: Snapshot)
    requires s.latency.sum == 0
    ensures var d := EMPTY_DELTA.(latency := Some(LatencyDelta(0x8000_0000, 1, [])));
            && AccumulateAll(s, [d, d]).latency.sum == U32
            && Accumulate(s, MergeAll(EMPTY_DELTA, [d, d])).latency.sum == 0
  {
    var d := EMPTY_DELTA.(latency := Some(LatencyDelta(0x8000_0000, 1, [])));
    assert [d, d][1..] == [d] && [d][1..] == [];
    assert AccumulateAll(s, [d, d]) == AccumulateAll(Accumulate(s, d), [d]) == Accumulate(Accumulate(s, d), d);
    assert MergeAll(EMPTY_DELTA, [d, d]) == MergeAll(Merge(EMPTY_DELTA, d), [d]) == Merge(Merge(EMPTY_DELTA, d), d);
    assert Merge(EMPTY_DELTA, d).latency == d.latency;
  }
}
