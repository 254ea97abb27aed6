/**
 Merging telemetry before it is accumulated: deltas of a batch into one delta, and cumulative snapshots of several
 pipelines into one. Neither changes what the counters end up at.
 */
module MergeTelemetry {
  import opened Wrappers
  import opened Counters
  import opened Telemetry

  // ----- Deltas into one delta

  function MergeLatency(a: Option<LatencyDelta>, d: Option<LatencyDelta>): Option<LatencyDelta> {
    if a.Some? && d.Some? then
      Some(LatencyDelta(Add(a.value.sum, d.value.sum, U32), Add(a.value.count, d.value.count, U32), a.value.spans
          + d.value.spans))
    else if d.Some? then d else a
  }

  function MergeRate(rates: seq<Rate>, r: Rate): seq<Rate> {
    if rates == [] then [r]
    else if rates[0].reason == r.reason then [Rate(r.reason, Add(rates[0].count, r.count, U32))] + rates[1..]
    else [rates[0]] + MergeRate(rates[1..], r)
  }

  function MergeRates(rates: seq<Rate>, more: seq<Rate>): seq<Rate>
    decreases |more|
  {
    if more == [] then rates else MergeRates(MergeRate(rates, more[0]), more[1..])
  }

  function Merge(acc: Delta, d: Delta): Delta {
    Delta(
      MergeLatency(acc.latency, d.latency),
      MergeRates(acc.rates, d.rates),
      if d.memory > 0 then d.memory else acc.memory,
      if acc.dedup.Some? && d.dedup.Some? then Some(AddDedup(acc.dedup.value, d.dedup.value, U32))
          else if d.dedup.Some? then d.dedup else acc.dedup,
      if acc.flush.Some? && d.flush.Some? then Some(AddFlush(acc.flush.value, d.flush.value, U32))
          else if d.flush.Some? then d.flush else acc.flush,
      if acc.events.Some? && d.events.Some? then Some(AddEvents(acc.events.value, d.events.value, U32))
          else if d.events.Some? then d.events else acc.events,
      AddEntries(acc.inits, d.inits, U32))
  }

  function MergeAll(acc: Delta, deltas: seq<Delta>): Delta
    decreases |deltas|
  {
    if deltas == [] then acc else MergeAll(Merge(acc, deltas[0]), deltas[1..])
  }

  // ----- Sorted lists of bounded counts

  /** In a sorted list a label set is mentioned once, with its whole sum. */
  lemma {:induction false} SortedSum(l: Entries, k: Labels)
    requires Sorted(l)
    ensures SumFor(l, k) == Base(l, k) && (Mentions(l, k) <==> Lookup(l, k).Some?)
  {
    LookupNeedsEntry(l, k);
    if l != [] {
      AbsentFromRest(l);
      SortedSum(l[1..], k);
    }
  }

  ghost predicate Bounded(l: Entries, m: nat) { Sorted(l) && forall k :: Base(l, k) < m }

  lemma {:induction false} BoundedIsBelow(l: Entries, m: nat)
    requires Bounded(l, m)
    ensures Below(l, m)
  {
    forall e | e in l ensures e.count < m {
      var i :| 0 <= i < |l| && l[i] == e;
      EntryIsBase(l, i);
      assert Base(l, e.labels) < m;
    }
  }

  lemma {:induction false} EntryIsBase(l: Entries, i: nat)
    requires Sorted(l) && i < |l|
    ensures Base(l, l[i].labels) == l[i].count
  {
    if i > 0 {
      AbsentFromRest(l);
      BeforeIsTotal(l[0].labels, l[i].labels);
      EntryIsBase(l[1..], i - 1);
    }
  }

  lemma {:induction false} EntriesStayBounded(l: Entries, es: seq<Entry>, m: nat)
    requires m > 0 && Bounded(l, m) && Below(es, m)
    ensures Bounded(AddEntries(l, es, m), m)
  {
    hide Sorted;
    assert Base(l, []) < m;
    AddEntriesSums(l, es, m, []);
    forall k ensures Base(AddEntries(l, es, m), k) < m {
      assert Base(l, k) < m;
      AddEntriesSums(l, es, m, k);
      AddIsBelow(Base(l, k), SumFor(es, k), m);
    }
  }

  lemma {:induction false} NoMention(es: seq<Entry>, k: Labels)
    requires !Mentions(es, k)
    ensures SumFor(es, k) == 0
  {
    if es != [] {
      MentionsSplit(es, k);
      NoMention(es[1..], k);
    }
  }

  ghost predicate Valid(s: Snapshot) { Small(s.latency.buckets) && Small(s.rates) && Bounded(s.inits, U64) }

  lemma {:induction false} AccumulateKeepsValid(s: Snapshot, d: Delta)
    requires Valid(s) && Below(d.inits, U64)
    ensures Valid(Accumulate(s, d))
  {
    hide AddAll, SpansBumps, RateBumps, AddEntries;
    if d.latency.Some? {
      AddAllSums(s.latency.buckets, SpansBumps(d.latency.value.spans));
    }
    AddAllSums(s.rates, RateBumps(d.rates));
    EntriesStayBounded(s.inits, d.inits, U64);
  }

  // ----- Snapshots into one snapshot

  datatype Gauges = Live | Frozen

  /** Adds to the entry of a label set, or puts a new one at the end. */
  function Push(l: Entries, e: Entry): Entries { if Lookup(l, e.labels).Some? then Increase(l, e, U64) else l + [e] }

  function PushAll(l: Entries, es: seq<Entry>): Entries
    decreases |es|
  {
    if es == [] then l else PushAll(Push(l, es[0]), es[1..])
  }

  function Sort(l: Entries): Entries { if l == [] then [] else Insert(Sort(l[1..]), l[0]) }

  function MergeDedup(a: Option<Dedup>, b: Option<Dedup>, gauges: Gauges): Option<Dedup> {
    if b.None? then a
    else if a.None? then Some(if gauges.Frozen? then b.value.(mapSize := 0, mapCapacity := 0) else b.value)
    else
      var sum := AddDedup(a.value, b.value, U64);
      Some(if gauges.Live? then sum else sum.(mapSize := a.value.mapSize, mapCapacity := a.value.mapCapacity))
  }

  function MergeSnapshots(acc: Snapshot, other: Snapshot, gauges: Gauges): Snapshot {
    Snapshot(
      Latency(Add(acc.latency.sum, other.latency.sum, U64), Add(acc.latency.count, other.latency.count, U64),
              AddVectors(acc.latency.buckets, other.latency.buckets)),
      AddVectors(acc.rates, other.rates),
      if gauges.Live? && other.memory > 0 then other.memory else acc.memory,
      MergeDedup(acc.dedup, other.dedup, gauges),
      AddFlush(acc.flush, other.flush, U64),
      AddEvents(acc.events, other.events, U64),
      Sort(PushAll(acc.inits, other.inits)))
  }

  method MergeSnapshotInto(acc: Snapshot, other: Snapshot, gauges: Gauges) returns (merged: Snapshot)
    ensures merged == MergeSnapshots(acc, other, gauges)
  {
    hide Sort, Add;
    var buckets := AddSlots(acc.latency.buckets, other.latency.buckets);
    var rates := AddSlots(acc.rates, other.rates);
    merged := acc.(latency := Latency(Add(acc.latency.sum, other.latency.sum, U64),
        Add(acc.latency.count, other.latency.count, U64), buckets),
                   rates := rates);
    if gauges.Live? && other.memory > 0 {
      merged := merged.(memory := other.memory);
    }
    merged := merged.(flush := AddFlush(acc.flush, other.flush, U64),
        events := AddEvents(acc.events, other.events, U64),
                      dedup := MergeDedup(acc.dedup, other.dedup, gauges));
    var inits, i := acc.inits, 0;
    assert other.inits[0..] == other.inits;
    while i < |other.inits|
      invariant i <= |other.inits| && PushAll(inits, other.inits[i..]) == PushAll(acc.inits, other.inits)
    {
      assert other.inits[i..][1..] == other.inits[i + 1..];
      inits := Push(inits, other.inits[i]);
      i := i + 1;
    }
    merged := merged.(inits := Sort(inits));
  }

  ghost predicate Unique(l: Entries) { forall i, j :: 0 <= i < j < |l| ==> l[i].labels != l[j].labels }

  lemma {:induction false} PushLooksUp(l: Entries, e: Entry, k: Labels)
    requires Unique(l) && e.count < U64
    ensures Unique(Push(l, e))
    ensures Lookup(Push(l, e), k) == if k == e.labels then Some(Add(Base(l, k), e.count, U64)) else Lookup(l, k)
  {
    IncreaseLooksUp(l, e, U64, k);
    AppendLooksUp(l, e, k);
    LookupNeedsEntry(l, e.labels);
  }

  lemma {:induction false} AppendLooksUp(l: Entries, e: Entry, k: Labels)
    ensures Lookup(l + [e], k) == if Lookup(l, k).Some? then Lookup(l, k) else if k == e.labels then Some(e.count)
        else None
  {
    if l == [] {
      assert l + [e] == [e] && [e][1..] == [];
    } else {
      assert (l + [e])[1..] == l[1..] + [e];
      AppendLooksUp(l[1..], e, k);
    }
  }

  lemma {:induction false} PushAllLooksUp(l: Entries, es: seq<Entry>, k: Labels)
    requires Unique(l) && Below(es, U64) && Base(l, k) < U64
    ensures Unique(PushAll(l, es))
    ensures Lookup(PushAll(l, es), k) ==
            if Lookup(l, k).None? && !Mentions(es, k) then None else Some(Add(Base(l, k), SumFor(es, k), U64))
    decreases |es|
  {
    hide Add, Unique, Push, Mentions;
    MentionsNone(k);
    AddZero(Base(l, k), U64);
    if es != [] {
      var next := Push(l, es[0]);
      assert es[0] in es && forall e :: e in es[1..] ==> e in es;
      PushLooksUp(l, es[0], k);
      AddIsBelow(Base(l, k), es[0].count, U64);
      PushAllLooksUp(next, es[1..], k);
      MentionsSplit(es, k);
      AddAssociates(Base(l, k), es[0].count, SumFor(es[1..], k), U64);
    }
  }

  lemma {:induction false} SortLooksUp(l: Entries, k: Labels)
    requires Unique(l)
    ensures Sorted(Sort(l)) && Lookup(Sort(l), k) == Lookup(l, k)
  {
    if l != [] {
      var rest := l[1..];
      SortLooksUp(rest, k);
      SortLooksUp(rest, l[0].labels);
      LookupNeedsEntry(rest, l[0].labels);
      InsertKeepsSorted(Sort(rest), l[0]);
      InsertLooksUp(Sort(rest), l[0], k);
    }
  }

  lemma {:induction false} SortedIsUnique(l: Entries)
    requires Sorted(l)
    ensures Unique(l)
  {
    forall i, j | 0 <= i < j < |l| ensures l[i].labels != l[j].labels {
      BeforeIsTotal(l[i].labels, l[j].labels);
    }
  }

  /** Pushing and sorting gives the same list as keeping it sorted throughout. */
  lemma {:induction false} PushAndSort(l: Entries, es: seq<Entry>)
    requires Bounded(l, U64) && Below(es, U64)
    ensures Sort(PushAll(l, es)) == AddEntries(l, es, U64)
  {
    hide Sorted, Unique, Add, Mentions;
    SortedIsUnique(l);
    EntriesStayBounded(l, es, U64);
    assert Base(l, []) < U64;
    PushAllLooksUp(l, es, []);
    SortLooksUp(PushAll(l, es), []);
    forall k ensures Lookup(Sort(PushAll(l, es)), k) == Lookup(AddEntries(l, es, U64), k) {
      assert Base(l, k) < U64;
      PushAllLooksUp(l, es, k);
      SortLooksUp(PushAll(l, es), k);
      AddEntriesSums(l, es, U64, k);
    }
    EntriesEqual(Sort(PushAll(l, es)), AddEntries(l, es, U64));
  }
}
