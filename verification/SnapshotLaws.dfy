/** What merging cumulative snapshots preserves: it is accumulating what they were built from, in any order. */
module SnapshotLaws {
  import opened Wrappers
  import opened Counters
  import opened Telemetry
  import opened MergeTelemetry
  import opened BatchLaws

  // ----- Merging a snapshot is accumulating its deltas

  lemma {:induction false} VectorsOfSums(v: Vector, w: Vector, bumps: seq<Bump>)
    requires Small(v) && Small(w)
    ensures AddVectors(v, AddAll(w, bumps)) == AddAll(AddVectors(v, w), bumps)
    decreases |bumps|
  {
    if bumps != [] {
      hide AddAt, AddVectors, Add;
      AddVectorsOfSums(v, w, bumps[0]);
      SmallAt(w, bumps[0]);
      VectorsOfSums(v, AddAt(w, bumps[0]), bumps[1..]);
    }
  }

  lemma SmallAt(v: Vector, b: Bump)
    requires Small(v)
    ensures Small(AddAt(v, b))
  {
    forall i | 0 <= i < |AddAt(v, b)| ensures AddAt(v, b)[i] < U64 {
      assert AddAt(v, b)[i] == Get(AddAt(v, b), i);
    }
  }

  lemma {:induction false} LatencyOfSums(a: Latency, b: Latency, d: Option<LatencyDelta>)
    requires Small(a.buckets) && Small(b.buckets)
    ensures var sum := AddLatency(b, d);
            var once := AddLatency(Latency(Add(a.sum, b.sum, U64), Add(a.count, b.count, U64),
                AddVectors(a.buckets, b.buckets)), d);
            Latency(Add(a.sum, sum.sum, U64), Add(a.count, sum.count, U64), AddVectors(a.buckets, sum.buckets)) == once
  {
    hide Add, AddAll, AddVectors, SpansBumps;
    if d.Some? {
      AddAssociates(a.sum, b.sum, d.value.sum, U64);
      AddAssociates(a.count, b.count, d.value.count, U64);
      VectorsOfSums(a.buckets, b.buckets, SpansBumps(d.value.spans));
    }
  }

  lemma {:induction false} EntriesOfSums(l: Entries, m: Entries, es: seq<Entry>)
    requires Bounded(l, U64) && Bounded(m, U64) && Below(es, U64)
    ensures AddEntries(l, AddEntries(m, es, U64), U64) == AddEntries(AddEntries(l, m, U64), es, U64)
  {
    hide Sorted, Add, Mentions;
    var left, right := AddEntries(l, AddEntries(m, es, U64), U64), AddEntries(AddEntries(l, m, U64), es, U64);
    EntriesStayBounded(m, es, U64);
    BoundedIsBelow(AddEntries(m, es, U64), U64);
    BoundedIsBelow(m, U64);
    EntriesStayBounded(l, AddEntries(m, es, U64), U64);
    EntriesStayBounded(l, m, U64);
    EntriesStayBounded(AddEntries(l, m, U64), es, U64);
    forall k ensures Lookup(left, k) == Lookup(right, k) {
      EntriesOfSumsAt(l, m, es, k);
    }
    EntriesEqual(left, right);
  }

  lemma {:induction false} EntriesOfSumsAt(l: Entries, m: Entries, es: seq<Entry>, k: Labels)
    requires Bounded(l, U64) && Bounded(m, U64) && Below(es, U64)
    requires Bounded(AddEntries(m, es, U64), U64) && Bounded(AddEntries(l, m, U64), U64)
    ensures Lookup(AddEntries(l, AddEntries(m, es, U64), U64), k)
        == Lookup(AddEntries(AddEntries(l, m, U64), es, U64), k)
  {
    hide Sorted, Add, Mentions;
    var sum, once := AddEntries(m, es, U64), AddEntries(l, m, U64);
    BoundedIsBelow(sum, U64);
    BoundedIsBelow(m, U64);
    assert Base(l, k) < U64 && Base(m, k) < U64 && Base(once, k) < U64;
    AddEntriesSums(m, es, U64, k);
    AddEntriesSums(l, sum, U64, k);
    AddEntriesSums(l, m, U64, k);
    AddEntriesSums(once, es, U64, k);
    SortedSum(m, k);
    SortedSum(sum, k);
    AddAssociates(Base(l, k), Base(m, k), SumFor(es, k), U64);
    AddZero(Base(l, k), U64);
    if !Mentions(es, k) {
      NoMention(es, k);
      AddZero(Base(m, k), U64);
      AddZero(Base(once, k), U64);
    }
  }

  lemma {:induction false} CountersOfSums(s: Snapshot, y: Snapshot, d: Delta)
    ensures var once, twice := MergeSnapshots(s, Accumulate(y, d), Live), Accumulate(MergeSnapshots(s, y, Live), d);
            && once.dedup == twice.dedup && once.flush == twice.flush && once.events == twice.events
                && once.memory == twice.memory
  {
    hide AddAll, AddEntries, AddVectors, AddLatency, Sort, PushAll, Add;
    if d.dedup.Some? {
      var a, b, x := (if s.dedup.Some? then s.dedup.value else NO_DEDUP),
          (if y.dedup.Some? then y.dedup.value else NO_DEDUP), d.dedup.value;
      AddAssociates(a.total, b.total, x.total, U64);
      AddAssociates(a.deduped, b.deduped, x.deduped, U64);
      AddAssociates(a.overflow, b.overflow, x.overflow, U64);
      AddAssociates(a.sweeps, b.sweeps, x.sweeps, U64);
      AddFromZero(a, x);
    }
    if d.flush.Some? {
      AddAssociates(s.flush.succeeded, y.flush.succeeded, d.flush.value.succeeded, U64);
      AddAssociates(s.flush.failed, y.flush.failed, d.flush.value.failed, U64);
    }
    if d.events.Some? {
      AddAssociates(s.events.published, y.events.published, d.events.value.published, U64);
      AddAssociates(s.events.batchesSucceeded, y.events.batchesSucceeded, d.events.value.batchesSucceeded, U64);
      AddAssociates(s.events.batchesFailed, y.events.batchesFailed, d.events.value.batchesFailed, U64);
      AddAssociates(s.events.rejected, y.events.rejected, d.events.value.rejected, U64);
    }
  }

  /** Adding to nothing first makes no difference. */
  lemma AddFromZero(a: Dedup, x: Dedup)
    ensures var from := AddDedup(NO_DEDUP, x, U64);
            && Add(a.total, from.total, U64) == Add(a.total, x.total, U64)
                && Add(a.deduped, from.deduped, U64) == Add(a.deduped, x.deduped, U64)
            && Add(a.overflow, from.overflow, U64) == Add(a.overflow, x.overflow, U64)
                && Add(a.sweeps, from.sweeps, U64) == Add(a.sweeps, x.sweeps, U64)
  {
    AddReduced(a.total, x.total, U64);
    AddReduced(a.deduped, x.deduped, U64);
    AddReduced(a.overflow, x.overflow, U64);
    AddReduced(a.sweeps, x.sweeps, U64);
  }

  /** One more delta in the snapshot that is merged is one more delta accumulated after the merge. */
  lemma {:induction false} MergeOfAccumulated(s: Snapshot, y: Snapshot, d: Delta)
    requires Valid(s) && Valid(y) && Below(d.inits, U64)
    ensures MergeSnapshots(s, Accumulate(y, d), Live) == Accumulate(MergeSnapshots(s, y, Live), d)
  {
    hide AddAll, AddVectors, AddEntries, AddLatency, Sort, PushAll, Small, Bounded, Below, AddFlush, AddEvents,
        MergeDedup, AccumulateDedup, RateBumps;
    LatencyOfSums(s.latency, y.latency, d.latency);
    VectorsOfSums(s.rates, y.rates, RateBumps(d.rates));
    CountersOfSums(s, y, d);
    EntriesStayBounded(y.inits, d.inits, U64);
    BoundedIsBelow(AddEntries(y.inits, d.inits, U64), U64);
    BoundedIsBelow(y.inits, U64);
    PushAndSort(s.inits, AddEntries(y.inits, d.inits, U64));
    PushAndSort(s.inits, y.inits);
    EntriesOfSums(s.inits, y.inits, d.inits);
  }

  lemma {:induction false} MergeOfEmpty(s: Snapshot)
    requires Valid(s) && Typed(s)
    ensures MergeSnapshots(s, EMPTY, Live) == s && Valid(EMPTY)
  {
    AddNothing(s.latency.buckets);
    AddNothing(s.rates);
    PushAndSort(s.inits, []);
    TypedFields(s);
    hide AddVectors, Sort, PushAll, Typed, Reading;
  }

  lemma TypedFields(s: Snapshot)
    requires Typed(s)
    ensures s.latency.sum < U64 && s.latency.count < U64 && s.flush.succeeded < U64 && s.flush.failed < U64
    ensures s.events.published < U64 && s.events.batchesSucceeded < U64
    ensures s.events.batchesFailed < U64 && s.events.rejected < U64
  {
    assert Reading(s, LatencySum) < U64 && Reading(s, LatencyCount) < U64;
    assert Reading(s, FlushSucceeded) < U64 && Reading(s, FlushFailed) < U64;
    assert Reading(s, Published) < U64 && Reading(s, Rejected) < U64;
    assert Reading(s, BatchesSucceeded) < U64 && Reading(s, BatchesFailed) < U64;
  }

  lemma AddNothing(v: Vector)
    ensures AddVectors(v, []) == v
  {
  }

  ghost predicate AllBelow(deltas: seq<Delta>) { forall d :: d in deltas ==> Below(d.inits, U64) }

  lemma {:induction false} MergeOfBuilt(s: Snapshot, y: Snapshot, deltas: seq<Delta>)
    requires Valid(s) && Valid(y) && AllBelow(deltas)
    ensures MergeSnapshots(s, AccumulateAll(y, deltas), Live) == AccumulateAll(MergeSnapshots(s, y, Live), deltas)
    decreases |deltas|
  {
    if deltas != [] {
      hide Accumulate, MergeSnapshots, Valid, Below;
      assert deltas[0] in deltas && forall d :: d in deltas[1..] ==> d in deltas;
      MergeOfAccumulated(s, y, deltas[0]);
      AccumulateKeepsValid(y, deltas[0]);
      MergeOfBuilt(s, Accumulate(y, deltas[0]), deltas[1..]);
    }
  }

  /** A batch built into a snapshot of its own and merged leaves the metrics its deltas would have left one by one. */
  lemma {:induction false} BuiltBatchKeepsMetrics(s: Snapshot, deltas: seq<Delta>)
    requires Valid(s) && Typed(s) && AllBelow(deltas)
    ensures MergeSnapshots(s, AccumulateAll(EMPTY, deltas), Live) == AccumulateAll(s, deltas)
  {
    MergeOfEmpty(s);
    MergeOfBuilt(s, EMPTY, deltas);
  }

  // ----- The frozen source may come anywhere

  lemma AddCommutes(a: nat, b: nat, c: nat)
    ensures Add(Add(a, b, U64), c, U64) == Add(Add(a, c, U64), b, U64)
  {
    AddReduced(a + b, c, U64);
    AddReduced(a + c, b, U64);
  }

  lemma {:induction false} VectorsCommute(v: Vector, w: Vector, u: Vector)
    ensures AddVectors(AddVectors(v, w), u) == AddVectors(AddVectors(v, u), w)
  {
    hide Add, AddVectors;
    var left, right := AddVectors(AddVectors(v, w), u), AddVectors(AddVectors(v, u), w);
    forall i: nat ensures Get(left, i) == Get(right, i) {
      AddCommutes(Get(v, i), Get(w, i), Get(u, i));
    }
    VectorsEqual(left, right);
  }

  lemma {:induction false} EntriesCommute(l: Entries, a: seq<Entry>, b: seq<Entry>)
    requires Bounded(l, U64) && Below(a, U64) && Below(b, U64)
    ensures AddEntries(AddEntries(l, a, U64), b, U64) == AddEntries(AddEntries(l, b, U64), a, U64)
  {
    hide Sorted, Add, Mentions;
    var left, right := AddEntries(AddEntries(l, a, U64), b, U64), AddEntries(AddEntries(l, b, U64), a, U64);
    EntriesStayBounded(l, a, U64);
    EntriesStayBounded(l, b, U64);
    EntriesStayBounded(AddEntries(l, a, U64), b, U64);
    EntriesStayBounded(AddEntries(l, b, U64), a, U64);
    forall k ensures Lookup(left, k) == Lookup(right, k) {
      EntriesCommuteAt(l, a, b, k);
    }
    EntriesEqual(left, right);
  }

  lemma {:induction false} EntriesCommuteAt(l: Entries, a: seq<Entry>, b: seq<Entry>, k: Labels)
    requires Bounded(l, U64) && Below(a, U64) && Below(b, U64)
    requires Bounded(AddEntries(l, a, U64), U64) && Bounded(AddEntries(l, b, U64), U64)
    ensures Lookup(AddEntries(AddEntries(l, a, U64), b, U64), k) == Lookup(AddEntries(AddEntries(l, b, U64), a, U64), k)
  {
    hide Sorted, Add, Mentions;
    var x, y := AddEntries(l, a, U64), AddEntries(l, b, U64);
    assert Base(l, k) < U64 && Base(x, k) < U64 && Base(y, k) < U64;
    AddEntriesSums(l, a, U64, k);
    AddEntriesSums(l, b, U64, k);
    AddEntriesSums(x, b, U64, k);
    AddEntriesSums(y, a, U64, k);
    AddCommutes(Base(l, k), SumFor(a, k), SumFor(b, k));
    if !Mentions(a, k) {
      NoMention(a, k);
      AddZero(Base(l, k), U64);
      AddZero(Base(y, k), U64);
    }
    if !Mentions(b, k) {
      NoMention(b, k);
      AddZero(Base(l, k), U64);
      AddZero(Base(x, k), U64);
    }
  }

  lemma {:induction false} DedupCommutes(acc: Option<Dedup>, f: Option<Dedup>, a: Option<Dedup>)
    ensures MergeDedup(MergeDedup(acc, f, Frozen), a, Live) == MergeDedup(MergeDedup(acc, a, Live), f, Frozen)
  {
    hide Add;
    if f.Some? && a.Some? {
      var x, y := f.value, a.value;
      if acc.Some? {
        var z := acc.value;
        AddCommutes(z.total, x.total, y.total);
        AddCommutes(z.deduped, x.deduped, y.deduped);
        AddCommutes(z.overflow, x.overflow, y.overflow);
        AddCommutes(z.sweeps, x.sweeps, y.sweeps);
      } else {
        AddIsSymmetric(x.total, y.total);
        AddIsSymmetric(x.deduped, y.deduped);
        AddIsSymmetric(x.overflow, y.overflow);
        AddIsSymmetric(x.sweeps, y.sweeps);
      }
    }
  }

  /** Gauges come from the live source; a frozen one leaves them as they are, and has none of its own. */
  lemma {:induction false} GaugesAreLive(acc: Snapshot, other: Snapshot)
    ensures var live, frozen := MergeSnapshots(acc, other, Live), MergeSnapshots(acc, other, Frozen);
            && live.memory == (if other.memory > 0 then other.memory else acc.memory) && frozen.memory == acc.memory
            && (live.dedup.Some? <==> acc.dedup.Some? || other.dedup.Some?)
            && (frozen.dedup.Some? <==> acc.dedup.Some? || other.dedup.Some?)
            && (other.dedup.Some? ==>
                 && live.dedup.value.mapSize == other.dedup.value.mapSize
                 && live.dedup.value.mapCapacity == other.dedup.value.mapCapacity)
            && (other.dedup.None? ==> live.dedup == frozen.dedup == acc.dedup)
            && (frozen.dedup.Some? ==>
                 && frozen.dedup.value.mapSize == (if acc.dedup.Some? then acc.dedup.value.mapSize else 0)
                 && frozen.dedup.value.mapCapacity == (if acc.dedup.Some? then acc.dedup.value.mapCapacity else 0))
  {
    hide Add, AddVectors, Sort, PushAll;
  }

  lemma AddIsSymmetric(a: nat, b: nat)
    ensures Add(a, b, U64) == Add(b, a, U64)
  {
  }

  /** A frozen source changes places with the live one after it. */
  lemma {:induction false} FrozenSwaps(acc: Snapshot, f: Snapshot, a: Snapshot)
    requires Valid(acc) && Valid(f) && Valid(a)
    ensures MergeSnapshots(MergeSnapshots(acc, f, Frozen), a, Live)
        == MergeSnapshots(MergeSnapshots(acc, a, Live), f, Frozen)
  {
    hide Add, AddVectors, AddEntries, Sort, PushAll, Small, Bounded, Below, MergeDedup;
    AddCommutes(acc.latency.sum, f.latency.sum, a.latency.sum);
    AddCommutes(acc.latency.count, f.latency.count, a.latency.count);
    VectorsCommute(acc.latency.buckets, f.latency.buckets, a.latency.buckets);
    VectorsCommute(acc.rates, f.rates, a.rates);
    DedupCommutes(acc.dedup, f.dedup, a.dedup);
    AddCommutes(acc.flush.succeeded, f.flush.succeeded, a.flush.succeeded);
    AddCommutes(acc.flush.failed, f.flush.failed, a.flush.failed);
    AddCommutes(acc.events.published, f.events.published, a.events.published);
    AddCommutes(acc.events.batchesSucceeded, f.events.batchesSucceeded, a.events.batchesSucceeded);
    AddCommutes(acc.events.batchesFailed, f.events.batchesFailed, a.events.batchesFailed);
    AddCommutes(acc.events.rejected, f.events.rejected, a.events.rejected);
    InitsSwap(acc.inits, f.inits, a.inits);
  }

  lemma {:induction false} InitsSwap(l: Entries, a: Entries, b: Entries)
    requires Bounded(l, U64) && Bounded(a, U64) && Bounded(b, U64)
    ensures Sort(PushAll(Sort(PushAll(l, a)), b)) == Sort(PushAll(Sort(PushAll(l, b)), a))
  {
    hide Bounded, Below, Sort, PushAll, AddEntries;
    BoundedIsBelow(a, U64);
    BoundedIsBelow(b, U64);
    PushAndSort(l, a);
    PushAndSort(l, b);
    EntriesStayBounded(l, a, U64);
    EntriesStayBounded(l, b, U64);
    PushAndSort(AddEntries(l, a, U64), b);
    PushAndSort(AddEntries(l, b, U64), a);
    EntriesCommute(l, a, b);
  }

  lemma {:induction false} MergeKeepsValid(acc: Snapshot, other: Snapshot, gauges: Gauges)
    requires Valid(acc) && Valid(other)
    ensures Valid(MergeSnapshots(acc, other, gauges))
  {
    var merged := MergeSnapshots(acc, other, gauges);
    SmallSum(acc.latency.buckets, other.latency.buckets);
    SmallSum(acc.rates, other.rates);
    BoundedIsBelow(other.inits, U64);
    PushAndSort(acc.inits, other.inits);
    EntriesStayBounded(acc.inits, other.inits, U64);
  }

  lemma SmallSum(v: Vector, w: Vector)
    requires Small(v)
    ensures Small(AddVectors(v, w))
  {
    hide AddVectors;
    var sum := AddVectors(v, w);
    forall i | 0 <= i < |sum| ensures sum[i] < U64 {
      assert sum[i] == Get(sum, i);
      AddIsBelow(Get(v, i), Get(w, i), U64);
    }
  }

  /** Merging live sources in order, with the frozen one in front of source number `at`. */
  function MergedWith(acc: Snapshot, lives: seq<Snapshot>, f: Snapshot, at: nat): Snapshot
    decreases |lives|
  {
    if lives == [] then (if at == 0 then MergeSnapshots(acc, f, Frozen) else acc)
    else if at == 0 then MergedLive(MergeSnapshots(acc, f, Frozen), lives)
    else MergedWith(MergeSnapshots(acc, lives[0], Live), lives[1..], f, at - 1)
  }

  function MergedLive(acc: Snapshot, lives: seq<Snapshot>): Snapshot
    decreases |lives|
  {
    if lives == [] then acc else MergedLive(MergeSnapshots(acc, lives[0], Live), lives[1..])
  }

  /** Wherever the frozen source comes in the order, the result is the same. */
  lemma {:induction false} FrozenAnywhere(acc: Snapshot, lives: seq<Snapshot>, f: Snapshot, at: nat)
    requires Valid(acc) && Valid(f) && (forall s :: s in lives ==> Valid(s)) && at <= |lives|
    ensures MergedWith(acc, lives, f, at) == MergedWith(acc, lives, f, 0)
    decreases |lives|
  {
    hide MergeSnapshots, Valid;
    if at > 0 {
      var first, rest := lives[0], lives[1..];
      assert first in lives && forall s :: s in rest ==> s in lives;
      MergeKeepsValid(acc, first, Live);
      FrozenAnywhere(MergeSnapshots(acc, first, Live), rest, f, at - 1);
      FrozenSwaps(acc, f, first);
      var swapped := MergeSnapshots(MergeSnapshots(acc, f, Frozen), first, Live);
      assert MergedWith(acc, lives, f, 0) == MergedLive(MergeSnapshots(acc, f, Frozen), lives)
          == MergedLive(swapped, rest);
      assert MergedWith(MergeSnapshots(acc, first, Live), rest, f, 0) == MergedLive(swapped, rest);
    }
  }
}
