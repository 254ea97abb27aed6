/** Deltas telescope: what the receiver accumulates is what the sender counted. */
module TelemetryLaws {
  import opened Wrappers
  import opened Counters
  import opened Telemetry

  // ----- The sender

  /** One latency observation, with the bucket it falls into. */
  datatype Observation = Observation(value: nat, bucket: nat)

  /** What happens between two flushes: observations, resolves by reason, and the memory reading at the end. */
  datatype Interval = Interval(observed: seq<Observation>, reasons: seq<nat>, memory: nat)

  function Observe(l: Latency, o: Observation): Latency {
    Latency(Add(l.sum, o.value, U64), Add(l.count, 1, U64), AddAt(l.buckets, Bump(o.bucket, 1)))
  }

  function ObserveAll(l: Latency, os: seq<Observation>): Latency
    decreases |os|
  {
    if os == [] then l else ObserveAll(Observe(l, os[0]), os[1..])
  }

  function ReasonBumps(reasons: seq<nat>): seq<Bump> {
    if reasons == [] then [] else [Bump(reasons[0], 1)] + ReasonBumps(reasons[1..])
  }

  function Advance(s: Snapshot, iv: Interval): Snapshot {
    s.(latency := ObserveAll(s.latency, iv.observed), rates := AddAll(s.rates, ReasonBumps(iv.reasons)),
        memory := iv.memory)
  }

  function WrappingSub(a: nat, b: nat): nat
    requires a < U64 && b < U64
  {
    (a - b) % U64
  }

  function AsU32(n: nat): nat { n % U32 }

  /** The collector's own counters: all buckets and reasons are there from the start. */
  ghost predicate Collector(s: Snapshot) {
    && s.latency.sum < U64 && s.latency.count < U64
    && |s.latency.buckets| == BUCKET_COUNT && Small(s.latency.buckets)
    && |s.rates| == REASON_COUNT && Small(s.rates)
  }

  function VectorDelta(cur: Vector, prev: Vector): seq<nat>
    requires Small(cur) && Small(prev)
  {
    seq(|cur|, i requires 0 <= i < |cur| => assert Get(prev, i) < U64; AsU32(WrappingSub(cur[i], Get(prev, i))))
  }

  /** Counts as rates by reason, from reason `i` on; zero counts are left out. */
  function RatesFrom(counts: seq<nat>, i: nat): seq<Rate>
    requires i <= |counts|
    decreases |counts| - i
  {
    if i == |counts| then [] else (if counts[i] > 0 then [Rate(i, counts[i])] else []) + RatesFrom(counts, i + 1)
  }

  ghost function DeltaSnapshot(cur: Snapshot, prev: Snapshot): Delta
    requires Collector(cur) && Collector(prev)
  {
    var count := AsU32(WrappingSub(cur.latency.count, prev.latency.count));
    EMPTY_DELTA.(
      latency := if count == 0 then None
                 else Some(LatencyDelta(AsU32(WrappingSub(cur.latency.sum, prev.latency.sum)), count,
                                        SpansFrom(VectorDelta(cur.latency.buckets, prev.latency.buckets), 0, None))),
      rates := RatesFrom(VectorDelta(cur.rates, prev.rates), 0),
      memory := cur.memory)
  }

  // ----- One flush

  function ValueSum(os: seq<Observation>): nat { if os == [] then 0 else os[0].value + ValueSum(os[1..]) }

  function BucketBumps(os: seq<Observation>): seq<Bump> {
    if os == [] then [] else [Bump(os[0].bucket, 1)] + BucketBumps(os[1..])
  }

  lemma {:induction false} ObserveAllSums(l: Latency, os: seq<Observation>)
    requires l.sum < U64 && l.count < U64
    ensures ObserveAll(l, os)
        == Latency(Add(l.sum, ValueSum(os), U64), Add(l.count, |os|, U64), AddAll(l.buckets, BucketBumps(os)))
    decreases |os|
  {
    hide Add;
    AddZero(l.sum, U64);
    AddZero(l.count, U64);
    if os != [] {
      var next := Observe(l, os[0]);
      AddIsBelow(l.sum, os[0].value, U64);
      AddIsBelow(l.count, 1, U64);
      ObserveAllSums(next, os[1..]);
      AddAssociates(l.sum, os[0].value, ValueSum(os[1..]), U64);
      AddAssociates(l.count, 1, |os[1..]|, U64);
    }
  }

  lemma {:induction false} BucketBumpsAre(os: seq<Observation>, i: nat)
    requires forall o :: o in os ==> o.bucket < BUCKET_COUNT
    ensures SumAt(BucketBumps(os), i) <= |os| && Reach(BucketBumps(os)) <= BUCKET_COUNT
  {
    if os != [] {
      assert os[0] in os && forall o :: o in os[1..] ==> o in os;
      BucketBumpsAre(os[1..], i);
    }
  }

  lemma {:induction false} ReasonBumpsAre(reasons: seq<nat>, i: nat)
    requires forall r :: r in reasons ==> r < REASON_COUNT
    ensures SumAt(ReasonBumps(reasons), i) <= |reasons| && Reach(ReasonBumps(reasons)) <= REASON_COUNT
  {
    if reasons != [] {
      assert reasons[0] in reasons && forall r :: r in reasons[1..] ==> r in reasons;
      ReasonBumpsAre(reasons[1..], i);
    }
  }

  ghost predicate WellFormed(iv: Interval) {
    (forall o :: o in iv.observed ==> o.bucket < BUCKET_COUNT) && (forall r :: r in iv.reasons ==> r < REASON_COUNT)
  }

  /** Every counter grows by less than 2^32 from flush to flush. */
  ghost predicate Light(iv: Interval) {
    |iv.observed| < U32 && ValueSum(iv.observed) < U32 && |iv.reasons| < U32
  }

  lemma {:induction false} AdvanceIsCollector(s: Snapshot, iv: Interval)
    requires Collector(s) && WellFormed(iv)
    ensures Collector(Advance(s, iv))
  {
    ObserveAllSums(s.latency, iv.observed);
    AddAllSums(s.latency.buckets, BucketBumps(iv.observed));
    AddAllSums(s.rates, ReasonBumps(iv.reasons));
    BucketBumpsAre(iv.observed, 0);
    ReasonBumpsAre(iv.reasons, 0);
  }

  lemma SubUndoesAdd(a: nat, n: nat)
    requires a < U64 && n < U32
    ensures WrappingSub(Add(a, n, U64), a) == n == AsU32(n)
  {
  }

  lemma {:induction false} VectorDeltaIs(v: Vector, bumps: seq<Bump>, i: nat)
    requires Small(v) && Reach(bumps) <= |v| && i < |v| && SumAt(bumps, i) < U32
    ensures Small(AddAll(v, bumps)) && |AddAll(v, bumps)| == |v|
        && VectorDelta(AddAll(v, bumps), v)[i] == SumAt(bumps, i)
  {
    AddAllSums(v, bumps);
    assert AddAll(v, bumps)[i] == Get(AddAll(v, bumps), i) && v[i] == Get(v, i);
    SubUndoesAdd(v[i], SumAt(bumps, i));
  }

  lemma {:induction false} RatesFromSum(counts: seq<nat>, i: nat, j: nat)
    requires i <= |counts| <= REASON_COUNT
    ensures SumAt(RateBumps(RatesFrom(counts, i)), j) == if i <= j < |counts| then counts[j] else 0
    decreases |counts| - i
  {
    if i < |counts| {
      RatesFromSum(counts, i + 1, j);
      if counts[i] > 0 {
        var rest := RatesFrom(counts, i + 1);
        assert ([Rate(i, counts[i])] + rest)[1..] == rest;
        assert RateBumps(RatesFrom(counts, i)) == [Bump(i, counts[i])] + RateBumps(rest);
        assert ([Bump(i, counts[i])] + RateBumps(rest))[1..] == RateBumps(rest);
      } else {
        assert [] + RatesFrom(counts, i + 1) == RatesFrom(counts, i + 1);
      }
    }
  }

  /** The receiver has the sender's counters. */
  ghost predicate Matches(r: Snapshot, s: Snapshot) {
    && r.latency.sum == s.latency.sum && r.latency.count == s.latency.count
    && Small(r.latency.buckets) && Small(r.rates)
    && (forall i: nat :: Get(r.latency.buckets, i) == Get(s.latency.buckets, i))
    && (forall i: nat :: Get(r.rates, i) == Get(s.rates, i))
  }

  lemma {:induction false} BucketsTransfer(r: Vector, s: Vector, os: seq<Observation>)
    requires Small(r) && Small(s) && |s| == BUCKET_COUNT && (forall i: nat :: Get(r, i) == Get(s, i))
    requires |os| < U32 && forall o :: o in os ==> o.bucket < BUCKET_COUNT
    ensures var cur := AddAll(s, BucketBumps(os));
            && Small(cur) && |cur| == BUCKET_COUNT
            && var sent := AddAll(r, SpansBumps(SpansFrom(VectorDelta(cur, s), 0, None)));
               Small(sent) && forall i: nat :: Get(sent, i) == Get(cur, i)
  {
    hide Add;
    var bumps := BucketBumps(os);
    var cur := AddAll(s, bumps);
    BucketBumpsAre(os, 0);
    AddAllSums(s, bumps);
    var delta := VectorDelta(cur, s);
    AddAllSums(r, SpansBumps(SpansFrom(delta, 0, None)));
    forall i: nat ensures Get(AddAll(r, SpansBumps(SpansFrom(delta, 0, None))), i) == Get(cur, i) {
      SpansRoundTrip(r, delta, i);
      BucketBumpsAre(os, i);
      if i < BUCKET_COUNT {
        VectorDeltaIs(s, bumps, i);
      } else {
        assert Get(r, i) == 0;
        AddZero(0, U64);
      }
    }
  }

  lemma {:induction false} RatesTransfer(r: Vector, s: Vector, reasons: seq<nat>)
    requires Small(r) && Small(s) && |s| == REASON_COUNT && (forall i: nat :: Get(r, i) == Get(s, i))
    requires |reasons| < U32 && forall x :: x in reasons ==> x < REASON_COUNT
    ensures var cur := AddAll(s, ReasonBumps(reasons));
            && Small(cur) && |cur| == REASON_COUNT
            && var sent := AddAll(r, RateBumps(RatesFrom(VectorDelta(cur, s), 0)));
               Small(sent) && forall i: nat :: Get(sent, i) == Get(cur, i)
  {
    hide Add;
    var bumps := ReasonBumps(reasons);
    var cur := AddAll(s, bumps);
    ReasonBumpsAre(reasons, 0);
    AddAllSums(s, bumps);
    var delta := VectorDelta(cur, s);
    AddAllSums(r, RateBumps(RatesFrom(delta, 0)));
    forall i: nat ensures Get(AddAll(r, RateBumps(RatesFrom(delta, 0))), i) == Get(cur, i) {
      RatesFromSum(delta, 0, i);
      ReasonBumpsAre(reasons, i);
      if i < REASON_COUNT {
        VectorDeltaIs(s, bumps, i);
      } else {
        assert Get(r, i) == 0;
        AddZero(0, U64);
      }
    }
  }

  lemma {:induction false} LatencyTransfers(r: Latency, s: Snapshot, iv: Interval)
    requires Collector(s) && WellFormed(iv) && Light(iv)
    requires r.sum == s.latency.sum && r.count == s.latency.count && Small(r.buckets)
    requires forall i: nat :: Get(r.buckets, i) == Get(s.latency.buckets, i)
    ensures Collector(Advance(s, iv))
    ensures var sent, cur := AddLatency(r, DeltaSnapshot(Advance(s, iv), s).latency), Advance(s, iv).latency;
            && sent.sum == cur.sum && sent.count == cur.count && Small(sent.buckets)
            && forall i: nat :: Get(sent.buckets, i) == Get(cur.buckets, i)
  {
    hide AddAll, SpansFrom, SpansBumps, VectorDelta, Get, Add, WrappingSub;
    AdvanceIsCollector(s, iv);
    ObserveAllSums(s.latency, iv.observed);
    SubUndoesAdd(s.latency.sum, ValueSum(iv.observed));
    SubUndoesAdd(s.latency.count, |iv.observed|);
    BucketsTransfer(r.buckets, s.latency.buckets, iv.observed);
  }

  /** A flush brings a receiver that was up to date with the last one up to date with this one. */
  lemma {:induction false} FlushTransfers(r: Snapshot, s: Snapshot, iv: Interval)
    requires Collector(s) && Matches(r, s) && WellFormed(iv) && Light(iv)
    ensures Collector(Advance(s, iv)) && Matches(Accumulate(r, DeltaSnapshot(Advance(s, iv), s)), Advance(s, iv))
    ensures iv.memory > 0 ==> Accumulate(r, DeltaSnapshot(Advance(s, iv), s)).memory == iv.memory
  {
    hide AddAll, SpansFrom, SpansBumps, VectorDelta, Get, ObserveAll, AddLatency;
    AdvanceIsCollector(s, iv);
    LatencyTransfers(r.latency, s, iv);
    RatesTransfer(r.rates, s.rates, iv.reasons);
  }

  // ----- Every run

  ghost predicate AllLight(ivs: seq<Interval>) { forall iv :: iv in ivs ==> WellFormed(iv) && Light(iv) }

  function AdvanceAll(s: Snapshot, ivs: seq<Interval>): Snapshot
    decreases |ivs|
  {
    if ivs == [] then s else AdvanceAll(Advance(s, ivs[0]), ivs[1..])
  }

  /** The receiver after a flush at the end of each interval. */
  ghost function Received(r: Snapshot, s: Snapshot, ivs: seq<Interval>): Snapshot
    requires Collector(s) && AllLight(ivs)
    decreases |ivs|
  {
    if ivs == [] then r
    else
      assert ivs[0] in ivs && forall iv :: iv in ivs[1..] ==> iv in ivs;
      AdvanceIsCollector(s, ivs[0]);
      Received(Accumulate(r, DeltaSnapshot(Advance(s, ivs[0]), s)), Advance(s, ivs[0]), ivs[1..])
  }

  /** However many observations and flushes: the receiver ends with the sender's sums, counts, buckets and rates. */
  lemma {:induction false} RunTransfers(r: Snapshot, s: Snapshot, ivs: seq<Interval>)
    requires Collector(s) && Matches(r, s) && AllLight(ivs)
    ensures Matches(Received(r, s, ivs), AdvanceAll(s, ivs))
    decreases |ivs|
  {
    if ivs != [] {
      hide Accumulate, Advance, DeltaSnapshot, Matches;
      assert ivs[0] in ivs && forall iv :: iv in ivs[1..] ==> iv in ivs;
      FlushTransfers(r, s, ivs[0]);
      RunTransfers(Accumulate(r, DeltaSnapshot(Advance(s, ivs[0]), s)), Advance(s, ivs[0]), ivs[1..]);
    }
  }

  // ----- What the counters count

  function Observations(ivs: seq<Interval>): seq<Observation> {
    if ivs == [] then [] else ivs[0].observed + Observations(ivs[1..])
  }

  function Reasons(ivs: seq<Interval>): seq<nat> { if ivs == [] then [] else ivs[0].reasons + Reasons(ivs[1..]) }

  function InBucket(os: seq<Observation>, b: nat): nat {
    if os == [] then 0 else (if os[0].bucket == b then 1 else 0) + InBucket(os[1..], b)
  }

  function Occurrences(reasons: seq<nat>, r: nat): nat {
    if reasons == [] then 0 else (if reasons[0] == r then 1 else 0) + Occurrences(reasons[1..], r)
  }

  lemma {:induction false} BucketBumpsCount(os: seq<Observation>, more: seq<Observation>, b: nat)
    ensures SumAt(BucketBumps(os), b) == InBucket(os, b)
    ensures InBucket(os + more, b) == InBucket(os, b) + InBucket(more, b)
    ensures ValueSum(os + more) == ValueSum(os) + ValueSum(more)
  {
    if os == [] {
      assert os + more == more;
    } else {
      assert (os + more)[1..] == os[1..] + more;
      BucketBumpsCount(os[1..], more, b);
    }
  }

  lemma {:induction false} ReasonBumpsCount(reasons: seq<nat>, more: seq<nat>, r: nat)
    ensures SumAt(ReasonBumps(reasons), r) == Occurrences(reasons, r)
    ensures Occurrences(reasons + more, r) == Occurrences(reasons, r) + Occurrences(more, r)
  {
    if reasons == [] {
      assert reasons + more == more;
    } else {
      assert (reasons + more)[1..] == reasons[1..] + more;
      ReasonBumpsCount(reasons[1..], more, r);
    }
  }

  /** `s'` is `s` with the given observations and reasons counted, in counters of 64 bits. */
  ghost predicate Counted(s: Snapshot, s': Snapshot, os: seq<Observation>, reasons: seq<nat>) {
    && s'.latency.sum == (s.latency.sum + ValueSum(os)) % 0x1_0000_0000_0000_0000
    && s'.latency.count == (s.latency.count + |os|) % 0x1_0000_0000_0000_0000
    && (forall b: nat ::
          Get(s'.latency.buckets, b) == (Get(s.latency.buckets, b) + InBucket(os, b)) % 0x1_0000_0000_0000_0000)
    && (forall r: nat :: Get(s'.rates, r) == (Get(s.rates, r) + Occurrences(reasons, r)) % 0x1_0000_0000_0000_0000)
  }

  lemma {:induction false} AdvanceCounts(s: Snapshot, iv: Interval)
    requires Collector(s)
    ensures Counted(s, Advance(s, iv), iv.observed, iv.reasons)
  {
    hide AddAll, Get, InBucket, Occurrences, ValueSum, ObserveAll;
    ObserveAllSums(s.latency, iv.observed);
    VectorsCount(s.latency.buckets, iv.observed, [], 0);
    forall i: nat ensures Get(Advance(s, iv).latency.buckets, i)
        == (Get(s.latency.buckets, i) + InBucket(iv.observed, i)) % U64 {
      VectorsCount(s.latency.buckets, iv.observed, [], i);
    }
    forall i: nat ensures Get(Advance(s, iv).rates, i) == (Get(s.rates, i) + Occurrences(iv.reasons, i)) % U64 {
      VectorsCount(s.rates, [], iv.reasons, i);
    }
  }

  lemma {:induction false} VectorsCount(v: Vector, os: seq<Observation>, reasons: seq<nat>, i: nat)
    requires Small(v)
    ensures Get(AddAll(v, BucketBumps(os)), i) == (Get(v, i) + InBucket(os, i)) % U64
    ensures Get(AddAll(v, ReasonBumps(reasons)), i) == (Get(v, i) + Occurrences(reasons, i)) % U64
  {
    hide AddAll, Get, InBucket, Occurrences, SumAt;
    AddAllSums(v, BucketBumps(os));
    AddAllSums(v, ReasonBumps(reasons));
    BucketBumpsCount(os, [], i);
    ReasonBumpsCount(reasons, [], i);
  }

  lemma {:induction false} CountedInTurn(a: Snapshot, b: Snapshot, c: Snapshot, os: seq<Observation>,
      more: seq<Observation>, reasons: seq<nat>, others: seq<nat>)
    requires Counted(a, b, os, reasons) && Counted(b, c, more, others)
    ensures Counted(a, c, os + more, reasons + others)
  {
    hide InBucket, Occurrences, ValueSum, Get;
    BucketBumpsCount(os, more, 0);
    AddsInTurn(a.latency.sum, ValueSum(os), ValueSum(more));
    AddsInTurn(a.latency.count, |os|, |more|);
    forall i: nat ensures Get(c.latency.buckets, i) == (Get(a.latency.buckets, i) + InBucket(os + more, i)) % U64 {
      BucketBumpsCount(os, more, i);
      AddsInTurn(Get(a.latency.buckets, i), InBucket(os, i), InBucket(more, i));
    }
    forall i: nat ensures Get(c.rates, i) == (Get(a.rates, i) + Occurrences(reasons + others, i)) % U64 {
      ReasonBumpsCount(reasons, others, i);
      AddsInTurn(Get(a.rates, i), Occurrences(reasons, i), Occurrences(others, i));
    }
  }

  lemma AddsInTurn(n: nat, a: nat, b: nat)
    ensures ((n + a) % U64 + b) % U64 == (n + (a + b)) % U64
  {
  }

  lemma {:induction false} NothingCounted(s: Snapshot)
    requires s.latency.sum < U64 && s.latency.count < U64 && Small(s.latency.buckets) && Small(s.rates)
    ensures Counted(s, s, [], [])
  {
  }

  /** The sender counts each observation in its sum, its count and its bucket, and each resolve under its reason. */
  lemma {:induction false} SenderCounts(s: Snapshot, ivs: seq<Interval>)
    requires Collector(s) && forall iv :: iv in ivs ==> WellFormed(iv)
    ensures Counted(s, AdvanceAll(s, ivs), Observations(ivs), Reasons(ivs))
    decreases |ivs|
  {
    hide Counted, Advance, Collector;
    if ivs == [] {
      CollectorIsSmall(s);
      NothingCounted(s);
    } else {
      assert ivs[0] in ivs && forall iv :: iv in ivs[1..] ==> iv in ivs;
      AdvanceIsCollector(s, ivs[0]);
      AdvanceCounts(s, ivs[0]);
      SenderCounts(Advance(s, ivs[0]), ivs[1..]);
      CountedInTurn(s, Advance(s, ivs[0]), AdvanceAll(s, ivs), ivs[0].observed, Observations(ivs[1..]),
                    ivs[0].reasons, Reasons(ivs[1..]));
    }
  }

  lemma CollectorIsSmall(s: Snapshot)
    requires Collector(s)
    ensures s.latency.sum < U64 && s.latency.count < U64 && Small(s.latency.buckets) && Small(s.rates)
  {
  }

  /** So what a new receiver has at the end is the number of all observations and resolves, by bucket and reason. */
  lemma {:induction false} ReceiverCounts(ivs: seq<Interval>)
    requires AllLight(ivs)
    ensures var start := EMPTY.(latency := Latency(0, 0, seq(174, _ => 0)), rates := seq(11, _ => 0));
            Collector(start) && Counted(EMPTY, Received(EMPTY, start, ivs), Observations(ivs), Reasons(ivs))
  {
    hide ValueSum, InBucket, Occurrences, AdvanceAll, Received;
    var start := EMPTY.(latency := Latency(0, 0, seq(174, _ => 0)), rates := seq(11, _ => 0));
    SenderCounts(start, ivs);
    RunTransfers(EMPTY, start, ivs);
  }

  /** Only reasons that came up are sent, each with its count. */
  lemma {:induction false} RatesAre(counts: seq<nat>, i: nat, rate: Rate)
    requires i <= |counts|
    ensures rate in RatesFrom(counts, i) <==>
            i <= rate.reason < |counts| && rate.count == counts[rate.reason] && rate.count > 0
    decreases |counts| - i
  {
    if i < |counts| {
      RatesAre(counts, i + 1, rate);
    }
  }

  /** Where a delta does not fit 32 bits it is cut, so the sum arrives exactly when its delta fits. */
  lemma {:induction false} SumArrivesExactly(r: Snapshot, s: Snapshot, cur: Snapshot)
    requires Collector(s) && Collector(cur) && Matches(r, s)
        && AsU32(WrappingSub(cur.latency.count, s.latency.count)) > 0
    ensures Accumulate(r, DeltaSnapshot(cur, s)).latency.sum == cur.latency.sum <==>
        WrappingSub(cur.latency.sum, s.latency.sum) < U32
  {
    hide AddAll, SpansFrom, SpansBumps, VectorDelta, Get, Small, RatesFrom, RateBumps;
    var d := WrappingSub(cur.latency.sum, s.latency.sum);
    SubThenAdd(cur.latency.sum, s.latency.sum);
    assert Accumulate(r, DeltaSnapshot(cur, s)).latency.sum == Add(s.latency.sum, d % U32, U64);
    AddTells(s.latency.sum, d, d % U32);
  }

  lemma SubThenAdd(a: nat, b: nat)
    requires a < U64 && b < U64
    ensures Add(b, WrappingSub(a, b), U64) == a
  {
  }

  // ----- The dedup baseline

  function Narrow(delta: nat): nat { if delta < U32 then delta else U32 - 1 }

  predicate IsDedup(d: Dedup) {
    d.total < U64 && d.deduped < U64 && d.overflow < U64 && d.sweeps < U64 && d.mapSize < U32 && d.mapCapacity < U32
  }

  function DedupDelta(cur: Dedup, prev: Dedup): Dedup
    requires IsDedup(cur) && IsDedup(prev)
  {
    Dedup(Narrow(WrappingSub(cur.total, prev.total)), Narrow(WrappingSub(cur.deduped, prev.deduped)),
          Narrow(WrappingSub(cur.overflow, prev.overflow)), Narrow(WrappingSub(cur.sweeps, prev.sweeps)),
          cur.mapSize, cur.mapCapacity)
  }

  function DeltaToReport(cur: Dedup, prev: Dedup): Option<Dedup>
    requires IsDedup(cur) && IsDedup(prev)
  {
    var d := DedupDelta(cur, prev);
    if d.total > 0 || d.deduped > 0 || d.overflow > 0 || d.sweeps > 0 || cur.mapSize != prev.mapSize
        || cur.mapCapacity != prev.mapCapacity
    then Some(d) else None
  }

  /** Nothing is reported exactly when nothing changed. */
  lemma {:induction false} SilentMeansUnchanged(cur: Dedup, prev: Dedup)
    requires IsDedup(cur) && IsDedup(prev)
    ensures DeltaToReport(cur, prev).None? <==> cur == prev
  {
    SubIsZero(cur.total, prev.total);
    SubIsZero(cur.deduped, prev.deduped);
    SubIsZero(cur.overflow, prev.overflow);
    SubIsZero(cur.sweeps, prev.sweeps);
  }

  lemma SubIsZero(a: nat, b: nat)
    requires a < U64 && b < U64
    ensures WrappingSub(a, b) == 0 <==> a == b
  {
  }

  /** The last reported snapshot, which moves only with a report. */
  class DedupReporter {
    var last: Dedup

    constructor ()
      ensures last == NO_DEDUP
    {
      last := NO_DEDUP;
    }

    method Next(cur: Dedup) returns (delta: Option<Dedup>)
      requires IsDedup(cur) && IsDedup(last)
      modifies this
      ensures delta == DeltaToReport(cur, old(last)) && last == cur
    {
      SilentMeansUnchanged(cur, last);
      delta := DeltaToReport(cur, last);
      if delta.Some? {
        last := cur;
      }
    }
  }

  /** The receiver after a report for each of the given snapshots. */
  function Reported(r: Option<Dedup>, last: Dedup, snapshots: seq<Dedup>): Option<Dedup>
    requires IsDedup(last) && forall s :: s in snapshots ==> IsDedup(s)
    decreases |snapshots|
  {
    if snapshots == [] then r
    else
      assert snapshots[0] in snapshots && forall s :: s in snapshots[1..] ==> s in snapshots;
      Reported(AccumulateDedup(r, DeltaToReport(snapshots[0], last)), snapshots[0], snapshots[1..])
  }

  /** Each counter moves by less than 2^32 between two reports. */
  ghost predicate Gentle(last: Dedup, snapshots: seq<Dedup>)
    decreases |snapshots|
  {
    snapshots == []
    || (var s := snapshots[0];
        && IsDedup(last) && IsDedup(s)
        && WrappingSub(s.total, last.total) < U32 && WrappingSub(s.deduped, last.deduped) < U32
        && WrappingSub(s.overflow, last.overflow) < U32 && WrappingSub(s.sweeps, last.sweeps) < U32
        && Gentle(s, snapshots[1..]))
  }

  lemma {:induction false} ReportTransfers(r: Option<Dedup>, last: Dedup, cur: Dedup)
    requires IsDedup(last) && (if r.Some? then r.value == last else last == NO_DEDUP) && Gentle(last, [cur])
    ensures var sent := AccumulateDedup(r, DeltaToReport(cur, last)); if sent.Some? then sent.value == cur
        else cur == NO_DEDUP
  {
    SilentMeansUnchanged(cur, last);
    SubThenAdd(cur.total, last.total);
    SubThenAdd(cur.deduped, last.deduped);
    SubThenAdd(cur.overflow, last.overflow);
    SubThenAdd(cur.sweeps, last.sweeps);
  }

  /** Of one report the receiver gets all that fits 32 bits: what is beyond is lost, and only that. */
  lemma {:induction false} ReportAddsWhatFits(last: Dedup, cur: Dedup)
    requires IsDedup(last) && IsDedup(cur) && cur != last
    ensures var sent := AccumulateDedup(Some(last), DeltaToReport(cur, last));
            && sent.Some?
            && sent.value.total == Fitting(last.total, cur.total)
            && sent.value.deduped == Fitting(last.deduped, cur.deduped)
            && sent.value.overflow == Fitting(last.overflow, cur.overflow)
            && sent.value.sweeps == Fitting(last.sweeps, cur.sweeps)
            && sent.value.mapSize == cur.mapSize && sent.value.mapCapacity == cur.mapCapacity
  {
    SilentMeansUnchanged(cur, last);
    SubThenAdd(cur.total, last.total);
    SubThenAdd(cur.deduped, last.deduped);
    SubThenAdd(cur.overflow, last.overflow);
    SubThenAdd(cur.sweeps, last.sweeps);
  }

  /** `cur`, if it is less than 2^32 further than `last`, counted in 64 bits; otherwise as far as 32 bits reach. */
  function Fitting(last: nat, cur: nat): nat {
    if (cur - last) % 0x1_0000_0000_0000_0000 <= 0xFFFF_FFFF then cur
    else (last + 0xFFFF_FFFF) % 0x1_0000_0000_0000_0000
  }

  /** No counter is lost over any run of reports, and the receiver's gauges are the latest. */
  lemma {:induction false} ReportsTransfer(r: Option<Dedup>, last: Dedup, snapshots: seq<Dedup>)
    requires IsDedup(last) && (forall s :: s in snapshots ==> IsDedup(s)) && Gentle(last, snapshots)
    requires if r.Some? then r.value == last else last == NO_DEDUP
    ensures var final, sent := if snapshots == [] then last
        else snapshots[|snapshots| - 1], Reported(r, last, snapshots);
            if sent.Some? then sent.value == final else final == NO_DEDUP
    decreases |snapshots|
  {
    if snapshots != [] {
      assert snapshots[0] in snapshots && forall s :: s in snapshots[1..] ==> s in snapshots;
      assert Gentle(last, [snapshots[0]]);
      ReportTransfers(r, last, snapshots[0]);
      ReportsTransfer(AccumulateDedup(r, DeltaToReport(snapshots[0], last)), snapshots[0], snapshots[1..]);
    }
  }

  // ----- Cumulative buckets, strided

  datatype Line = Line(index: nat, cumulative: nat)

  function Prefix(buckets: Vector, n: nat): nat
    requires n <= |buckets|
  {
    if n == 0 then 0 else Add(Prefix(buckets, n - 1), buckets[n - 1], U64)
  }

  /** The least stride that leaves no more than so many of the 18 buckets of a decade; for zero or more, all of them. */
  function StrideOf(bucketsPerDecade: nat): (stride: nat)
    ensures 1 <= stride <= 18
    ensures 0 < bucketsPerDecade <= 18 ==> (stride - 1) * bucketsPerDecade < 18 <= stride * bucketsPerDecade
    ensures bucketsPerDecade == 0 || bucketsPerDecade > 18 ==> stride == 1
  {
    var bpd := if bucketsPerDecade == 0 || bucketsPerDecade > 18 then 18 else bucketsPerDecade;
    (18 + bpd - 1) / bpd
  }

  /** The lines of the first `n` buckets: at every full stride, the cumulative count once there is one. */
  function Lines(buckets: Vector, stride: nat, n: nat): seq<Line>
    requires n <= |buckets| && stride > 0
  {
    if n == 0 then []
    else Lines(buckets, stride, n - 1)
         + (if n % stride == 0 && Prefix(buckets, n) > 0 then [Line(n - 1, Prefix(buckets, n))] else [])
  }

  method WriteBuckets(buckets: Vector, bucketsPerDecade: nat) returns (lines: seq<Line>)
    requires |buckets| <= BUCKET_COUNT
    ensures lines == Lines(buckets, StrideOf(bucketsPerDecade), |buckets|)
  {
    var stride := StrideOf(bucketsPerDecade);
    var cumulative, nextEmit, i := 0, stride - 1, 0;
    ghost var strides := 1;
    lines := [];
    while i < |buckets|
      invariant i <= |buckets| && cumulative == Prefix(buckets, i)
      invariant nextEmit + 1 == stride * strides && stride * (strides - 1) <= i <= nextEmit
      invariant lines == Lines(buckets, stride, i)
    {
      cumulative := Add(cumulative, buckets[i], U64);
      StrideEnds(i + 1, stride, strides);
      if i == nextEmit {
        nextEmit := nextEmit + stride;
        strides := strides + 1;
        if cumulative > 0 {
          lines := lines + [Line(i, cumulative)];
        }
      }
      i := i + 1;
    }
  }

  lemma StrideEnds(n: nat, stride: nat, strides: nat)
    requires stride > 0 && strides > 0 && stride * (strides - 1) < n <= stride * strides
    ensures n % stride == 0 <==> n == stride * strides
  {
    var q := n / stride;
    assert n == stride * q + n % stride;
    if q >= strides {
      Scale(q, strides, stride);
    } else {
      Scale(strides - 1, q, stride);
      if q < strides - 1 {
        Scale(strides - 1, q + 1, stride);
      }
    }
    assert stride * strides == stride * (strides - 1) + stride;
  }

  function Total(buckets: Vector, n: nat): nat
    requires n <= |buckets|
  {
    if n == 0 then 0 else Total(buckets, n - 1) + buckets[n - 1]
  }

  lemma {:induction false} PrefixIsTotal(buckets: Vector, n: nat)
    requires n <= |buckets|
    ensures Prefix(buckets, n) == Total(buckets, n) % U64
  {
    if n > 0 {
      PrefixIsTotal(buckets, n - 1);
      AddReduced(Total(buckets, n - 1), buckets[n - 1], U64);
    }
  }

  /** There is a line exactly for each full stride with observations in or before it, and it has their number. */
  lemma {:induction false} LinesAre(buckets: Vector, stride: nat, n: nat, line: Line)
    requires n <= |buckets| && stride > 0
    ensures line in Lines(buckets, stride, n) <==>
            && line.index < n && (line.index + 1) % stride == 0
            && line.cumulative == Total(buckets, line.index + 1) % U64 > 0
  {
    if n > 0 {
      LinesAre(buckets, stride, n - 1, line);
      PrefixIsTotal(buckets, n);
    }
  }

  ghost predicate Growing(lines: seq<Line>) {
    forall i, j :: 0 <= i < j < |lines| ==>
        lines[i].index < lines[j].index && lines[i].cumulative <= lines[j].cumulative
  }

  lemma PrefixFits(buckets: Vector, n: nat)
    requires n <= |buckets| && Total(buckets, n) < U64
    ensures Prefix(buckets, n) == Total(buckets, n)
  {
    PrefixIsTotal(buckets, n);
  }

  /** Without wrap-around the lines only grow, in bucket and in count, and none exceeds the total. */
  lemma {:induction false} LinesGrow(buckets: Vector, stride: nat, n: nat)
    requires n <= |buckets| && stride > 0 && Total(buckets, n) < U64
    ensures forall line :: line in Lines(buckets, stride, n) ==> line.index < n && line.cumulative <= Total(buckets, n)
    ensures Growing(Lines(buckets, stride, n))
  {
    if n > 0 {
      LinesGrow(buckets, stride, n - 1);
      PrefixFits(buckets, n);
      var before, lines := Lines(buckets, stride, n - 1), Lines(buckets, stride, n);
      forall i, j | 0 <= i < j < |lines| ensures lines[i].index < lines[j].index
          && lines[i].cumulative <= lines[j].cumulative {
        assert lines[i] == before[i] && before[i] in before;
        if j < |before| {
          assert lines[j] == before[j];
        } else {
          assert lines[j] == Line(n - 1, Total(buckets, n));
        }
      }
    }
  }
}
