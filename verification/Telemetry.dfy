/** Telemetry snapshots, which are cumulative, and the deltas between them that are sent. */
module Telemetry {
  import opened Wrappers
  import opened Counters

  const BUCKET_COUNT: nat := 174
  const REASON_COUNT: nat := 11

  /** The counts of consecutive buckets, from the bucket `offset` on. */
  datatype Span = Span(offset: int, counts: seq<nat>)

  datatype LatencyDelta = LatencyDelta(sum: nat, count: nat, spans: seq<Span>)

  datatype Rate = Rate(reason: int, count: nat)

  datatype Dedup = Dedup(total: nat, deduped: nat, overflow: nat, sweeps: nat, mapSize: nat, mapCapacity: nat)

  datatype FlushCounts = FlushCounts(succeeded: nat, failed: nat)

  datatype EventCounts = EventCounts(published: nat, batchesSucceeded: nat, batchesFailed: nat, rejected: nat)

  datatype Delta = Delta(latency: Option<LatencyDelta>, rates: seq<Rate>, memory: nat, dedup: Option<Dedup>,
                         flush: Option<FlushCounts>, events: Option<EventCounts>, inits: seq<Entry>)

  datatype Latency = Latency(sum: nat, count: nat, buckets: Vector)

  datatype Snapshot = Snapshot(latency: Latency, rates: Vector, memory: nat, dedup: Option<Dedup>,
                               flush: FlushCounts, events: EventCounts, inits: Entries)

  const NO_DEDUP := Dedup(0, 0, 0, 0, 0, 0)
  const EMPTY_DELTA := Delta(None, [], 0, None, None, None, [])
  const EMPTY := Snapshot(Latency(0, 0, []), [], 0, None, FlushCounts(0, 0), EventCounts(0, 0, 0, 0), [])

  // ----- Spans

  /** Collects the runs of non-zero buckets, going on from bucket `i` with the run under way. */
  function SpansFrom(buckets: seq<nat>, i: nat, current: Option<Span>): seq<Span>
    requires i <= |buckets|
    decreases |buckets| - i
  {
    if i == |buckets| then (if current.Some? then [current.value] else [])
    else if buckets[i] > 0 then
      SpansFrom(buckets, i + 1, Some(if current.Some? then current.value.(counts := current.value.counts + [buckets[i]])
                                     else Span(i, [buckets[i]])))
    else (if current.Some? then [current.value] else []) + SpansFrom(buckets, i + 1, None)
  }

  method BucketSpans(buckets: seq<nat>) returns (spans: seq<Span>)
    ensures spans == SpansFrom(buckets, 0, None)
  {
    spans := [];
    var current: Option<Span> := None;
    var i := 0;
    while i < |buckets|
      invariant i <= |buckets| && spans + SpansFrom(buckets, i, current) == SpansFrom(buckets, 0, None)
    {
      if buckets[i] > 0 {
        if current.Some? {
          current := Some(current.value.(counts := current.value.counts + [buckets[i]]));
        } else {
          current := Some(Span(i, [buckets[i]]));
        }
      } else if current.Some? {
        assert spans + ([current.value] + SpansFrom(buckets, i + 1, None))
            == spans + [current.value] + SpansFrom(buckets, i + 1, None);
        spans := spans + [current.value];
        current := None;
      }
      i := i + 1;
    }
    if current.Some? {
      spans := spans + [current.value];
    } else {
      assert spans + [] == spans;
    }
  }

  /** The additions a receiver makes for consecutive counts; those past the last bucket are cut off. */
  function CountBumps(index: nat, counts: seq<nat>): seq<Bump>
    decreases |counts|
  {
    if counts == [] || index >= BUCKET_COUNT then [] else [Bump(index, counts[0])] + CountBumps(index + 1, counts[1..])
  }

  function SpanBumps(span: Span): seq<Bump> {
    if 0 <= span.offset < BUCKET_COUNT then CountBumps(span.offset, span.counts) else []
  }

  function SpansBumps(spans: seq<Span>): seq<Bump> {
    if spans == [] then [] else SpanBumps(spans[0]) + SpansBumps(spans[1..])
  }

  function RateBumps(rates: seq<Rate>): seq<Bump> {
    if rates == [] then []
    else
      var first := if 0 <= rates[0].reason < REASON_COUNT then [Bump(rates[0].reason, rates[0].count)] else [];
      first + RateBumps(rates[1..])
  }

  // ----- Accumulating a delta

  function AddLatency(l: Latency, d: Option<LatencyDelta>): Latency {
    match d
    case None => l
    case Some(x) => Latency(Add(l.sum, x.sum, U64), Add(l.count, x.count, U64), AddAll(l.buckets, SpansBumps(x.spans)))
  }

  /** Counters add, gauges are replaced. */
  function AddDedup(a: Dedup, d: Dedup, m: nat): Dedup
    requires m > 0
  {
    Dedup(Add(a.total, d.total, m), Add(a.deduped, d.deduped, m), Add(a.overflow, d.overflow, m),
        Add(a.sweeps, d.sweeps, m),
          d.mapSize, d.mapCapacity)
  }

  function AddFlush(a: FlushCounts, d: FlushCounts, m: nat): FlushCounts
    requires m > 0
  {
    FlushCounts(Add(a.succeeded, d.succeeded, m), Add(a.failed, d.failed, m))
  }

  function AddEvents(a: EventCounts, d: EventCounts, m: nat): EventCounts
    requires m > 0
  {
    EventCounts(Add(a.published, d.published, m), Add(a.batchesSucceeded, d.batchesSucceeded, m),
                Add(a.batchesFailed, d.batchesFailed, m), Add(a.rejected, d.rejected, m))
  }

  function AccumulateDedup(a: Option<Dedup>, d: Option<Dedup>): Option<Dedup> {
    if d.None? then a else Some(AddDedup(if a.Some? then a.value else NO_DEDUP, d.value, U64))
  }

  function Accumulate(s: Snapshot, d: Delta): Snapshot {
    Snapshot(
      AddLatency(s.latency, d.latency),
      AddAll(s.rates, RateBumps(d.rates)),
      if d.memory > 0 then d.memory else s.memory,
      AccumulateDedup(s.dedup, d.dedup),
      if d.flush.Some? then AddFlush(s.flush, d.flush.value, U64) else s.flush,
      if d.events.Some? then AddEvents(s.events, d.events.value, U64) else s.events,
      AddEntries(s.inits, d.inits, U64))
  }

  function AccumulateAll(s: Snapshot, deltas: seq<Delta>): Snapshot
    decreases |deltas|
  {
    if deltas == [] then s else AccumulateAll(Accumulate(s, deltas[0]), deltas[1..])
  }

  // ----- The additions of one turn of a loop

  lemma CountsStep(v: Vector, index: nat, counts: seq<nat>, i: nat)
    requires i < |counts| && index < BUCKET_COUNT
    ensures AddAll(v, CountBumps(index, counts[i..]))
        == AddAll(AddAt(v, Bump(index, counts[i])), CountBumps(index + 1, counts[i + 1..]))
  {
    assert counts[i..][1..] == counts[i + 1..];
    assert ([Bump(index, counts[i])] + CountBumps(index + 1, counts[i + 1..]))[1..]
        == CountBumps(index + 1, counts[i + 1..]);
  }

  lemma NoBumps(v: Vector, index: int, counts: seq<nat>)
    ensures AddAll(v, []) == v
    ensures index >= BUCKET_COUNT || (index >= 0 && counts == []) ==> CountBumps(index, counts) == []
  {
  }

  lemma RatesStep(v: Vector, rates: seq<Rate>, i: nat)
    requires i < |rates|
    ensures var rate := rates[i];
            AddAll(v, RateBumps(rates[i..]))
            == AddAll(if 0 <= rate.reason < REASON_COUNT then AddAt(v, Bump(rate.reason, rate.count)) else v,
                      RateBumps(rates[i + 1..]))
  {
    assert rates[i..][1..] == rates[i + 1..];
    if 0 <= rates[i].reason < REASON_COUNT {
      assert ([Bump(rates[i].reason, rates[i].count)] + RateBumps(rates[i + 1..]))[1..] == RateBumps(rates[i + 1..]);
    } else {
      assert [] + RateBumps(rates[i + 1..]) == RateBumps(rates[i + 1..]);
    }
  }

  lemma NoRates(v: Vector)
    ensures AddAll(v, RateBumps([])) == v
  {
  }

  /** The snapshot as it is updated in place. */
  class TelemetrySnapshot {
    var latency: Latency
    var rates: Vector
    var memory: nat
    var dedup: Option<Dedup>
    var flush: FlushCounts
    var events: EventCounts
    var inits: Entries

    ghost function View(): Snapshot
      reads this
    {
      Snapshot(latency, rates, memory, dedup, flush, events, inits)
    }

    constructor ()
      ensures View() == EMPTY
    {
      latency, rates, memory, dedup := Latency(0, 0, []), [], 0, None;
      flush, events, inits := FlushCounts(0, 0), EventCounts(0, 0, 0, 0), [];
    }

    /** Expands one span, stopping at the last bucket there is. */
    method ExpandSpan(span: Span)
      modifies this`latency
      ensures latency == old(latency).(buckets := AddAll(old(latency.buckets), SpanBumps(span)))
    {
      hide Add, AddAll, CountBumps;
      NoBumps(latency.buckets, span.offset, span.counts);
      if 0 <= span.offset < BUCKET_COUNT {
        var buckets: Vector := latency.buckets;
        var i := 0;
        assert span.counts[0..] == span.counts;
        while i < |span.counts| && span.offset + i < BUCKET_COUNT
          invariant i <= |span.counts| && latency == old(latency)
          invariant AddAll(buckets, CountBumps(span.offset + i, span.counts[i..]))
              == AddAll(latency.buckets, SpanBumps(span))
        {
          CountsStep(buckets, span.offset + i, span.counts, i);
          var index := span.offset + i;
          if index >= |buckets| {
            buckets := Resized(buckets, index + 1);
          }
          buckets := buckets[index := Add(buckets[index], span.counts[i], U64)];
          i := i + 1;
        }
        assert i == |span.counts| ==> span.counts[i..] == [];
        NoBumps(buckets, span.offset + i, span.counts[i..]);
        latency := latency.(buckets := buckets);
      }
    }

    method AccumulateLatency(d: LatencyDelta)
      modifies this`latency
      ensures latency == AddLatency(old(latency), Some(d))
    {
      latency := latency.(sum := Add(latency.sum, d.sum, U64), count := Add(latency.count, d.count, U64));
      ghost var start := latency;
      var i := 0;
      assert d.spans[0..] == d.spans;
      while i < |d.spans|
        invariant i <= |d.spans| && latency == start.(buckets := latency.buckets)
        invariant AddAll(latency.buckets, SpansBumps(d.spans[i..])) == AddAll(start.buckets, SpansBumps(d.spans))
      {
        assert d.spans[i..][1..] == d.spans[i + 1..];
        AddAllAppend(latency.buckets, SpanBumps(d.spans[i]), SpansBumps(d.spans[i + 1..]));
        ExpandSpan(d.spans[i]);
        i := i + 1;
      }
    }

    method AccumulateRates(deltas: seq<Rate>)
      modifies this`rates
      ensures rates == AddAll(old(rates), RateBumps(deltas))
    {
      hide Add, AddAll, RateBumps;
      var i := 0;
      assert deltas[0..] == deltas;
      while i < |deltas|
        invariant i <= |deltas|
        invariant AddAll(rates, RateBumps(deltas[i..])) == AddAll(old(rates), RateBumps(deltas))
      {
        RatesStep(rates, deltas, i);
        var rate := deltas[i];
        if 0 <= rate.reason < REASON_COUNT {
          if rate.reason >= |rates| {
            rates := Resized(rates, rate.reason + 1);
          }
          rates := rates[rate.reason := Add(rates[rate.reason], rate.count, U64)];
        }
        i := i + 1;
      }
      assert deltas[i..] == [];
      NoRates(rates);
    }

    method AccumulateDelta(d: Delta)
      modifies this
      ensures View() == Accumulate(old(View()), d)
    {
      hide Add, AddAll, AddEntries, AddEntry, SpansBumps, RateBumps;
      if d.latency.Some? {
        AccumulateLatency(d.latency.value);
      }
      AccumulateRates(d.rates);
      if d.memory > 0 {
        memory := d.memory;
      }
      if d.dedup.Some? {
        dedup := Some(AddDedup(if dedup.Some? then dedup.value else NO_DEDUP, d.dedup.value, U64));
      }
      if d.flush.Some? {
        flush := AddFlush(flush, d.flush.value, U64);
      }
      if d.events.Some? {
        events := AddEvents(events, d.events.value, U64);
      }
      AccumulateInits(d.inits);
    }

    method AccumulateInits(es: seq<Entry>)
      modifies this`inits
      ensures inits == AddEntries(old(inits), es, U64)
    {
      var i := 0;
      assert es[0..] == es;
      while i < |es|
        invariant i <= |es| && AddEntries(inits, es[i..], U64) == AddEntries(old(inits), es, U64)
      {
        assert es[i..][1..] == es[i + 1..];
        inits := AddEntry(inits, es[i], U64);
        i := i + 1;
      }
    }
  }

  // ----- Spans are read back as they were

  /** Bucket counts that fit the histogram, as they are read back from spans. */
  lemma {:induction false} CountBumpsSum(index: nat, counts: seq<nat>, i: nat)
    requires index + |counts| <= BUCKET_COUNT
    ensures SumAt(CountBumps(index, counts), i) == if index <= i < index + |counts| then counts[i - index] else 0
    decreases |counts|
  {
    if counts != [] {
      CountBumpsSum(index + 1, counts[1..], i);
    }
  }

  lemma {:induction false} SpansFromSum(buckets: seq<nat>, i: nat, current: Option<Span>, j: nat)
    requires i <= |buckets| <= BUCKET_COUNT
    requires current.Some? ==> 0 <= current.value.offset && current.value.offset + |current.value.counts| == i
    ensures SumAt(SpansBumps(SpansFrom(buckets, i, current)), j) ==
            if i <= j < |buckets| then buckets[j]
            else if current.Some? && current.value.offset <= j < i then current.value.counts[j - current.value.offset]
            else 0
    decreases |buckets| - i
  {
    if current.Some? {
      OneSpanSum(current.value, j);
    }
    if i < |buckets| {
      if buckets[i] > 0 {
        var next := if current.Some? then current.value.(counts := current.value.counts + [buckets[i]])
            else Span(i, [buckets[i]]);
        SpansFromSum(buckets, i + 1, Some(next), j);
      } else {
        SpansFromSum(buckets, i + 1, None, j);
        if current.Some? {
          SumAtAppend(SpanBumps(current.value), SpansBumps(SpansFrom(buckets, i + 1, None)), j);
          assert ([current.value] + SpansFrom(buckets, i + 1, None))[1..] == SpansFrom(buckets, i + 1, None);
        } else {
          assert [] + SpansFrom(buckets, i + 1, None) == SpansFrom(buckets, i + 1, None);
        }
      }
    }
  }

  lemma {:induction false} OneSpanSum(span: Span, j: nat)
    requires 0 <= span.offset && span.offset + |span.counts| <= BUCKET_COUNT
    ensures SumAt(SpanBumps(span), j)
        == if span.offset <= j < span.offset + |span.counts| then span.counts[j - span.offset] else 0
    ensures SpansBumps([span]) == SpanBumps(span)
  {
    assert [span][1..] == [] && SpanBumps(span) + [] == SpanBumps(span);
    if span.offset < BUCKET_COUNT {
      CountBumpsSum(span.offset, span.counts, j);
    } else {
      assert |span.counts| == 0;
    }
  }

  /** Accumulating the spans of a histogram adds to each bucket what the histogram has there. */
  lemma {:induction false} SpansRoundTrip(v: Vector, buckets: seq<nat>, i: nat)
    requires Small(v) && |buckets| <= BUCKET_COUNT
    ensures Get(AddAll(v, SpansBumps(SpansFrom(buckets, 0, None))), i) == Add(Get(v, i), Get(buckets, i), U64)
  {
    AddAllSums(v, SpansBumps(SpansFrom(buckets, 0, None)));
    SpansFromSum(buckets, 0, None, i);
  }

  lemma {:induction false} SpansBumpsAppend(a: seq<Span>, b: seq<Span>)
    ensures SpansBumps(a + b) == SpansBumps(a) + SpansBumps(b)
    decreases |a|
  {
    if a == [] {
      assert a + b == b;
    } else {
      assert (a + b)[1..] == a[1..] + b;
      SpansBumpsAppend(a[1..], b);
    }
  }
}
