/**
 When the byte ceiling holds. It bounds what an admission waits for, not the buffer: at the ceiling one chunk leaves,
 whatever its size. For a range of record lengths, some run leaves the buffer at its ceiling exactly when a chunk can
 free less than the offer that set it off and the records behind it reach the ceiling.
 */
module CeilingLaws {
  import opened Wrappers
  import opened LogBuffer
  import opened BufferLaws

  // ----- Lengths

  function Total(lens: seq<nat>): nat {
    if lens == [] then 0 else lens[0] + Total(lens[1..])
  }

  function Lens(logs: seq<Entry>): seq<nat> { seq(|logs|, k requires 0 <= k < |logs| => logs[k].len) }

  ghost predicate Within(lens: seq<nat>, lo: nat, hi: nat) { forall len :: len in lens ==> lo <= len <= hi }

  lemma {:induction false} SumIsTotal(logs: seq<Entry>)
    ensures Sum(logs) == Total(Lens(logs))
  {
    if logs != [] {
      assert Lens(logs)[1..] == Lens(logs[1..]);
      SumIsTotal(logs[1..]);
    }
  }

  lemma {:induction false} TotalAppend(a: seq<nat>, b: seq<nat>)
    ensures Total(a + b) == Total(a) + Total(b)
  {
    if a == [] {
      assert a + b == b;
    } else {
      assert (a + b)[1..] == a[1..] + b;
      TotalAppend(a[1..], b);
    }
  }

  /** The longest first length that `n` lengths of the range may have for a given total. */
  function First(n: nat, lo: nat, hi: nat, total: nat): (first: nat)
    requires n > 0 && lo <= hi && n * lo <= total <= n * hi
    ensures lo <= first <= hi && (n - 1) * lo <= total - first <= (n - 1) * hi
  {
    OneMore(n - 1, lo);
    OneMore(n - 1, hi);
    Scale(lo, hi, n - 1);
    if hi <= total - (n - 1) * lo then hi else total - (n - 1) * lo
  }

  /** `n` lengths of the range with a given total. */
  function Spread(n: nat, lo: nat, hi: nat, total: nat): (lens: seq<nat>)
    requires lo <= hi && n * lo <= total <= n * hi
    ensures |lens| == n && Within(lens, lo, hi) && Total(lens) == total
    ensures n > 0 ==> lens[0] == First(n, lo, hi, total)
  {
    if n == 0 then []
    else
      var first := First(n, lo, hi, total);
      [first] + Spread(n - 1, lo, hi, total - first)
  }

  // ----- Runs

  lemma {:induction false} RunsAppend(c: Isolate, a: seq<Step>, b: seq<Step>)
    requires Runs(c, a) && Runs(Reached(c, a), b)
    ensures Runs(c, a + b) && Reached(c, a + b) == Reached(Reached(c, a), b)
    decreases |a|
  {
    hide Apply, Enabled;
    if a == [] {
      assert a + b == b;
    } else {
      assert (a + b)[1..] == a[1..] + b;
      RunsAppend(Apply(c, a[0]), a[1..], b);
    }
  }

  lemma RunsNone(c: Isolate)
    ensures Runs(c, []) && Reached(c, []) == c
  {
  }

  lemma {:induction false} RunsOne(c: Isolate, step: Step)
    requires Enabled(c, step)
    ensures Runs(c, [step]) && Reached(c, [step]) == Apply(c, step)
  {
    assert [step][1..] == [];
    assert Runs(Apply(c, step), []) && Reached(Apply(c, step), []) == Apply(c, step);
  }

  lemma {:induction false} RunsCons(c: Isolate, step: Step, steps: seq<Step>)
    requires Enabled(c, step) && Runs(Apply(c, step), steps)
    ensures Runs(c, [step] + steps) && Reached(c, [step] + steps) == Reached(Apply(c, step), steps)
  {
    hide Apply, Enabled;
    assert ([step] + steps)[1..] == steps;
  }

  /** The run goes on by one step. */
  lemma {:induction false} Then(c: Isolate, a: seq<Step>, step: Step)
    requires Runs(c, a) && Enabled(Reached(c, a), step)
    ensures Runs(c, a + [step]) && Reached(c, a + [step]) == Apply(Reached(c, a), step)
  {
    RunsOne(Reached(c, a), step);
    RunsAppend(c, a, [step]);
  }

  ghost predicate RunWithin(steps: seq<Step>, lo: nat, hi: nat) {
    Runs(START, steps) && Ranged(Reached(START, steps).offered, lo, hi)
  }

  // ----- Deliveries held open

  /** `k` deliveries are under way and nothing is buffered. */
  ghost predicate Holding(c: Isolate, k: nat) {
    c.state == State([], 0, k, false, k)
  }

  /** A lone record leaves whole, either with its own offer or with a drain that retired after it. */
  lemma {:induction false} LoneRecord(k: nat, log: Log)
    requires k < MAX_IN_FLIGHT && log.encodedLen <= USIZE_MAX
    ensures var s, gone := State([], 0, k, false, k), State([], 0, k + 1, false, k + 1);
            var e := NewEntry(s, log, 0.0);
            var buffered := State([e], e.len, k + 1, false, k);
            && Offer(s, log, 0.0) == (if e.len >= FLUSH_BYTES then (gone, Delivering([e])) else (buffered, Kept))
            && DrainOnce(buffered, k + 1) == (gone, Delivering([e]))
  {
    var e := Entry(log, k, log.encodedLen, 0.0);
    assert BytesFrom([e], 0) == BytesFrom([], e.len) == e.len;
    var s := State([e], e.len, k + 1, false, k);
    assert Push(State([], 0, k, false, k), log, 0.0) == s;
    OneRecord(e, None);
    OneRecord(e, Some(k + 1));
    assert Chunk(s, None) == [e] == Chunk(s, Some(k + 1));
    assert Taken(s, None) == State([], 0, k + 1, false, k) == Taken(s, Some(k + 1));
  }

  /** A lone record before the boundary is a chunk. */
  lemma {:induction false} OneRecord(e: Entry, boundary: Option<nat>)
    requires e.len <= USIZE_MAX && (boundary.Some? ==> e.seqNo < boundary.value)
    ensures ChunkFrom([e], boundary, 0, 0) == 1
  {
    assert ChunkFrom([e], boundary, 1, e.len) == 1;
  }

  /** A record of any length can be brought into delivery while fewer than MAX_IN_FLIGHT are under way. */
  lemma {:induction false} HoldOne(c: Isolate, k: nat, len: nat) returns (steps: seq<Step>)
    requires Holding(c, k) && k < MAX_IN_FLIGHT && len <= USIZE_MAX
    ensures Runs(c, steps) && Holding(Reached(c, steps), k + 1)
    ensures exists e: Entry :: e.len == len && Reached(c, steps).offered == c.offered + [e]
  {
    var log := Log("", len);
    var i, e := |c.tasks|, NewEntry(c.state, log, 0.0);
    LoneRecord(k, log);
    hide Offer, DrainOnce;
    steps := [Offering(log, 0.0)];
    RunsOne(c, steps[0]);
    assert Reached(c, steps).offered == c.offered + [e];
    if len < FLUSH_BYTES {
      Then(c, steps, Claiming);
      steps := steps + [Claiming];
      Then(c, steps, Waking(i, 0.0, 0.0));
      steps := steps + [Waking(i, 0.0, 0.0)];
      assert Reached(c, steps).tasks[i] == Drainer(k + 1, None);
      Then(c, steps, Draining(i, RETIRE_AT_REMAINING_MS));
      steps := steps + [Draining(i, RETIRE_AT_REMAINING_MS)];
    }
  }

  /** `k` deliveries of records of one length can be under way with nothing buffered. */
  lemma {:induction false} Hold(k: nat, len: nat) returns (steps: seq<Step>)
    requires k <= MAX_IN_FLIGHT && len <= USIZE_MAX
    ensures Runs(START, steps) && Holding(Reached(START, steps), k) && Ranged(Reached(START, steps).offered, len, len)
  {
    if k == 0 {
      steps := [];
    } else {
      var before := Hold(k - 1, len);
      var last := HoldOne(Reached(START, before), k - 1, len);
      RunsAppend(START, before, last);
      steps := before + last;
    }
  }

  // ----- The buffer fills up

  ghost predicate Full(c: Isolate) { Exact(c.state) && c.state.inFlight == MAX_IN_FLIGHT }

  /** With all deliveries under way, an offer below the ceiling is kept. */
  lemma {:induction false} Keep(c: Isolate, log: Log)
    requires Full(c) && c.state.bytes + log.encodedLen < MAX_BUFFER_BYTES && |c.state.logs| + 1 < MAX_BUFFER_RECORDS
    ensures var offering := Offering(log, 0.0);
            && Enabled(c, offering) && Apply(c, offering).state == Push(c.state, log, 0.0)
            && Full(Apply(c, offering)) && Apply(c, offering).state.bytes == c.state.bytes + log.encodedLen
            && Lens(Apply(c, offering).state.logs) == Lens(c.state.logs) + [log.encodedLen]
  {
    hide Sum, Chunk, Taken;
    PushIsExact(c.state, log, 0.0);
    assert Lens(Push(c.state, log, 0.0).logs) == Lens(c.state.logs) + [log.encodedLen];
  }

  lemma {:induction false} KeepWithin(c: Isolate, lens: seq<nat>, lo: nat, hi: nat)
    requires lens != [] && Ranged(c.offered, lo, hi) && Within(lens, lo, hi)
    requires Enabled(c, Offering(Log("", lens[0]), 0.0))
    ensures Ranged(Apply(c, Offering(Log("", lens[0]), 0.0)).offered, lo, hi) && Within(lens[1..], lo, hi)
  {
    hide Offer;
    assert lens[0] in lens && forall len :: len in lens[1..] ==> len in lens;
    OfferingAdds(c, Log("", lens[0]));
  }

  lemma OfferingAdds(c: Isolate, log: Log)
    requires Enabled(c, Offering(log, 0.0))
    ensures Apply(c, Offering(log, 0.0)).offered == c.offered + [NewEntry(c.state, log, 0.0)]
  {
  }

  lemma {:induction false} Fill(c: Isolate, lens: seq<nat>, lo: nat, hi: nat) returns (steps: seq<Step>)
    requires Full(c) && Ranged(c.offered, lo, hi) && Within(lens, lo, hi)
    requires c.state.bytes + Total(lens) < MAX_BUFFER_BYTES && |c.state.logs| + |lens| < MAX_BUFFER_RECORDS
    ensures Runs(c, steps)
    ensures var c' := Reached(c, steps);
            Full(c') && Ranged(c'.offered, lo, hi) && Lens(c'.state.logs) == Lens(c.state.logs) + lens
    decreases |lens|
  {
    steps := [];
    RunsNone(c);
    hide Apply, Exact, Sum, Ranged, Within, Enabled, Lens, Runs, Reached;
    assert Lens(c.state.logs) + [] == Lens(c.state.logs);
    if lens != [] {
      var offering := Offering(Log("", lens[0]), 0.0);
      Keep(c, Log("", lens[0]));
      KeepWithin(c, lens, lo, hi);
      var rest := Fill(Apply(c, offering), lens[1..], lo, hi);
      assert Lens(c.state.logs) + [lens[0]] + lens[1..] == Lens(c.state.logs) + lens;
      RunsCons(c, offering, rest);
      steps := [offering] + rest;
    }
  }

  /** A chunk takes no more than `k` entries, if these are a flush by number, or with the next one over it by bytes. */
  lemma {:induction false} ChunkStops(s: State, k: nat)
    requires Exact(s) && 0 < k < |s.logs|
    requires k == FLUSH_RECORDS || Total(Lens(s.logs)[..k + 1]) > FLUSH_BYTES
    ensures |Chunk(s, None)| <= k
  {
    TakenIsRest(s, None);
    var chunk := Chunk(s, None);
    if |chunk| > k {
      assert chunk[..k + 1] == s.logs[..k + 1] && Lens(s.logs)[..k + 1] == Lens(s.logs[..k + 1]);
      SumIsTotal(s.logs[..k + 1]);
      SumSplit(chunk, k + 1);
    }
  }

  lemma {:induction false} TailStays(s: State, k: nat)
    requires Exact(s) && |Chunk(s, None)| <= k <= |s.logs|
    ensures Taken(s, None).bytes >= Total(Lens(s.logs)[k..])
  {
    hide Sum, Total, Chunk, Taken;
    var n := |Chunk(s, None)|;
    TakenIsRest(s, None);
    SumIsTotal(s.logs[k..]);
    assert Lens(s.logs[k..]) == Lens(s.logs)[k..];
    assert Taken(s, None).logs[k - n..] == s.logs[k..];
    SumSplit(Taken(s, None).logs, k - n);
  }

  /** What stays behind the chunk of a buffer with these lengths is at least what is behind the first of them. */
  lemma {:induction false} RestStays(s: State, front: seq<nat>, back: seq<nat>)
    requires Exact(s) && Lens(s.logs) == front + back && front != [] && back != []
    requires |front| == FLUSH_RECORDS || Total(front) + back[0] > FLUSH_BYTES
    ensures Taken(s, None).bytes >= Total(back)
  {
    assert Total([back[0]]) == back[0];
    TotalAppend(front, [back[0]]);
    hide Sum, Total, Chunk, Taken, Exact;
    assert (front + back)[..|front| + 1] == front + [back[0]] && (front + back)[|front|..] == back;
    assert |s.logs| == |Lens(s.logs)|;
    ChunkStops(s, |front|);
    TailStays(s, |front|);
  }

  /** The offer that takes a full buffer to its ceiling sets off one chunk. */
  lemma {:induction false} LastOffer(c: Isolate, log: Log, front: seq<nat>, back: seq<nat>)
    requires Full(c) && Lens(c.state.logs) == front + back && front != [] && log.encodedLen <= MAX_BUFFER_BYTES
    requires Total(front) + Total(back) < MAX_BUFFER_BYTES <= Total(back) + log.encodedLen
    requires |front| == FLUSH_RECORDS || Total(front) + (back + [log.encodedLen])[0] > FLUSH_BYTES
    ensures Enabled(c, Offering(log, 0.0)) && Apply(c, Offering(log, 0.0)).state.bytes >= MAX_BUFFER_BYTES
  {
    var pushed := Push(c.state, log, 0.0);
    SumIsTotal(c.state.logs);
    TotalAppend(front, back);
    TotalAppend(back, [log.encodedLen]);
    assert Total([log.encodedLen]) == log.encodedLen;
    PushIsExact(c.state, log, 0.0);
    assert Lens(pushed.logs) == Lens(c.state.logs) + [log.encodedLen] == front + (back + [log.encodedLen]);
    hide Sum, Total, Chunk, Taken;
    RestStays(pushed, front, back + [log.encodedLen]);
  }

  /** A run that ends at the ceiling, from the lengths its buffer holds before the last offer, and that offer's. */
  lemma {:induction false} Overfill(lo: nat, hi: nat, front: seq<nat>, back: seq<nat>, last: nat)
    returns (steps: seq<Step>)
    requires front != [] && Within(front, lo, hi) && Within(back, lo, hi) && lo <= last <= hi
    requires Total(front) + Total(back) < MAX_BUFFER_BYTES <= Total(back) + last && last <= MAX_BUFFER_BYTES
    requires |front| == FLUSH_RECORDS || Total(front) + (back + [last])[0] > FLUSH_BYTES
    requires |front| + |back| < MAX_BUFFER_RECORDS
    ensures RunWithin(steps, lo, hi) && Reached(START, steps).state.bytes >= MAX_BUFFER_BYTES
  {
    TotalAppend(front, back);
    assert front[0] in front && front[0] <= USIZE_MAX;
    hide Total, Apply;
    var held := Hold(MAX_IN_FLIGHT, front[0]);
    var c := Reached(START, held);
    assert Lens(c.state.logs) == [] && [] + (front + back) == front + back;
    var filling := Fill(c, front + back, lo, hi);
    RunsAppend(START, held, filling);
    steps := held + filling;
    var c1, log := Reached(START, steps), Log("", last);
    LastOffer(c1, log, front, back);
    Then(START, steps, Offering(log, 0.0));
    steps := steps + [Offering(log, 0.0)];
    OfferingAdds(c1, log);
  }

  // ----- The ranges whose runs can end at the ceiling

  /** A chunk over half a flush long may be one record, and the records behind it just reach the ceiling. */
  lemma {:induction false} CutShortRun(lo: nat, hi: nat) returns (steps: seq<Step>)
    requires lo <= hi && 0 < hi < MAX_BUFFER_BYTES && CutShort(lo, hi)
    ensures RunWithin(steps, lo, hi) && Reached(START, steps).state.bytes >= MAX_BUFFER_BYTES
  {
    var first, total := CutShortFits(lo, hi);
    var back := Spread(Fewest(hi) - 1, lo, hi, total);
    assert Total([first]) == first;
    assert (back + [hi])[0] == back[0];
    hide Spread, Total, First, CutShort, Fewest;
    steps := Overfill(lo, hi, [first], back, hi);
  }

  /** A range reaches from single long records to the ceiling. */
  lemma {:induction false} LongRecordRun(lo: nat, hi: nat) returns (steps: seq<Step>)
    requires lo < MAX_BUFFER_BYTES <= hi
    ensures RunWithin(steps, lo, hi) && Reached(START, steps).state.bytes >= MAX_BUFFER_BYTES
  {
    assert Total([lo]) == lo;
    steps := Overfill(lo, hi, [lo], [], MAX_BUFFER_BYTES);
  }

  /** FLUSH_RECORDS short records leave alone, and long ones behind them just reach the ceiling. */
  lemma {:induction false} ShortRecordsRun(lo: nat, hi: nat) returns (steps: seq<Step>)
    requires lo <= hi && 2 * hi <= FLUSH_BYTES && ShortRecords(lo, hi)
    ensures RunWithin(steps, lo, hi) && Reached(START, steps).state.bytes >= MAX_BUFFER_BYTES
  {
    var n := Fewest(hi);
    ShortRecordsFit(lo, hi);
    var front, back := Spread(FLUSH_RECORDS, lo, hi, FLUSH_RECORDS * lo), Spread(n - 1, lo, hi, MAX_BUFFER_BYTES - hi);
    hide Spread, Total, Fewest;
    steps := Overfill(lo, hi, front, back, hi);
  }

  /** The number of records of length `hi` that reach the ceiling, and what that many short ones leave room for. */
  lemma {:induction false} CutShortCounts(lo: nat, hi: nat, n: nat)
    requires lo <= hi && 0 < hi < MAX_BUFFER_BYTES && CutShort(lo, hi) && n == Fewest(hi)
    ensures n >= 2 && (n - 1) * hi + hi >= MAX_BUFFER_BYTES && (n - 2) * hi + hi == (n - 1) * hi
    ensures (n - 2) * lo <= (n - 2) * hi && (n - 2) * lo + lo == (n - 1) * lo && (n - 1) * lo + lo < MAX_BUFFER_BYTES
    ensures 2 * lo <= FLUSH_BYTES ==> (n - 2) * lo + FLUSH_BYTES + 1 < MAX_BUFFER_BYTES
  {
    FewestReach(hi, n);
    FewestReach(hi, 1);
    FewestReach(hi, 32);
    hide CutShort, Fewest;
    OneMore(n - 1, hi);
    OneMore(n - 2, hi);
    OneMore(n - 1, lo);
    OneMore(n - 2, lo);
    Scale(lo, hi, n - 2);
    if 2 * lo <= FLUSH_BYTES {
      RoomForFlush(lo, n);
    }
  }

  lemma {:induction false} RoomForFlush(lo: nat, n: nat)
    requires 2 <= n <= 32 && 2 * lo <= FLUSH_BYTES && n * lo < MAX_BUFFER_BYTES
    ensures (n - 2) * lo + FLUSH_BYTES + 1 < MAX_BUFFER_BYTES
  {
    if n < 32 {
      Scale(n - 2, 29, lo);
    }
  }

  /** The length of a record cut off from the next one by FLUSH_BYTES, and the total that completes the buffer. */
  lemma {:induction false} CutShortFits(lo: nat, hi: nat) returns (first: nat, total: nat)
    requires lo <= hi && 0 < hi < MAX_BUFFER_BYTES && CutShort(lo, hi)
    ensures var n := Fewest(hi);
            && 2 <= n <= 32 && lo <= first <= hi && (n - 1) * lo <= total <= (n - 1) * hi
            && first + total < MAX_BUFFER_BYTES <= total + hi && First(n - 1, lo, hi, total) + first > FLUSH_BYTES
  {
    var n := Fewest(hi);
    CutShortCounts(lo, hi, n);
    FewestReach(hi, n);
    FewestReach(hi, 32);
    first := if lo + hi > FLUSH_BYTES then lo else FLUSH_BYTES + 1 - hi;
    var second := if lo + first > FLUSH_BYTES then lo else FLUSH_BYTES + 1 - first;
    total := if (n - 2) * lo + second + hi >= MAX_BUFFER_BYTES then (n - 2) * lo + second else MAX_BUFFER_BYTES - hi;
    hide Fewest;
  }

  lemma {:induction false} ShortRecordsFit(lo: nat, hi: nat)
    requires lo <= hi && 2 * hi <= FLUSH_BYTES && ShortRecords(lo, hi)
    ensures var n := Fewest(hi);
            && 2 <= n <= MAX_BUFFER_RECORDS - FLUSH_RECORDS
            && (n - 1) * lo <= MAX_BUFFER_BYTES - hi <= (n - 1) * hi
            && FLUSH_RECORDS * lo <= FLUSH_RECORDS * hi
  {
    var n := Fewest(hi);
    FewestReach(hi, n);
    FewestReach(hi, n - 1);
    FewestReach(hi, 1);
    FewestReach(hi, MAX_BUFFER_RECORDS - FLUSH_RECORDS);
    OneMore(n - 1, hi);
    Scale(lo, hi, FLUSH_RECORDS);
    Scale(2 * lo, hi, n - 1);
  }

  /**
   The exact condition of the byte ceiling: all runs with record lengths from `lo` to `hi` stay below it just when the
   range cannot exceed it.
   */
  lemma {:induction false} CeilingHoldsExactly(lo: nat, hi: nat)
    requires lo <= hi <= USIZE_MAX
    ensures (forall steps :: RunWithin(steps, lo, hi) ==> Reached(START, steps).state.bytes < MAX_BUFFER_BYTES)
       <==> !CanExceed(lo, hi)
  {
    if CanExceed(lo, hi) {
      var steps;
      if hi >= MAX_BUFFER_BYTES {
        FewestReach(hi, 1);
        Scale(1, Fewest(hi), lo);
        steps := LongRecordRun(lo, hi);
      } else if 2 * hi > FLUSH_BYTES {
        ShortRecordsCut(lo, hi);
        steps := CutShortRun(lo, hi);
      } else {
        steps := ShortRecordsRun(lo, hi);
      }
      assert RunWithin(steps, lo, hi);
    } else {
      forall steps | RunWithin(steps, lo, hi) ensures Reached(START, steps).state.bytes < MAX_BUFFER_BYTES {
        EveryRunIsSafe(steps);
      }
    }
  }

  lemma {:induction false} ShortRecordsCut(lo: nat, hi: nat)
    requires lo <= hi && 0 < hi < MAX_BUFFER_BYTES && 2 * hi > FLUSH_BYTES && CanExceed(lo, hi)
    ensures CutShort(lo, hi)
  {
    if !CutShort(lo, hi) {
      var n := Fewest(hi);
      FewestReach(hi, 32);
      FewestReach(hi, n);
      Scale(n, 32, lo);
    }
  }

  /** Records of nearly the same length, or all of them very short, stay below the ceiling. */
  lemma {:induction false} EvenRecordsStayUnder(lo: nat, hi: nat)
    ensures 2 * hi <= FLUSH_BYTES && hi <= FLUSH_RECORDS * lo ==> !CanExceed(lo, hi)
    ensures (MAX_BUFFER_RECORDS - FLUSH_RECORDS) * hi < MAX_BUFFER_BYTES ==> !CanExceed(lo, hi)
    ensures hi > 0 && lo == hi ==> !CanExceed(lo, hi)
  {
    if lo == hi > 0 {
      FewestReach(hi, Fewest(hi));
    }
  }

  /** Beside logs of about 14 bytes, which carry telemetry alone, the longest record is what decides. */
  lemma TelemetryLogsBeside(hi: nat)
    ensures CanExceed(14, hi) <==> hi > 17_500
  {
  }
}
