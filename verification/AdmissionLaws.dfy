/**
 What each section of the log buffer decides, at the bounds of a flush, of the buffer and of the deliveries under way:
 whether entries stay, are handed out or are shed, and which. Every bound is stated as the number it is.
 */
module AdmissionLaws {
  import opened Wrappers
  import opened LogBuffer
  import opened BufferLaws

  /** A buffer of this size is at a ceiling. */
  predicate Full(bytes: nat, records: nat) { bytes >= 12 * 1024 * 1024 || records >= 20_000 }

  /** A buffer of this size is due for a flush. */
  predicate Due(bytes: nat, records: nat) { bytes >= 768 * 1024 || records >= 1_250 }

  /** The newest entry is a second old, or the oldest ten. */
  predicate Aged(logs: seq<Entry>, nowMs: real) {
    logs != [] && (nowMs - logs[|logs| - 1].atMs >= 1_000.0 || nowMs - logs[0].atMs >= 10_000.0)
  }

  /** Deliveries under way allow one more: fewer than four, or fewer than eight of a buffer at a ceiling. */
  predicate Admitted(inFlight: nat, full: bool) { inFlight < 4 || (full && inFlight < 8) }

  /**
   `batch` is one flush off the front of `all`, with `rest` behind it: within the bounds of a flush, which a single
   entry may exceed, before the boundary, and as long as these allow.
   */
  ghost predicate OneFlushOff(all: seq<Entry>, batch: seq<Entry>, rest: seq<Entry>, boundary: Option<nat>) {
    && batch != [] && all == batch + rest
    && |batch| <= 1_250 && (Sum(batch) <= 768 * 1024 || |batch| == 1)
    && (boundary.Some? ==> forall e :: e in batch ==> e.seqNo < boundary.value)
    && (rest == [] || Sum(batch) + rest[0].len > 768 * 1024 || |batch| == 1_250
        || (boundary.Some? && rest[0].seqNo >= boundary.value))
  }

  lemma {:induction false} ChunkIsOneFlush(s: State, boundary: Option<nat>)
    requires Exact(s) && Chunk(s, boundary) != []
    ensures OneFlushOff(s.logs, Chunk(s, boundary), Taken(s, boundary).logs, boundary)
  {
    hide Sum;
    TakenIsRest(s, boundary);
    var n := ChunkFrom(s.logs, boundary, 0, 0);
    Nothing();
    assert s.logs[..0] == [];
    ChunkIsMaximal(s.logs, boundary, 0, 0);
    if n < |s.logs| {
      SumSplit(s.logs, n);
      assert Taken(s, boundary).logs[0] == s.logs[n];
    }
  }

  lemma Nothing()
    ensures Sum([]) == 0
  {
  }

  // ----- Offers

  /** The isolate after an offer of `e` that leaves `logs` buffered. */
  ghost predicate AfterOffer(c: Isolate, c': Isolate, e: Entry) {
    && c'.offered == c.offered + [e] && c'.finished == c.finished && c'.cut == c.cut
    && c'.state.waiterActive == c.state.waiterActive
  }

  /** With fewer than four deliveries out a flush that is due is handed out; with eight and at a ceiling it is shed. */
  lemma {:induction false} OfferDecides(c: Isolate, log: Log, nowMs: real)
    requires Invariant(c) && Enabled(c, Offering(log, nowMs))
    ensures var c', e := Apply(c, Offering(log, nowMs)), Entry(log, c.state.nextSeq, log.encodedLen, nowMs);
            var all, bytes, inFlight := c.state.logs + [e], c.state.bytes + log.encodedLen, c.state.inFlight;
            && AfterOffer(c, c', e)
            && if Due(bytes, |all|) && Admitted(inFlight, Full(bytes, |all|)) then
                 && c'.shed == c.shed && c'.state.inFlight == inFlight + 1
                 && exists batch ::
                   OneFlushOff(all, batch, c'.state.logs, None) && c'.tasks == c.tasks + [Request(batch)]
               else if Full(bytes, |all|) && inFlight >= 8 then
                 && c'.tasks == c.tasks && c'.state.inFlight == inFlight
                 && exists batch ::
                   OneFlushOff(all, batch, c'.state.logs, None) && c'.shed == c.shed + multiset(batch)
               else
                 c'.tasks == c.tasks && c'.state.inFlight == inFlight && c'.shed == c.shed && c'.state.logs == all
  {
    hide Sum, Chunk, Taken, Exact, Suffix, Conserved, UnderCeiling, Roles, Bounded, OneFlushOff;
    var pushed := Push(c.state, log, nowMs);
    assert Exact(c.state);
    PushIsExact(c.state, log, nowMs);
    TakenIsRest(pushed, None);
    ChunkIsOneFlush(pushed, None);
    assert c.shed + multiset{} == c.shed && c.tasks + [] == c.tasks;
  }

  // ----- Looks of the waiter

  /** `dropped` is off the front of the buffer, up to a last flush that was still due; behind it none is. */
  ghost predicate ShedOff(all: seq<Entry>, dropped: seq<Entry>, rest: seq<Entry>) {
    && all == dropped + rest && (rest == [] || !Due(Sum(rest), |rest|))
    && exists front, last :: dropped == front + last && LastShed(last, rest)
  }

  ghost predicate LastShed(last: seq<Entry>, rest: seq<Entry>) {
    Due(Sum(last + rest), |last + rest|) && OneFlushOff(last + rest, last, rest, None)
  }

  lemma {:induction false} ShedDownStops(s: State)
    requires Exact(s) && SizeDue(s) && s.logs != []
    ensures var (s', dropped) := ShedDown(Taken(s, None)); ShedOff(s.logs, Chunk(s, None) + dropped, s'.logs)
    decreases |s.logs|
  {
    hide Sum, Chunk, Taken, OneFlushOff, LastShed;
    TakenIsRest(s, None);
    var first, taken := Chunk(s, None), Taken(s, None);
    var (s', dropped) := ShedDown(taken);
    ShedDownRemoves(taken);
    assert first + (dropped + s'.logs) == first + dropped + s'.logs;
    if taken.logs == [] || !SizeDue(taken) {
      LastIsShed(s);
      assert first + [] == [] + first == first;
    } else {
      ShedDownStops(taken);
      var front, last :| dropped == front + last && LastShed(last, s'.logs);
      assert first + dropped == first + front + last;
    }
  }

  lemma {:induction false} LastIsShed(s: State)
    requires Exact(s) && SizeDue(s) && s.logs != []
    ensures LastShed(Chunk(s, None), Taken(s, None).logs)
  {
    hide Sum, Chunk, Taken, OneFlushOff;
    TakenIsRest(s, None);
    ChunkIsOneFlush(s, None);
  }

  /** What a look at a buffer with entries in it finds. */
  lemma {:induction false} PollDecides(s: State, nowMs: real)
    requires Exact(s) && s.logs != []
    ensures var (s', poll) := PollOnce(s, nowMs);
            var full := Full(s.bytes, |s.logs|);
            if Aged(s.logs, nowMs) && Admitted(s.inFlight, full) then
              poll.Flush? && poll.fate.Delivering? && OneFlushOff(s.logs, poll.fate.batch, s'.logs, None)
            else if Aged(s.logs, nowMs) && full && s.inFlight >= 8 then
              poll.Flush? && poll.fate.Dropped? && ShedOff(s.logs, poll.fate.batch, s'.logs)
            else poll.Wait?
  {
    hide Sum, Chunk, Taken, ShedDown, OneFlushOff, ShedOff;
    TakenIsRest(s, None);
    ChunkIsOneFlush(s, None);
    if Full(s.bytes, |s.logs|) {
      ShedDownStops(s);
    }
  }

  /** The isolate with a task replaced, and all but the buffer, that task and what was shed as it was. */
  ghost predicate OnlyTask(c: Isolate, c': Isolate, i: nat, news: seq<Task>)
    requires i < |c.tasks|
  {
    && c'.tasks == c.tasks[..i] + news + c.tasks[i + 1..]
    && c'.offered == c.offered && c'.finished == c.finished && c'.cut == c.cut && c'.state.nextSeq == c.state.nextSeq
  }

  /**
   A waiter with less than six seconds left, or with nothing to wait for, gives up its role. Otherwise it hands out one
   flush exactly when entries are old enough and the deliveries under way allow it, and sheds exactly when they are old
   enough, eight deliveries are out and the buffer is at a ceiling.
   */
  lemma {:induction false} LookDecides(c: Isolate, i: nat, nowMs: real, remainingMs: real)
    requires Invariant(c) && Enabled(c, Waking(i, nowMs, remainingMs))
    ensures var c', s := Apply(c, Waking(i, nowMs, remainingMs)), c.state;
            var full := Full(s.bytes, |s.logs|);
            if remainingMs < 6_000.0 || s.logs == [] then
              && OnlyTask(c, c', i, if s.logs == [] then [] else [Drainer(s.nextSeq, None)])
              && c'.state == s.(waiterActive := false) && c'.shed == c.shed
            else if Aged(s.logs, nowMs) && Admitted(s.inFlight, full) then
              && c'.shed == c.shed && c'.state.inFlight == s.inFlight + 1 && c'.state.waiterActive
              && exists batch ::
                OneFlushOff(s.logs, batch, c'.state.logs, None) && OnlyTask(c, c', i, [Waiter(Some(batch))])
            else if Aged(s.logs, nowMs) && full && s.inFlight >= 8 then
              && OnlyTask(c, c', i, [Waiter(None)]) && c'.state.inFlight == s.inFlight && c'.state.waiterActive
              && exists dropped ::
                ShedOff(s.logs, dropped, c'.state.logs) && c'.shed == c.shed + multiset(dropped)
            else c' == c
  {
    hide Sum, PollOnce, Suffix, Conserved, UnderCeiling, Bounded, OneFlushOff, ShedOff, Aged;
    var s := c.state;
    assert Exact(s);
    TaskIsPart(c.tasks, i);
    assert c.tasks == c.tasks[..i] + [Waiter(None)] + c.tasks[i + 1..];
    if remainingMs >= 6_000.0 {
      WakingPolls(c, i, nowMs, remainingMs);
      PollIsQuiet(s, nowMs);
      PollRemoves(s, nowMs);
      if s.logs != [] {
        PollDecides(s, nowMs);
      } else {
        PollIsEmpty(s, nowMs);
      }
      assert c.shed + multiset{} == c.shed;
    }
  }

  lemma PollIsEmpty(s: State, nowMs: real)
    requires s.logs == []
    ensures PollOnce(s, nowMs) == (s, Empty)
  {
  }

  // ----- Turns of a drain

  /** A waiter that stood down takes one flush of what arrived before, or ends. It sheds nothing. */
  lemma {:induction false} DrainDecides(c: Isolate, i: nat, remainingMs: real)
    requires Invariant(c) && Enabled(c, Draining(i, remainingMs))
    ensures var c', s, boundary := Apply(c, Draining(i, remainingMs)), c.state, c.tasks[i].boundary;
            && c'.shed == c.shed && c'.state.waiterActive == s.waiterActive
            && if remainingMs >= 1_000.0 && s.logs != [] && s.logs[0].seqNo < boundary
                  && Admitted(s.inFlight, Full(s.bytes, |s.logs|)) then
                 && c'.state.inFlight == s.inFlight + 1
                 && exists batch ::
                   && OneFlushOff(s.logs, batch, c'.state.logs, Some(boundary))
                   && OnlyTask(c, c', i, [Drainer(boundary, Some(batch))])
               else OnlyTask(c, c', i, []) && c'.state == s
  {
    hide Sum, Chunk, Taken, Suffix, Conserved, UnderCeiling, Roles, Bounded, OneFlushOff;
    var s, boundary := c.state, c.tasks[i].boundary;
    assert Exact(s);
    TakenIsRest(s, Some(boundary));
    if s.logs != [] {
      ChunkStarts(s, boundary);
      if s.logs[0].seqNo < boundary {
        ChunkIsOneFlush(s, Some(boundary));
      }
    }
  }

  lemma ChunkStarts(s: State, boundary: nat)
    requires s.logs != []
    ensures Chunk(s, Some(boundary)) == [] <==> s.logs[0].seqNo >= boundary
  {
  }

  // ----- The other sections, and all of them

  /** A delivery that ends gives back its slot; its entries are delivered, or cut off if it was cancelled. */
  lemma {:induction false} OthersKeepTheBuffer(c: Isolate, step: Step)
    requires Invariant(c) && Enabled(c, step) && (step.Claiming? || step.Delivered? || step.Cancelled?)
    ensures var c' := Apply(c, step);
            && c'.shed == c.shed && c'.offered == c.offered && c'.state.logs == c.state.logs
            && c'.state.bytes == c.state.bytes && c'.state.nextSeq == c.state.nextSeq
            && match step
               case Delivered(i) =>
                 var batch := BatchOf(c.tasks[i]).value;
                 && c'.finished == c.finished + multiset(batch) && c'.cut == c.cut
                 && c'.state.inFlight == c.state.inFlight - 1 && c'.state.waiterActive == c.state.waiterActive
                 && var news := match c.tasks[i] case Request(_) => [] case Waiter(_) => [Waiter(None)]
                        case Drainer(boundary, _) => [Drainer(boundary, None)];
                    c'.tasks == c.tasks[..i] + news + c.tasks[i + 1..]
               case Cancelled(i) =>
                 var batch := BatchOf(c.tasks[i]);
                 && c'.finished == c.finished
                 && c'.cut == c.cut + (if batch.Some? then multiset(batch.value) else multiset{})
                 && c'.state.inFlight == c.state.inFlight - (if batch.Some? then 1 else 0)
                 && (c'.state.waiterActive <==> c.state.waiterActive && !c.tasks[i].Waiter?)
                 && c'.tasks == c.tasks[..i] + c.tasks[i + 1..]
               case _ =>
                 if c.state.logs != [] && !c.state.waiterActive
                 then c'.tasks == c.tasks + [Waiter(None)] && c' == c.(state := c'.state, tasks := c'.tasks)
                   && c'.state.waiterActive && c'.state.inFlight == c.state.inFlight
                 else c' == c
  {
    hide Sum, Suffix, Conserved, UnderCeiling, Bounded, Exact, Slots, Waiters, Held;
    if !step.Claiming? {
      TaskIsPart(c.tasks, step.i);
      assert c.tasks[..step.i] + [] == c.tasks[..step.i];
    }
  }

  /** In every run, entries are shed only with eight deliveries out and the buffer, the new entry included, full. */
  lemma {:induction false} ShedsOnlyWhenStuck(steps: seq<Step>, step: Step)
    requires Runs(START, steps) && Enabled(Reached(START, steps), step)
    ensures var c := Reached(START, steps);
            var added := if step.Offering? then 1 else 0;
            var addedBytes := if step.Offering? then step.log.encodedLen else 0;
            Apply(c, step).shed != c.shed ==>
              c.state.inFlight == 8 && Full(c.state.bytes + addedBytes, |c.state.logs| + added)
  {
    hide Apply, Runs, Reached, OneFlushOff, ShedOff, OnlyTask, AfterOffer;
    var c := Reached(START, steps);
    EveryRunIsSafe(steps);
    assert Roles(c);
    match step
    case Offering(log, nowMs) => OfferDecides(c, log, nowMs);
    case Waking(i, nowMs, remainingMs) => LookDecides(c, i, nowMs, remainingMs);
    case Draining(i, remainingMs) => DrainDecides(c, i, remainingMs);
    case _ => OthersKeepTheBuffer(c, step);
  }
}
