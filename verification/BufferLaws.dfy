/**
 The buffer over all interleavings: requests that offer, the elected waiter, waiters that stand down and drain, and
 deliveries that end or are cancelled at any await. Each step is one undisturbed section of one of these tasks.
 */
module BufferLaws {
  import opened Wrappers
  import opened LogBuffer

  const MIN_DRAIN_BUDGET_MS: real := 1_000.0
  const RETIRE_AT_REMAINING_MS: real := 6_000.0

  // ----- Chunks

  lemma {:induction false} SumAppend(a: seq<Entry>, b: seq<Entry>)
    ensures Sum(a + b) == Sum(a) + Sum(b)
    decreases |a|
  {
    if a == [] {
      assert a + b == b;
    } else {
      assert (a + b)[1..] == a[1..] + b;
      SumAppend(a[1..], b);
    }
  }

  lemma {:induction false} SumSplit(logs: seq<Entry>, k: nat)
    requires k <= |logs|
    ensures Sum(logs) == Sum(logs[..k]) + Sum(logs[k..])
    ensures k < |logs| ==> Sum(logs[..k + 1]) == Sum(logs[..k]) + logs[k].len
  {
    assert logs == logs[..k] + logs[k..];
    SumAppend(logs[..k], logs[k..]);
    if k < |logs| {
      assert logs[..k + 1] == logs[..k] + [logs[k]];
      SumAppend(logs[..k], [logs[k]]);
    }
  }

  lemma {:induction false} BytesIsSum(chunk: seq<Entry>, bytes: nat)
    requires bytes + Sum(chunk) <= USIZE_MAX
    ensures BytesFrom(chunk, bytes) == bytes + Sum(chunk)
    decreases |chunk|
  {
    if chunk != [] {
      BytesIsSum(chunk[1..], bytes + chunk[0].len);
    }
  }

  /** Within the bounds of one flush, which a single oversized record may exceed. */
  ghost predicate OneFlush(chunk: seq<Entry>) {
    |chunk| <= FLUSH_RECORDS && (Sum(chunk) <= FLUSH_BYTES || |chunk| == 1)
  }

  ghost predicate AllBefore(entries: seq<Entry>, boundary: Option<nat>) {
    boundary.Some? ==> forall e :: e in entries ==> e.seqNo < boundary.value
  }

  /**
   What a chunk is: a prefix of the buffer within one flush and before the boundary, and as long as that allows: the
   next entry is at the boundary or would exceed a bound.
   */
  lemma {:induction false} ChunkIsMaximal(logs: seq<Entry>, boundary: Option<nat>, count: nat, bytes: nat)
    requires count <= |logs| && OneFlush(logs[..count]) && AllBefore(logs[..count], boundary)
    requires Sum(logs) <= USIZE_MAX && bytes == Sum(logs[..count])
    ensures var n := ChunkFrom(logs, boundary, count, bytes);
            && OneFlush(logs[..n]) && AllBefore(logs[..n], boundary)
            && (n == |logs| || (boundary.Some? && logs[n].seqNo >= boundary.value)
                || (n > 0 && (Sum(logs[..n + 1]) > FLUSH_BYTES || n == FLUSH_RECORDS)))
    decreases |logs| - count
  {
    hide Sum;
    if count < |logs| {
      SumSplit(logs, count);
      SumSplit(logs, count + 1);
      assert logs[..count + 1] == logs[..count] + [logs[count]];
      if !Stops(logs, boundary, count, bytes) {
        ChunkIsMaximal(logs, boundary, count + 1, bytes + logs[count].len);
      }
    }
  }

  /** The byte count is the sum of the buffered lengths, and no count can overflow. */
  ghost predicate Exact(s: State) { s.bytes == Sum(s.logs) <= USIZE_MAX }

  lemma {:induction false} TakenIsRest(s: State, boundary: Option<nat>)
    requires Exact(s)
    ensures var chunk, rest := Chunk(s, boundary), Taken(s, boundary);
            && s.logs == chunk + rest.logs && Exact(rest) && s.bytes == Sum(chunk) + rest.bytes
            && rest == s.(logs := rest.logs, bytes := rest.bytes)
            && OneFlush(chunk) && AllBefore(chunk, boundary)
            && (s.logs != [] && boundary.None? ==> chunk != [])
  {
    assert Sum([]) == 0;
    hide Sum;
    var n := ChunkFrom(s.logs, boundary, 0, 0);
    assert s.logs[..0] == [] && s.logs == s.logs[..n] + s.logs[n..];
    SumSplit(s.logs, n);
    BytesIsSum(Chunk(s, boundary), 0);
    ChunkIsMaximal(s.logs, boundary, 0, 0);
  }

  /** Taking chunk after chunk. */
  function Chunks(s: State): seq<seq<Entry>>
    decreases |s.logs|
  {
    if s.logs == [] then [] else ChunkIsNonempty(s.logs, None); [Chunk(s, None)] + Chunks(Taken(s, None))
  }

  function Flatten(chunks: seq<seq<Entry>>): seq<Entry> {
    if chunks == [] then [] else chunks[0] + Flatten(chunks[1..])
  }

  /** Repeated chunks give the buffer back in order, each within one flush. */
  lemma {:induction false} ChunksPartition(s: State)
    requires Exact(s)
    ensures Flatten(Chunks(s)) == s.logs
    ensures forall chunk :: chunk in Chunks(s) ==> chunk != [] && OneFlush(chunk)
    decreases |s.logs|
  {
    if s.logs != [] {
      TakenIsRest(s, None);
      ChunksPartition(Taken(s, None));
      assert Chunks(s)[1..] == Chunks(Taken(s, None));
    }
  }

  // ----- Lengths and the byte ceiling

  ghost predicate Ranged(logs: seq<Entry>, lo: nat, hi: nat) { forall e :: e in logs ==> lo <= e.len <= hi }

  /** The fewest records of a length that reach the byte ceiling. */
  function Fewest(len: nat): nat
    requires len > 0
  {
    (MAX_BUFFER_BYTES + len - 1) / len
  }

  /**
   Whether some run with record lengths from `lo` to `hi` leaves the buffer at its byte ceiling. An offer adds up to
   `hi` bytes, and the chunk it sets off may free less: a chunk cut short by FLUSH_BYTES, if `hi` is over half a flush,
   or one of FLUSH_RECORDS short records. In the first case the fewest longest records that reach the ceiling must be
   too few for the shortest ones to reach it; in the second the records that remain must be able to reach it.
   */
  predicate CanExceed(lo: nat, hi: nat) {
    hi > 0 && (CutShort(lo, hi) || ShortRecords(lo, hi))
  }

  predicate CutShort(lo: nat, hi: nat)
    requires hi > 0
  {
    2 * hi > FLUSH_BYTES && Fewest(hi) * lo < MAX_BUFFER_BYTES
  }

  predicate ShortRecords(lo: nat, hi: nat) {
    FLUSH_RECORDS * lo < hi && (MAX_BUFFER_RECORDS - FLUSH_RECORDS) * hi >= MAX_BUFFER_BYTES
  }

  lemma Scale(x: nat, y: nat, m: nat)
    requires x <= y
    ensures x * m <= y * m
  {
    assert y * m == x * m + (y - x) * m;
  }

  lemma {:induction false} SumRanged(logs: seq<Entry>, lo: nat, hi: nat)
    requires Ranged(logs, lo, hi)
    ensures |logs| * lo <= Sum(logs) <= |logs| * hi
  {
    if logs != [] {
      assert lo <= logs[0].len <= hi && Ranged(logs[1..], lo, hi);
      SumRanged(logs[1..], lo, hi);
      OneMore(|logs[1..]|, lo);
      OneMore(|logs[1..]|, hi);
    }
  }

  lemma OneMore(n: nat, m: nat)
    ensures (n + 1) * m == n * m + m
  {
  }

  lemma {:induction false} FewestReach(len: nat, n: nat)
    requires len > 0
    ensures n * len >= MAX_BUFFER_BYTES <==> n >= Fewest(len)
  {
    var q := Fewest(len);
    assert MAX_BUFFER_BYTES + len - 1 == q * len + (MAX_BUFFER_BYTES + len - 1) % len;
    assert MAX_BUFFER_BYTES <= q * len <= MAX_BUFFER_BYTES + len - 1;
    if n >= q {
      Scale(q, n, len);
    } else {
      Scale(n + 1, q, len);
      OneMore(n, len);
    }
  }

  /** What a chunk that leaves something behind frees: FLUSH_RECORDS records, or all but one record of a full flush. */
  lemma {:induction false} ChunkFrees(s: State, lo: nat, hi: nat)
    requires Exact(s) && Ranged(s.logs, lo, hi) && Taken(s, None).logs != []
    ensures var chunk := Chunk(s, None);
            (|chunk| == FLUSH_RECORDS && Sum(chunk) >= FLUSH_RECORDS * lo) || Sum(chunk) + hi > FLUSH_BYTES
  {
    assert Sum([]) == 0;
    hide Sum;
    var n := ChunkFrom(s.logs, None, 0, 0);
    assert s.logs[..0] == [] && Taken(s, None).logs == s.logs[n..];
    ChunkIsMaximal(s.logs, None, 0, 0);
    SumSplit(s.logs, n);
    assert s.logs[n] in s.logs;
    SumRanged(s.logs[..n], lo, hi);
  }

  // ----- Tasks and steps

  /** A task of the isolate. Each batch it awaits the delivery of holds one slot. */
  datatype Task =
    | Request(handed: seq<Entry>)
    | Waiter(awaited: Option<seq<Entry>>)
    | Drainer(boundary: nat, draining: Option<seq<Entry>>)

  function BatchOf(t: Task): Option<seq<Entry>> {
    match t
    case Request(batch) => Some(batch)
    case Waiter(batch) => batch
    case Drainer(_, batch) => batch
  }

  /** The isolate with its history: every entry offered, and those that were delivered, shed, or cut off in delivery. */
  datatype Isolate = Isolate(state: State, tasks: seq<Task>, offered: seq<Entry>,
                             finished: multiset<Entry>, shed: multiset<Entry>, cut: multiset<Entry>)

  datatype Step =
    | Offering(log: Log, nowMs: real)
    | Claiming
    | Waking(i: nat, nowMs: real, remainingMs: real)
    | Draining(i: nat, remainingMs: real)
    | Delivered(i: nat)
    | Cancelled(i: nat)

  ghost predicate Enabled(c: Isolate, step: Step) {
    match step
    case Offering(log, _) => Sum(c.state.logs) + log.encodedLen <= USIZE_MAX  // the buffer is in memory
    case Claiming => true
    case Waking(i, _, _) => i < |c.tasks| && c.tasks[i] == Waiter(None)
    case Draining(i, _) => i < |c.tasks| && c.tasks[i].Drainer? && c.tasks[i].draining.None?
    case Delivered(i) => i < |c.tasks| && BatchOf(c.tasks[i]).Some?
    case Cancelled(i) => i < |c.tasks|
  }

  function Replace(tasks: seq<Task>, i: nat, news: seq<Task>): seq<Task>
    requires i < |tasks|
  {
    tasks[..i] + news + tasks[i + 1..]
  }

  function FateTask(fate: Fate, make: seq<Entry> -> Task): seq<Task> {
    if fate.Delivering? then [make(fate.batch)] else []
  }

  function FateShed(fate: Fate): multiset<Entry> {
    if fate.Dropped? then multiset(fate.batch) else multiset{}
  }

  ghost function Apply(c: Isolate, step: Step): Isolate
    requires Enabled(c, step)
  {
    match step
    case Offering(log, nowMs) =>
      var (state, fate) := Offer(c.state, log, nowMs);
      c.(state := state, tasks := c.tasks + FateTask(fate, b => Request(b)),
         offered := c.offered + [NewEntry(c.state, log, nowMs)], shed := c.shed + FateShed(fate))
    case Claiming =>
      if c.state.logs == [] || c.state.waiterActive then c
      else c.(state := c.state.(waiterActive := true), tasks := c.tasks + [Waiter(None)])
    case Waking(i, nowMs, remainingMs) =>
      if remainingMs < RETIRE_AT_REMAINING_MS then
        c.(state := c.state.(waiterActive := false),
           tasks := Replace(c.tasks, i, if c.state.logs == [] then [] else [Drainer(c.state.nextSeq, None)]))
      else
        var (state, poll) := PollOnce(c.state, nowMs);
        (match poll
         case Empty => c.(state := c.state.(waiterActive := false), tasks := Replace(c.tasks, i, []))
         case Wait => c
         case Flush(fate) =>
           c.(state := state, shed := c.shed + FateShed(fate),
              tasks := if fate.Delivering? then Replace(c.tasks, i, [Waiter(Some(fate.batch))]) else c.tasks))
    case Draining(i, remainingMs) =>
      if remainingMs < MIN_DRAIN_BUDGET_MS then c.(tasks := Replace(c.tasks, i, []))
      else
        var (state, fate) := DrainOnce(c.state, c.tasks[i].boundary);
        c.(state := state, tasks := Replace(c.tasks, i, FateTask(fate, b => Drainer(c.tasks[i].boundary, Some(b)))))
    case Delivered(i) =>
      var t := c.tasks[i];
      c.(state := c.state.(inFlight := SaturatingSub(c.state.inFlight, 1)),
         finished := c.finished + multiset(BatchOf(t).value),
         tasks := Replace(c.tasks, i, Idle(t)))
    case Cancelled(i) =>
      var t := c.tasks[i];
      var batch := BatchOf(t);
      c.(state := c.state.(inFlight := if batch.Some? then SaturatingSub(c.state.inFlight, 1) else c.state.inFlight,
                           waiterActive := c.state.waiterActive && !t.Waiter?),
         cut := c.cut + (if batch.Some? then multiset(batch.value) else multiset{}),
         tasks := Replace(c.tasks, i, []))
  }

  // ----- What tasks hold

  function Slots(tasks: seq<Task>): nat {
    if tasks == [] then 0 else SlotOf(tasks[0]) + Slots(tasks[1..])
  }

  function Waiters(tasks: seq<Task>): nat {
    if tasks == [] then 0 else WaiterOf(tasks[0]) + Waiters(tasks[1..])
  }

  function Held(tasks: seq<Task>): multiset<Entry> {
    if tasks == [] then multiset{} else HeldBy(tasks[0]) + Held(tasks[1..])
  }

  lemma {:induction false} TasksAppend(a: seq<Task>, b: seq<Task>)
    ensures Slots(a + b) == Slots(a) + Slots(b) && Waiters(a + b) == Waiters(a) + Waiters(b)
        && Held(a + b) == Held(a) + Held(b)
    decreases |a|
  {
    if a == [] {
      assert a + b == b;
    } else {
      assert (a + b)[1..] == a[1..] + b;
      TasksAppend(a[1..], b);
    }
  }

  function SlotOf(t: Task): nat { if BatchOf(t).Some? then 1 else 0 }

  function WaiterOf(t: Task): nat { if t.Waiter? then 1 else 0 }

  function HeldBy(t: Task): multiset<Entry> { if BatchOf(t).Some? then multiset(BatchOf(t).value) else multiset{} }

  lemma {:induction false} Alone(t: Task)
    ensures Slots([t]) == SlotOf(t) && Waiters([t]) == WaiterOf(t) && Held([t]) == HeldBy(t)
    ensures Slots([]) == 0 && Waiters([]) == 0 && Held([]) == multiset{}
  {
    assert [t][1..] == [];
  }

  /** A task in the list holds part of what the list holds. */
  lemma {:induction false} TaskIsPart(tasks: seq<Task>, i: nat)
    requires i < |tasks|
    ensures Slots(tasks) >= SlotOf(tasks[i]) && Waiters(tasks) >= WaiterOf(tasks[i]) && Held(tasks) >= HeldBy(tasks[i])
  {
    assert tasks == tasks[..i] + ([tasks[i]] + tasks[i + 1..]);
    TasksAppend(tasks[..i], [tasks[i]] + tasks[i + 1..]);
    assert ([tasks[i]] + tasks[i + 1..])[1..] == tasks[i + 1..];
  }

  lemma {:induction false} TasksReplace(tasks: seq<Task>, i: nat, news: seq<Task>)
    requires i < |tasks|
    ensures var tasks' := Replace(tasks, i, news);
            && Slots(tasks') + Slots([tasks[i]]) == Slots(tasks) + Slots(news)
            && Waiters(tasks') + Waiters([tasks[i]]) == Waiters(tasks) + Waiters(news)
            && Held(tasks') + Held([tasks[i]]) == Held(tasks) + Held(news)
    ensures forall t :: t in Replace(tasks, i, news) ==> t in tasks || t in news
  {
    var a, b := tasks[..i], tasks[i + 1..];
    assert tasks == a + [tasks[i]] + b;
    TasksAppend(a, [tasks[i]]);
    TasksAppend(a + [tasks[i]], b);
    TasksAppend(a, news);
    TasksAppend(a + news, b);
  }

  // ----- The invariant

  /** The buffer holds the latest arrivals, in order, under consecutive numbers that end just below the next one. */
  ghost predicate Suffix(c: Isolate) {
    var n, m := |c.offered|, |c.state.logs|;
    && m <= n && c.state.logs == c.offered[n - m..]
    && c.state.nextSeq == n % U64
    && forall k :: 0 <= k < n ==> c.offered[k].seqNo == k % U64
  }

  /** Every offered entry is buffered, in a delivery, delivered, cut off or shed, and in one of these only. */
  ghost predicate Conserved(c: Isolate) {
    multiset(c.offered) == multiset(c.state.logs) + Held(c.tasks) + c.finished + c.cut + c.shed
  }

  /** Slots are counted exactly and bounded; the waiter role is taken exactly when its one holder lives. */
  ghost predicate Roles(c: Isolate) {
    && c.state.inFlight == Slots(c.tasks) <= HARD_IN_FLIGHT
    && Waiters(c.tasks) == if c.state.waiterActive then 1 else 0
  }

  /** A drain holds only entries numbered below its boundary. */
  ghost predicate Bounded(t: Task) {
    t.Drainer? && t.draining.Some? ==> AllBefore(t.draining.value, Some(t.boundary))
  }

  ghost predicate Invariant(c: Isolate) {
    && Suffix(c) && Conserved(c) && Roles(c)
    && Exact(c.state) && |c.state.logs| < MAX_BUFFER_RECORDS
    && (forall t :: t in c.tasks ==> Bounded(t))
    && UnderCeiling(c)
  }

  /** The bytes stay under their ceiling for every range of lengths that cannot exceed it. */
  ghost predicate UnderCeiling(c: Isolate) {
    forall lo: nat, hi: nat :: Ranged(c.offered, lo, hi) && !CanExceed(lo, hi) ==> c.state.bytes < MAX_BUFFER_BYTES
  }

  const START := Isolate(State([], 0, 0, false, 0), [], [], multiset{}, multiset{}, multiset{})

  // ----- One section of the buffer code

  function Gone(fate: Fate): seq<Entry> {
    match fate
    case Kept => []
    case Delivering(batch) => batch
    case Dropped(batch) => batch
  }

  /** The section took `fate` off the front of the buffer, reserving a slot if that is to be delivered, and no more. */
  ghost predicate Removes(s: State, s': State, fate: Fate) {
    && s.logs == Gone(fate) + s'.logs && Exact(s') && s'.bytes <= s.bytes
    && s'.nextSeq == s.nextSeq && s'.waiterActive == s.waiterActive
    && s'.inFlight == s.inFlight + (if fate.Delivering? then 1 else 0)
    && (fate.Delivering? && s.inFlight <= HARD_IN_FLIGHT ==> fate.batch != [] && s'.inFlight <= HARD_IN_FLIGHT)
  }

  /** An admission over the soft limit only happens from a buffer at its ceiling. */
  ghost predicate SoftLimit(seen: State, s': State) {
    s'.inFlight > seen.inFlight && s'.inFlight > MAX_IN_FLIGHT ==> AtCeiling(seen)
  }

  lemma {:induction false} PushIsExact(s: State, log: Log, nowMs: real)
    requires Exact(s) && Sum(s.logs) + log.encodedLen <= USIZE_MAX
    ensures Exact(Push(s, log, nowMs)) && Push(s, log, nowMs).bytes == s.bytes + log.encodedLen
  {
    var e := NewEntry(s, log, nowMs);
    SumAppend(s.logs, [e]);
    assert Sum([e]) == e.len;
  }

  /** A chunk brings a buffer that a single record took to the byte ceiling back under it, if its lengths allow that. */
  lemma {:induction false} ChunkRelieves(s: State, lo: nat, hi: nat)
    requires Exact(s) && s.logs != [] && |s.logs| <= MAX_BUFFER_RECORDS && Ranged(s.logs, lo, hi) && !CanExceed(lo, hi)
    requires s.bytes < MAX_BUFFER_BYTES + s.logs[|s.logs| - 1].len
    ensures Taken(s, None).bytes < MAX_BUFFER_BYTES
  {
    TakenIsRest(s, None);
    var chunk, rest := Chunk(s, None), Taken(s, None).logs;
    if Sum(rest) >= MAX_BUFFER_BYTES {
      NotNothing(rest);
      hide Sum, CanExceed;
      var last := rest[|rest| - 1];
      assert last in rest && last == s.logs[|s.logs| - 1];
      assert forall e :: e in chunk || e in rest ==> e in s.logs;
      SumRanged(rest, lo, hi);
      ManyShort(s.logs, lo, hi, |rest|);
      ChunkFrees(s, lo, hi);
      FreesTooLittle(lo, hi, |rest|, |chunk|, Sum(chunk));
    }
  }

  /** A chunk that frees less than the last record, with the ceiling reached behind it. */
  lemma {:induction false} FreesTooLittle(lo: nat, hi: nat, n: nat, taken: nat, freed: nat)
    requires n * hi >= MAX_BUFFER_BYTES > n * lo && taken + n <= MAX_BUFFER_RECORDS && freed < hi
    requires (taken == FLUSH_RECORDS && freed >= FLUSH_RECORDS * lo) || freed + hi > FLUSH_BYTES
    ensures CanExceed(lo, hi)
  {
    FewestReach(hi, n);
    Scale(Fewest(hi), n, lo);
    if taken == FLUSH_RECORDS {
      Scale(n, MAX_BUFFER_RECORDS - FLUSH_RECORDS, hi);
    }
  }

  lemma NotNothing(logs: seq<Entry>)
    requires Sum(logs) > 0
    ensures logs != []
  {
  }

  /** Without its last record a buffer below the ceiling bounds the length of its shortest records. */
  lemma {:induction false} ManyShort(logs: seq<Entry>, lo: nat, hi: nat, n: nat)
    requires Ranged(logs, lo, hi) && n < |logs| && Sum(logs) < MAX_BUFFER_BYTES + logs[|logs| - 1].len
    ensures n * lo < MAX_BUFFER_BYTES
  {
    var m := |logs| - 1;
    SumSplit(logs, m);
    assert logs[..m + 1] == logs && forall e :: e in logs[..m] ==> e in logs;
    SumRanged(logs[..m], lo, hi);
    Scale(n, m, lo);
  }

  lemma {:induction false} OfferRemoves(s: State, log: Log, nowMs: real)
    requires Exact(s) && Sum(s.logs) + log.encodedLen <= USIZE_MAX && |s.logs| < MAX_BUFFER_RECORDS
    ensures var pushed := Push(s, log, nowMs);
            var (s', fate) := Offer(s, log, nowMs);
            && Exact(pushed) && Removes(pushed, s', fate) && SoftLimit(pushed, s') && |s'.logs| < MAX_BUFFER_RECORDS
  {
    hide Sum, Chunk, Taken;
    var pushed := Push(s, log, nowMs);
    PushIsExact(s, log, nowMs);
    TakenIsRest(pushed, None);
    assert [] + pushed.logs == pushed.logs;
  }

  /** An offer leaves the bytes under their ceiling, if its lengths allow that. */
  lemma {:induction false} OfferRelieves(s: State, log: Log, nowMs: real, lo: nat, hi: nat)
    requires Exact(s) && Sum(s.logs) + log.encodedLen <= USIZE_MAX && |s.logs| < MAX_BUFFER_RECORDS
    requires s.bytes < MAX_BUFFER_BYTES && Ranged(Push(s, log, nowMs).logs, lo, hi) && !CanExceed(lo, hi)
    ensures Offer(s, log, nowMs).0.bytes < MAX_BUFFER_BYTES
  {
    hide Sum, Chunk, Taken, CanExceed;
    PushIsExact(s, log, nowMs);
    TakenIsRest(Push(s, log, nowMs), None);
    ChunkRelieves(Push(s, log, nowMs), lo, hi);
  }

  lemma {:induction false} ShedDownRemoves(s: State)
    requires Exact(s)
    ensures var (s', dropped) := ShedDown(s);
            Removes(s, s', Dropped(dropped)) && (s'.logs == [] || !SizeDue(s'))
    decreases |s.logs|
  {
    hide Sum, Chunk, Taken;
    if s.logs == [] || !SizeDue(s) {
      assert [] + s.logs == s.logs;
    } else {
      TakenIsRest(s, None);
      ChunkIsNonempty(s.logs, None);
      ShedDownRemoves(Taken(s, None));
      var (rest, dropped) := ShedDown(Taken(s, None));
      assert Chunk(s, None) + dropped + rest.logs == Chunk(s, None) + (dropped + rest.logs);
    }
  }

  lemma {:induction false} PollRemoves(s: State, nowMs: real)
    requires Exact(s)
    ensures var (s', poll) := PollOnce(s, nowMs);
            && Removes(s, s', if poll.Flush? then poll.fate else Kept) && SoftLimit(s, s')
            && (poll.Flush? && poll.fate.Dropped? ==> s'.logs == [] || !SizeDue(s'))
            && (poll.Flush? ==> s.logs != [])
  {
    hide Sum, Chunk, Taken, ShedDown;
    assert [] + s.logs == s.logs;
    TakenIsRest(s, None);
    if s.logs != [] {
      var taken := Taken(s, None);
      ShedDownRemoves(taken);
      var (rest, dropped) := ShedDown(taken);
      assert Chunk(s, None) + dropped + rest.logs == Chunk(s, None) + (dropped + rest.logs);
    }
  }

  lemma {:induction false} DrainRemoves(s: State, boundary: nat)
    requires Exact(s)
    ensures var (s', fate) := DrainOnce(s, boundary);
            && Removes(s, s', fate) && SoftLimit(s, s') && !fate.Dropped?
            && AllBefore(Gone(fate), Some(boundary))
  {
    hide Sum, Chunk, Taken;
    assert [] + s.logs == s.logs;
    TakenIsRest(s, Some(boundary));
  }

  // ----- The invariant is kept by every step

  /** Taking entries off the front leaves a suffix, and no more records or bytes than before. */
  lemma {:induction false} RemovalKeeps(c: Isolate, c': Isolate, fate: Fate)
    requires Suffix(c) && c'.offered == c.offered && Removes(c.state, c'.state, fate)
    ensures Suffix(c') && |c'.state.logs| <= |c.state.logs|
    ensures multiset(c.state.logs) == multiset(Gone(fate)) + multiset(c'.state.logs)
  {
    assert c'.state.logs == c.state.logs[|Gone(fate)|..];
  }

  lemma {:induction false} RemovalConserves(c: Isolate, c': Isolate, fate: Fate)
    requires Conserved(c) && c'.offered == c.offered
    requires multiset(c.state.logs) == multiset(Gone(fate)) + multiset(c'.state.logs)
    requires Held(c'.tasks) + c'.finished + c'.cut + c'.shed
        == Held(c.tasks) + c.finished + c.cut + c.shed + multiset(Gone(fate))
    ensures Conserved(c')
  {
    hide Held;
    forall e
      ensures multiset(c'.offered)[e] == (multiset(c'.state.logs) + Held(c'.tasks) + c'.finished + c'.cut + c'.shed)[e]
    {
      assert (Held(c'.tasks) + c'.finished + c'.cut + c'.shed)[e]
          == (Held(c.tasks) + c.finished + c.cut + c.shed + multiset(Gone(fate)))[e];
    }
  }

  /** What is swapped out of a list of tasks is what the rest of the account gains. */
  lemma {:induction false} SwapBalances(h: multiset<Entry>, h': multiset<Entry>, part: multiset<Entry>,
      news: multiset<Entry>, a: multiset<Entry>, b: multiset<Entry>, d: multiset<Entry>, a': multiset<Entry>,
      b': multiset<Entry>, d': multiset<Entry>, gone: multiset<Entry>)
    requires h' + part == h + news
    requires news + a' + b' + d' == part + a + b + d + gone
    ensures h' + a' + b' + d' == h + a + b + d + gone
  {
    forall e ensures (h' + a' + b' + d')[e] == (h + a + b + d + gone)[e] {
      assert (h' + part)[e] == (h + news)[e];
      assert (news + a' + b' + d')[e] == (part + a + b + d + gone)[e];
    }
  }

  lemma {:induction false} PushConserves(c: Isolate, e: Entry)
    requires Conserved(c)
    ensures Conserved(c.(state := c.state.(logs := c.state.logs + [e]), offered := c.offered + [e]))
  {
    assert multiset(c.offered + [e]) == multiset(c.offered) + multiset{e};
    assert multiset(c.state.logs + [e]) == multiset(c.state.logs) + multiset{e};
  }

  lemma {:induction false} PushIsSuffix(c: Isolate, log: Log, nowMs: real)
    requires Suffix(c)
    ensures Suffix(c.(state := Push(c.state, log, nowMs), offered := c.offered + [NewEntry(c.state, log, nowMs)]))
  {
    var n, m := |c.offered|, |c.state.logs|;
    var e := NewEntry(c.state, log, nowMs);
    assert (c.offered + [e])[n - m..] == c.state.logs + [e];
  }

  /** The new entry is in the account before a chunk with it may leave. */
  ghost function Pushed(c: Isolate, log: Log, nowMs: real): Isolate {
    c.(state := Push(c.state, log, nowMs), offered := c.offered + [NewEntry(c.state, log, nowMs)])
  }

  lemma {:induction false} PushedKeeps(c: Isolate, log: Log, nowMs: real)
    requires Suffix(c) && Conserved(c)
    ensures Suffix(Pushed(c, log, nowMs)) && Conserved(Pushed(c, log, nowMs))
  {
    var e, mid := NewEntry(c.state, log, nowMs), Pushed(c, log, nowMs);
    PushIsSuffix(c, log, nowMs);
    PushConserves(c, e);
    ConservedIgnores(c.(state := c.state.(logs := mid.state.logs), offered := mid.offered), mid);
  }

  lemma {:induction false} OfferingConserves(c: Isolate, log: Log, nowMs: real)
    requires Invariant(c) && Enabled(c, Offering(log, nowMs))
    ensures var c', mid := Apply(c, Offering(log, nowMs)), Pushed(c, log, nowMs);
            var (s', fate) := Offer(c.state, log, nowMs);
            Removes(mid.state, s', fate) ==> Suffix(c') && Conserved(c')
  {
    hide Offer, Sum, Held, Suffix, Conserved;
    var c', mid := Apply(c, Offering(log, nowMs)), Pushed(c, log, nowMs);
    var (s', fate) := Offer(c.state, log, nowMs);
    if Removes(mid.state, s', fate) {
      PushedKeeps(c, log, nowMs);
      RemovalKeeps(mid, c', fate);
      TasksAppend(c.tasks, FateTask(fate, b => Request(b)));
      Alone(if fate.Delivering? then Request(fate.batch) else Waiter(None));
      RemovalConserves(mid, c', fate);
    }
  }

  lemma {:induction false} OfferingStaysUnder(c: Isolate, log: Log, nowMs: real)
    requires Invariant(c) && Enabled(c, Offering(log, nowMs))
    ensures UnderCeiling(Apply(c, Offering(log, nowMs)))
  {
    hide Offer, Sum, Held, Slots, Waiters, Conserved, CanExceed;
    var c', e := Apply(c, Offering(log, nowMs)), NewEntry(c.state, log, nowMs);
    forall lo: nat, hi: nat | Ranged(c'.offered, lo, hi) && !CanExceed(lo, hi)
      ensures c'.state.bytes < MAX_BUFFER_BYTES
    {
      RangedBuffer(c, e, lo, hi);
      OfferRelieves(c.state, log, nowMs, lo, hi);
    }
  }

  lemma RangedBuffer(c: Isolate, e: Entry, lo: nat, hi: nat)
    requires Suffix(c) && Ranged(c.offered + [e], lo, hi)
    ensures Ranged(c.offered, lo, hi) && Ranged(c.state.logs + [e], lo, hi)
  {
    assert e in c.offered + [e] && forall x :: x in c.offered ==> x in c.offered + [e];
  }

  lemma {:induction false} OfferingKeepsRoles(c: Isolate, log: Log, nowMs: real)
    requires Roles(c) && (forall t :: t in c.tasks ==> Bounded(t)) && Enabled(c, Offering(log, nowMs))
    ensures var c', pushed := Apply(c, Offering(log, nowMs)), Push(c.state, log, nowMs);
            var (s', fate) := Offer(c.state, log, nowMs);
            Removes(pushed, s', fate) ==> Roles(c') && forall t :: t in c'.tasks ==> Bounded(t)
  {
    hide Offer, Sum, Held, Slots, Waiters, Push;
    var (s', fate) := Offer(c.state, log, nowMs);
    PushedIsQuiet(c.state, log, nowMs);
    TasksAppend(c.tasks, FateTask(fate, b => Request(b)));
    Alone(if fate.Delivering? then Request(fate.batch) else Waiter(None));
  }

  lemma {:induction false} OfferingKeeps(c: Isolate, log: Log, nowMs: real)
    requires Invariant(c) && Enabled(c, Offering(log, nowMs))
    ensures Invariant(Apply(c, Offering(log, nowMs)))
  {
    OfferingStaysUnder(c, log, nowMs);
    OfferRemoves(c.state, log, nowMs);
    OfferingConserves(c, log, nowMs);
    OfferingKeepsRoles(c, log, nowMs);
    hide Offer, Sum, Held, Slots, Waiters, Suffix, Conserved, UnderCeiling, Push, Roles, Bounded, FateTask, FateShed;
  }

  lemma {:induction false} PushedIsQuiet(s: State, log: Log, nowMs: real)
    ensures Push(s, log, nowMs).inFlight == s.inFlight && Push(s, log, nowMs).waiterActive == s.waiterActive
  {
  }

  lemma {:induction false} ConservedIgnores(a: Isolate, b: Isolate)
    requires Conserved(a) && b == a.(state := b.state) && b.state.logs == a.state.logs
    ensures Conserved(b)
  {
  }

  lemma FewerBytesStayUnder(a: Isolate, b: Isolate)
    requires UnderCeiling(a) && b.offered == a.offered && b.state.bytes <= a.state.bytes
    ensures UnderCeiling(b)
  {
  }

  lemma {:induction false} ClaimingKeeps(c: Isolate)
    requires Invariant(c)
    ensures Invariant(Apply(c, Claiming))
  {
    hide Sum, Held, Slots, Waiters, Suffix, Conserved, UnderCeiling;
    var c' := Apply(c, Claiming);
    FewerBytesStayUnder(c, c');
    TasksAppend(c.tasks, [Waiter(None)]);
    Alone(Waiter(None));
    assert [] + c.state.logs == c.state.logs;
    RemovalKeeps(c, c'.(state := c.state), Kept);
    SuffixIgnores(c, c');
    assert multiset(Gone(Kept)) == multiset{};
    RemovalConserves(c, c', Kept);
  }

  lemma {:induction false} SuffixIgnores(a: Isolate, b: Isolate)
    requires Suffix(a) && a.offered == b.offered && a.state.logs == b.state.logs && a.state.nextSeq == b.state.nextSeq
    ensures Suffix(b)
  {
  }

  /** The tasks' account after a step of task `i`. */
  lemma {:induction false} TaskStepBalances(c: Isolate, c': Isolate, i: nat, news: seq<Task>, gone: multiset<Entry>)
    requires i < |c.tasks| && c'.tasks == Replace(c.tasks, i, news)
    requires Held(news) + c'.finished + c'.cut + c'.shed == HeldBy(c.tasks[i]) + c.finished + c.cut + c.shed + gone
    ensures Held(c'.tasks) + c'.finished + c'.cut + c'.shed == Held(c.tasks) + c.finished + c.cut + c.shed + gone
  {
    hide Held, HeldBy, Replace;
    TasksReplace(c.tasks, i, news);
    Alone(c.tasks[i]);
    SwapBalances(Held(c.tasks), Held(c'.tasks), HeldBy(c.tasks[i]), Held(news), c.finished, c.cut, c.shed,
                 c'.finished, c'.cut, c'.shed, gone);
  }

  /** A step of task `i` that takes `fate` off the buffer and leaves `news` in its place. */
  lemma {:induction false} TaskStepKeeps(c: Isolate, c': Isolate, i: nat, news: seq<Task>, fate: Fate)
    requires Invariant(c) && i < |c.tasks| && c'.tasks == Replace(c.tasks, i, news) && c'.offered == c.offered
    requires Removes(c.state,
        c'.state.(waiterActive := c.state.waiterActive, inFlight := c.state.inFlight
        + (if fate.Delivering? then 1 else 0)), fate)
    requires Held(news) + c'.finished + c'.cut + c'.shed
        == HeldBy(c.tasks[i]) + c.finished + c.cut + c.shed + multiset(Gone(fate))
    requires c'.state.inFlight + SlotOf(c.tasks[i]) == c.state.inFlight + Slots(news)
        && c'.state.inFlight <= HARD_IN_FLIGHT
    requires Waiters(news) + (if c.state.waiterActive then 1 else 0)
        == WaiterOf(c.tasks[i]) + (if c'.state.waiterActive then 1 else 0)
    requires forall t :: t in news ==> Bounded(t)
    ensures Invariant(c')
  {
    hide Sum, Held, HeldBy, Slots, Waiters, Bounded, UnderCeiling, Replace, Conserved, Suffix, Removes, Exact, Roles;
    var s' := c'.state.(waiterActive := c.state.waiterActive, inFlight := c.state.inFlight
        + (if fate.Delivering? then 1 else 0));
    RemovalIsExact(c.state, s', fate, c'.state);
    RemovalKeeps(c, c'.(state := s'), fate);
    SuffixIgnores(c'.(state := s'), c');
    FewerBytesStayUnder(c, c');
    TaskStepBalances(c, c', i, news, multiset(Gone(fate)));
    RemovalConserves(c, c', fate);
    TaskStepRoles(c, c', i, news);
  }

  lemma RemovalIsExact(s: State, s': State, fate: Fate, after: State)
    requires Removes(s, s', fate) && after.logs == s'.logs && after.bytes == s'.bytes
    ensures Exact(after) && after.bytes <= s.bytes
  {
  }

  lemma {:induction false} TaskStepRoles(c: Isolate, c': Isolate, i: nat, news: seq<Task>)
    requires Roles(c) && i < |c.tasks| && c'.tasks == Replace(c.tasks, i, news)
    requires c'.state.inFlight + SlotOf(c.tasks[i]) == c.state.inFlight + Slots(news)
        && c'.state.inFlight <= HARD_IN_FLIGHT
    requires Waiters(news) + (if c.state.waiterActive then 1 else 0)
        == WaiterOf(c.tasks[i]) + (if c'.state.waiterActive then 1 else 0)
    requires (forall t :: t in c.tasks ==> Bounded(t)) && forall t :: t in news ==> Bounded(t)
    ensures Roles(c') && forall t :: t in c'.tasks ==> Bounded(t)
  {
    hide Held, Slots, Waiters, Bounded, Replace;
    TasksReplace(c.tasks, i, news);
    Alone(c.tasks[i]);
  }

  lemma {:induction false} RetiringKeeps(c: Isolate, i: nat, nowMs: real, remainingMs: real)
    requires Invariant(c) && Enabled(c, Waking(i, nowMs, remainingMs)) && remainingMs < RETIRE_AT_REMAINING_MS
    ensures Invariant(Apply(c, Waking(i, nowMs, remainingMs)))
  {
    hide PollOnce, Sum, Held, Slots, Waiters, Suffix, Conserved, UnderCeiling, Replace, AtCeiling, SizeDue, Exact;
    TaskIsPart(c.tasks, i);
    Alone(Drainer(c.state.nextSeq, None));
    assert [] + c.state.logs == c.state.logs;
    var news := if c.state.logs == [] then [] else [Drainer(c.state.nextSeq, None)];
    TaskStepKeeps(c, Apply(c, Waking(i, nowMs, remainingMs)), i, news, Kept);
  }

  /** What a look of the waiter leaves in its place. */
  function Polled(poll: Poll): seq<Task> {
    match poll
    case Empty => []
    case Wait => [Waiter(None)]
    case Flush(fate) => if fate.Delivering? then [Waiter(Some(fate.batch))] else [Waiter(None)]
  }

  function PollFate(poll: Poll): Fate { if poll.Flush? then poll.fate else Kept }

  lemma {:induction false} PolledHolds(poll: Poll)
    ensures Waiters(Polled(poll)) == (if poll.Empty? then 0 else 1)
    ensures Slots(Polled(poll)) == (if PollFate(poll).Delivering? then 1 else 0)
    ensures Held(Polled(poll)) + FateShed(PollFate(poll)) == multiset(Gone(PollFate(poll)))
    ensures forall t :: t in Polled(poll) ==> Bounded(t)
  {
    Alone(if PollFate(poll).Delivering? then Waiter(Some(poll.fate.batch)) else Waiter(None));
  }

  /** The isolate after a look that found `poll` and left the buffer in `s'`. */
  ghost function AfterPoll(c: Isolate, i: nat, s': State, poll: Poll): Isolate
    requires i < |c.tasks|
  {
    c.(state := s'.(waiterActive := s'.waiterActive && !poll.Empty?), tasks := Replace(c.tasks, i, Polled(poll)),
       shed := c.shed + FateShed(PollFate(poll)))
  }

  lemma {:induction false} PollingKeeps(c: Isolate, i: nat, s': State, poll: Poll)
    requires Invariant(c) && i < |c.tasks| && c.tasks[i] == Waiter(None) && Removes(c.state, s', PollFate(poll))
    ensures Invariant(AfterPoll(c, i, s', poll))
  {
    hide Sum, Held, Slots, Waiters, Suffix, Conserved, UnderCeiling, Replace, Bounded, Polled, FateShed;
    var fate := PollFate(poll);
    TaskIsPart(c.tasks, i);
    PolledHolds(poll);
    ShedBalances(Held(Polled(poll)), c.finished, c.cut, c.shed, FateShed(fate), multiset(Gone(fate)));
    TaskStepKeeps(c, AfterPoll(c, i, s', poll), i, Polled(poll), fate);
  }

  lemma {:induction false} PollIsQuiet(s: State, nowMs: real)
    ensures var (s', poll) := PollOnce(s, nowMs); !poll.Flush? ==> s' == s
  {
  }

  lemma {:induction false} WakingPolls(c: Isolate, i: nat, nowMs: real, remainingMs: real)
    requires Enabled(c, Waking(i, nowMs, remainingMs)) && remainingMs >= RETIRE_AT_REMAINING_MS
    ensures var (s', poll) := PollOnce(c.state, nowMs);
            Apply(c, Waking(i, nowMs, remainingMs)) == AfterPoll(c, i, s', poll)
  {
    hide PollOnce, Sum, Replace;
    PollIsQuiet(c.state, nowMs);
    ReplaceBySame(c.tasks, i);
    assert c.shed + multiset{} == c.shed;
    var (s', poll) := PollOnce(c.state, nowMs);
    match poll
    case Empty => assert PollFate(poll) == Kept;
    case Wait => assert PollFate(poll) == Kept;
    case Flush(fate) => assert PollFate(poll) == fate; assert s'.(waiterActive := s'.waiterActive) == s';
  }

  lemma {:induction false} WakingKeeps(c: Isolate, i: nat, nowMs: real, remainingMs: real)
    requires Invariant(c) && Enabled(c, Waking(i, nowMs, remainingMs))
    ensures Invariant(Apply(c, Waking(i, nowMs, remainingMs)))
  {
    hide PollOnce, Apply, Sum, Suffix, Conserved, UnderCeiling, AtCeiling, Exact, Roles, Bounded;
    if remainingMs < RETIRE_AT_REMAINING_MS {
      RetiringKeeps(c, i, nowMs, remainingMs);
    } else {
      var (s', poll) := PollOnce(c.state, nowMs);
      assert Exact(c.state);
      PollRemoves(c.state, nowMs);
      PollingKeeps(c, i, s', poll);
      WakingPolls(c, i, nowMs, remainingMs);
    }
  }

  lemma {:induction false} ShedBalances(h: multiset<Entry>, a: multiset<Entry>, b: multiset<Entry>, d: multiset<Entry>,
      shed: multiset<Entry>, gone: multiset<Entry>)
    requires h + shed == gone
    ensures h + a + b + (d + shed) == multiset{} + a + b + d + gone
  {
  }

  lemma {:induction false} ReplaceBySame(tasks: seq<Task>, i: nat)
    requires i < |tasks|
    ensures Replace(tasks, i, [tasks[i]]) == tasks
  {
  }

  lemma {:induction false} DrainingKeeps(c: Isolate, i: nat, remainingMs: real)
    requires Invariant(c) && Enabled(c, Draining(i, remainingMs))
    ensures Invariant(Apply(c, Draining(i, remainingMs)))
  {
    hide DrainOnce, Sum, Held, Slots, Waiters, Suffix, Conserved, UnderCeiling, Replace;
    var c' := Apply(c, Draining(i, remainingMs));
    var boundary := c.tasks[i].boundary;
    assert [] + c.state.logs == c.state.logs;
    TaskIsPart(c.tasks, i);
    Alone(c.tasks[i]);
    if remainingMs < MIN_DRAIN_BUDGET_MS {
      TaskStepKeeps(c, c', i, [], Kept);
    } else {
      var (s', fate) := DrainOnce(c.state, boundary);
      DrainRemoves(c.state, boundary);
      Alone(if fate.Delivering? then Drainer(boundary, Some(fate.batch)) else Waiter(None));
      TaskStepKeeps(c, c', i, FateTask(fate, b => Drainer(boundary, Some(b))), fate);
    }
  }

  /** The task without the batch it awaited. */
  function Idle(t: Task): seq<Task> {
    match t
    case Request(_) => []
    case Waiter(_) => [Waiter(None)]
    case Drainer(boundary, _) => [Drainer(boundary, None)]
  }

  lemma {:induction false} IdleHolds(t: Task)
    ensures Slots(Idle(t)) == 0 && Waiters(Idle(t)) == WaiterOf(t) && Held(Idle(t)) == multiset{}
  {
    Alone(if Idle(t) == [] then t else Idle(t)[0]);
  }

  lemma {:induction false} DeliveredKeeps(c: Isolate, i: nat)
    requires Invariant(c) && Enabled(c, Delivered(i))
    ensures Invariant(Apply(c, Delivered(i)))
  {
    hide Sum, Held, Slots, Waiters, Suffix, Conserved, UnderCeiling, Replace;
    assert [] + c.state.logs == c.state.logs;
    TaskIsPart(c.tasks, i);
    Alone(c.tasks[i]);
    IdleHolds(c.tasks[i]);
    TaskStepKeeps(c, Apply(c, Delivered(i)), i, Idle(c.tasks[i]), Kept);
  }

  lemma {:induction false} CancelledKeeps(c: Isolate, i: nat)
    requires Invariant(c) && Enabled(c, Cancelled(i))
    ensures Invariant(Apply(c, Cancelled(i)))
  {
    hide Sum, Held, Slots, Waiters, Suffix, Conserved, UnderCeiling, Replace;
    assert [] + c.state.logs == c.state.logs;
    TaskIsPart(c.tasks, i);
    Alone(c.tasks[i]);
    TaskStepKeeps(c, Apply(c, Cancelled(i)), i, [], Kept);
  }

  lemma {:induction false} StepKeeps(c: Isolate, step: Step)
    requires Invariant(c) && Enabled(c, step)
    ensures Invariant(Apply(c, step))
  {
    match step
    case Offering(log, nowMs) => OfferingKeeps(c, log, nowMs);
    case Claiming => ClaimingKeeps(c);
    case Waking(i, nowMs, remainingMs) => WakingKeeps(c, i, nowMs, remainingMs);
    case Draining(i, remainingMs) => DrainingKeeps(c, i, remainingMs);
    case Delivered(i) => DeliveredKeeps(c, i);
    case Cancelled(i) => CancelledKeeps(c, i);
  }

  // ----- Every run

  ghost predicate Runs(c: Isolate, steps: seq<Step>)
    decreases |steps|
  {
    steps == [] || (Enabled(c, steps[0]) && Runs(Apply(c, steps[0]), steps[1..]))
  }

  ghost function Reached(c: Isolate, steps: seq<Step>): Isolate
    requires Runs(c, steps)
    decreases |steps|
  {
    if steps == [] then c else Reached(Apply(c, steps[0]), steps[1..])
  }

  lemma {:induction false} RunKeeps(c: Isolate, steps: seq<Step>)
    requires Invariant(c) && Runs(c, steps)
    ensures Invariant(Reached(c, steps))
    decreases |steps|
  {
    if steps != [] {
      StepKeeps(c, steps[0]);
      RunKeeps(Apply(c, steps[0]), steps[1..]);
    }
  }

  /** Whatever the schedule: nothing is lost or taken twice, the bounds hold, slots and the waiter role are exact. */
  lemma {:induction false} EveryRunIsSafe(steps: seq<Step>)
    requires Runs(START, steps)
    ensures Invariant(Reached(START, steps))
  {
    RunKeeps(START, steps);
  }

  /** Deliveries pass the soft limit only by an admission that saw the buffer at a ceiling. */
  lemma {:induction false} SoftLimitHolds(c: Isolate, step: Step)
    requires Invariant(c) && Enabled(c, step)
    ensures var c' := Apply(c, step);
            c'.state.inFlight > c.state.inFlight && c'.state.inFlight > MAX_IN_FLIGHT ==>
              AtCeiling(if step.Offering? then Push(c.state, step.log, step.nowMs) else c.state)
  {
    hide Sum, Chunk, Taken, Exact, Suffix, Conserved, UnderCeiling, ShedDown, Replace;
    assert Exact(c.state) && |c.state.logs| < MAX_BUFFER_RECORDS;
    match step
    case Offering(log, nowMs) => OfferRemoves(c.state, log, nowMs);
    case Waking(i, nowMs, _) => PollRemoves(c.state, nowMs);
    case Draining(i, _) => DrainRemoves(c.state, c.tasks[i].boundary);
    case _ =>
  }

  /**
   A drain that retired when `retired` had been offered takes none of the later arrivals, whatever else took from
   the buffer in between, as long as fewer than 2^64 entries were ever offered.
   */
  lemma {:induction false} DrainTakesOnlyEarlier(c: Isolate, i: nat, retired: nat, remainingMs: real)
    requires Invariant(c) && Enabled(c, Draining(i, remainingMs)) && c.tasks[i].boundary == retired <= |c.offered| < U64
    ensures var (s', fate) := DrainOnce(c.state, retired);
            forall k :: 0 <= k < |Gone(fate)| ==>
              var arrival := |c.offered| - |c.state.logs| + k;
              c.offered[arrival] == Gone(fate)[k] && arrival < retired
  {
    hide DrainOnce, Sum, Conserved, Roles, UnderCeiling, Bounded, Exact;
    assert Exact(c.state);
    DrainRemoves(c.state, retired);
    var (s', fate) := DrainOnce(c.state, retired);
    forall k | 0 <= k < |Gone(fate)|
      ensures var arrival := |c.offered| - |c.state.logs| + k; c.offered[arrival] == Gone(fate)[k] && arrival < retired
    {
      assert Gone(fate)[k] == c.state.logs[k];
      assert Gone(fate)[k] in Gone(fate);
    }
  }

  /** The boundary a retiring waiter fixes is the number of entries offered so far. */
  lemma {:induction false} RetiringFixesBoundary(c: Isolate, i: nat, nowMs: real, remainingMs: real)
    requires Invariant(c) && Enabled(c, Waking(i, nowMs, remainingMs)) && |c.offered| < U64
    requires remainingMs < RETIRE_AT_REMAINING_MS && c.state.logs != []
    ensures var c' := Apply(c, Waking(i, nowMs, remainingMs));
            c'.tasks[i] == Drainer(|c.offered|, None) && !c'.state.waiterActive && Waiters(c'.tasks) == 0
  {
    hide Sum, Slots, Waiters, Held, Conserved, UnderCeiling, Bounded, Exact;
    TasksReplace(c.tasks, i, [Drainer(c.state.nextSeq, None)]);
    Alone(Waiter(None));
    Alone(Drainer(c.state.nextSeq, None));
    TaskIsPart(c.tasks, i);
  }

  /** A chunk may stop short of a huge record that is not the first one. */
  lemma {:induction false} HugeStays(s: State, huge: Log, nowMs: real)
    requires |s.logs| == 1 && 0 < s.bytes == s.logs[0].len < FLUSH_BYTES && s.inFlight == 0
    requires MAX_BUFFER_BYTES <= huge.encodedLen && huge.encodedLen + FLUSH_BYTES <= USIZE_MAX
    ensures Offer(s, huge, nowMs).0.bytes == huge.encodedLen
  {
    var e, pushed := s.logs[0], Push(s, huge, nowMs);
    assert ChunkFrom(pushed.logs, None, 0, 0) == ChunkFrom(pushed.logs, None, 1, e.len) == 1;
    assert Chunk(pushed, None) == [e];
    assert BytesFrom([e], 0) == BytesFrom([], e.len) == e.len;
  }

  /** For instance, a small record ahead of one as long as the ceiling leaves that one behind. */
  lemma {:induction false} HugeRecordExceedsCeiling(small: Log, huge: Log, nowMs: real)
    requires 0 < small.encodedLen < FLUSH_BYTES && MAX_BUFFER_BYTES <= huge.encodedLen
        && huge.encodedLen + FLUSH_BYTES <= USIZE_MAX
    ensures var steps := [Offering(small, nowMs), Offering(huge, nowMs)];
            Runs(START, steps) && Reached(START, steps).state.bytes == huge.encodedLen >= MAX_BUFFER_BYTES
  {
    var first, second := Offering(small, nowMs), Offering(huge, nowMs);
    var e := NewEntry(START.state, small, nowMs);
    var c := Apply(START, first);
    assert c.state.logs == [e] && Sum([e]) == small.encodedLen;
    HugeStays(c.state, huge, nowMs);
    hide Offer;
    assert [first, second][1..] == [second] && [second][1..] == [];
    assert Enabled(c, second) && Runs(Apply(c, second), []) && Reached(Apply(c, second), []) == Apply(c, second);
    assert Runs(c, [second]);
  }
}
