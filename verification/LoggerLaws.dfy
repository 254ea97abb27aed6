/**
 The shared resolve logger under any schedule: threads that log a resolve, and threads that checkpoint. A cell is one
 `RwLock<Option<..>>`; a checkpoint swaps in a new cell, waits for the readers of the old one and takes its content.
 */
module LoggerLaws {
  import opened Wrappers
  import opened Flags
  import opened ResolveLogger
  import Counters

  /** A thread in `with_state`: it has loaded a cell, then holds its read lock while it counts. */
  datatype Phase = Idle | Loaded(cell: nat) | Reading(cell: nat, done: nat) | Finished(cell: nat)

  /** `since` is the cell current when the thread began, `retriedOn` the cells it had to give up. */
  datatype Logger = Logger(values: seq<AssignedFlag>, phase: Phase, since: nat, retriedOn: seq<nat>) {
    function Work(): seq<Counter> { Events(values) }
  }

  datatype Stage = Swapped | Locked | Taken(report: Counts) | Released(report: Counts)

  datatype Checkpointer = Checkpointer(cell: nat, stage: Stage)

  datatype Shared = Shared(cells: seq<Option<Counts>>, current: nat, loggers: seq<Logger>,
      checkpointers: seq<Checkpointer>)

  datatype Step =
    | Begin(values: seq<AssignedFlag>)
    | Load(i: nat)
    | TryRead(i: nat)
    | FailRead(i: nat)
    | Count(i: nat)
    | Release(i: nat)
    | Swap
    | Lock(j: nat)
    | Take(j: nat)
    | Unlock(j: nat)

  predicate Writing(c: Checkpointer) { c.stage.Locked? || c.stage.Taken? }

  predicate WriteHeld(s: Shared, cell: nat) {
    exists j | 0 <= j < |s.checkpointers| :: s.checkpointers[j].cell == cell && Writing(s.checkpointers[j])
  }

  /** A writer that holds the lock or waits for it may make a try fail. */
  predicate Contended(s: Shared, cell: nat) {
    exists j | 0 <= j < |s.checkpointers| :: s.checkpointers[j].cell == cell && !s.checkpointers[j].stage.Released?
  }

  predicate ReadHeld(s: Shared, cell: nat) {
    exists i | 0 <= i < |s.loggers| :: s.loggers[i].phase.Reading? && s.loggers[i].phase.cell == cell
  }

  predicate Enabled(s: Shared, step: Step) {
    match step
    case Begin(_) => true
    case Swap => true
    case Load(i) => i < |s.loggers| && s.loggers[i].phase.Idle?
    case TryRead(i) =>
      && i < |s.loggers| && s.loggers[i].phase.Loaded? && s.loggers[i].phase.cell < |s.cells|
      && !WriteHeld(s, s.loggers[i].phase.cell)
    case FailRead(i) => i < |s.loggers| && s.loggers[i].phase.Loaded? && Contended(s, s.loggers[i].phase.cell)
    case Count(i) =>
      && i < |s.loggers| && s.loggers[i].phase.Reading?
      && s.loggers[i].phase.done < |s.loggers[i].Work()| && s.loggers[i].phase.cell < |s.cells|
    case Release(i) => i < |s.loggers| && s.loggers[i].phase.Reading?
        && s.loggers[i].phase.done == |s.loggers[i].Work()|
    case Lock(j) =>
      && j < |s.checkpointers| && s.checkpointers[j].stage.Swapped?
      && !ReadHeld(s, s.checkpointers[j].cell) && !WriteHeld(s, s.checkpointers[j].cell)
    case Take(j) => j < |s.checkpointers| && s.checkpointers[j].stage.Locked? && s.checkpointers[j].cell < |s.cells|
    case Unlock(j) => j < |s.checkpointers| && s.checkpointers[j].stage.Taken?
  }

  function Retry(l: Logger): Logger
    requires l.phase.Loaded?
  {
    l.(phase := Idle, retriedOn := l.retriedOn + [l.phase.cell])
  }

  function Apply(s: Shared, step: Step): Shared
    requires Enabled(s, step)
  {
    match step
    case Begin(values) => s.(loggers := s.loggers + [Logger(values, Idle, s.current, [])])
    case Load(i) => s.(loggers := s.loggers[i := s.loggers[i].(phase := Loaded(s.current))])
    case TryRead(i) =>
      var l := s.loggers[i];
      s.(loggers := s.loggers[i := if s.cells[l.phase.cell].Some? then l.(phase := Reading(l.phase.cell, 0))
          else Retry(l)])
    case FailRead(i) => s.(loggers := s.loggers[i := Retry(s.loggers[i])])
    case Count(i) =>
      var l := s.loggers[i];
      var k := l.phase.cell;
      s.(loggers := s.loggers[i := l.(phase := Reading(k, l.phase.done + 1))],
         cells := if s.cells[k].None? then s.cells
             else s.cells[k := Some(Bump(s.cells[k].value, l.Work()[l.phase.done]))])
    case Release(i) => s.(loggers := s.loggers[i := s.loggers[i].(phase := Finished(s.loggers[i].phase.cell))])
    case Swap =>
      Shared(s.cells + [Some(map[])], |s.cells|, s.loggers, s.checkpointers + [Checkpointer(s.current, Swapped)])
    case Lock(j) => s.(checkpointers := s.checkpointers[j := s.checkpointers[j].(stage := Locked)])
    case Take(j) =>
      var k := s.checkpointers[j].cell;
      s.(checkpointers := s.checkpointers[j := Checkpointer(k,
          Taken(if s.cells[k].Some? then s.cells[k].value else map[]))],
         cells := s.cells[k := None])
    case Unlock(j) =>
      var c := s.checkpointers[j];
      s.(checkpointers := s.checkpointers[j := c.(stage := Released(c.stage.report))])
  }

  const START := Shared([Some(map[])], 0, [], [])

  // ----- What has been counted where

  /** The increments a thread has made in a cell. */
  function Part(l: Logger, cell: nat): seq<Counter> {
    match l.phase
    case Reading(k, done) => if k == cell && done <= |l.Work()| then l.Work()[..done] else []
    case Finished(k) => if k == cell then l.Work() else []
    case _ => []
  }

  function Landed(loggers: seq<Logger>, cell: nat): seq<Counter> {
    if loggers == [] then [] else Part(loggers[0], cell) + Landed(loggers[1..], cell)
  }

  lemma {:induction false} LandedUpdate(loggers: seq<Logger>, i: nat, l: Logger, cell: nat, c: Counter)
    requires i < |loggers|
    ensures Times(Landed(loggers[i := l], cell), c) + Times(Part(loggers[i], cell), c)
         == Times(Landed(loggers, cell), c) + Times(Part(l, cell), c)
    decreases |loggers|
  {
    var updated := loggers[i := l];
    TimesAppend(Part(loggers[0], cell), Landed(loggers[1..], cell), c);
    TimesAppend(Part(updated[0], cell), Landed(updated[1..], cell), c);
    if i > 0 {
      assert updated[1..] == loggers[1..][i - 1 := l];
      LandedUpdate(loggers[1..], i - 1, l, cell, c);
    } else {
      assert updated[1..] == loggers[1..];
    }
  }

  lemma {:induction false} LandedAppend(loggers: seq<Logger>, l: Logger, cell: nat, c: Counter)
    ensures Times(Landed(loggers + [l], cell), c) == Times(Landed(loggers, cell), c) + Times(Part(l, cell), c)
    decreases |loggers|
  {
    if loggers == [] {
      assert [l][1..] == [];
      TimesAppend(Part(l, cell), [], c);
      assert loggers + [l] == [l];
    } else {
      var all := loggers + [l];
      assert all[1..] == loggers[1..] + [l];
      LandedAppend(loggers[1..], l, cell, c);
      TimesAppend(Part(loggers[0], cell), Landed(loggers[1..], cell), c);
      TimesAppend(Part(loggers[0], cell), Landed(all[1..], cell), c);
    }
  }

  // ----- The invariant

  /** Checkpoint `j` is the one that swapped out cell `j`; the last cell is the current one. */
  ghost predicate Swaps(s: Shared) {
    && |s.cells| == s.current + 1 == |s.checkpointers| + 1
    && (forall j :: 0 <= j < |s.checkpointers| ==> s.checkpointers[j].cell == j)
    && (forall k :: 0 <= k < |s.cells| ==> (s.cells[k].None? <==> k < s.current && Spent(s.checkpointers[k])))
  }

  predicate Spent(c: Checkpointer) { c.stage.Taken? || c.stage.Released? }

  ghost predicate Increasing(cells: seq<nat>, low: nat, high: nat) {
    && (forall i :: 0 <= i < |cells| ==> low <= cells[i] < high)
    && (forall i, j :: 0 <= i < j < |cells| ==> cells[i] < cells[j])
  }

  /** A retried cell is one that was swapped out while the thread was under way, and a later one every time. */
  ghost predicate Sound(s: Shared, l: Logger) {
    && l.since <= s.current
    && Increasing(l.retriedOn, l.since, if l.phase.Loaded? then l.phase.cell else s.current)
    && (l.phase.Loaded? ==> l.since <= l.phase.cell <= s.current)
    && (l.phase.Finished? ==> l.phase.cell <= s.current)
    && (l.phase.Reading? ==>
          && l.phase.cell <= s.current && l.phase.done <= |l.Work()|
          && (l.phase.cell < s.current ==>
              l.phase.cell < |s.checkpointers| && s.checkpointers[l.phase.cell].stage.Swapped?))
  }

  function Content(s: Shared, cell: nat): Counts
    requires Swaps(s) && cell < |s.cells|
  {
    if s.cells[cell].Some? then s.cells[cell].value else s.checkpointers[cell].stage.report
  }

  /** Each cell, live or taken, holds exactly the increments that landed in it, modulo 2^32. */
  ghost predicate Counted(s: Shared) {
    Swaps(s) && forall k, c :: 0 <= k < |s.cells| ==> At(Content(s, k), c) == Times(Landed(s.loggers, k), c) % U32
  }

  ghost predicate Invariant(s: Shared) {
    Swaps(s) && Counted(s) && forall i :: 0 <= i < |s.loggers| ==> Sound(s, s.loggers[i])
  }

  /** A logger step that counts nothing. */
  lemma {:induction false} QuietStep(s: Shared, s': Shared, i: nat, l: Logger)
    requires Invariant(s) && i < |s.loggers| && s' == s.(loggers := s.loggers[i := l])
    requires Sound(s, l) && forall k :: Part(l, k) == Part(s.loggers[i], k)
    ensures Invariant(s')
  {
    hide Times, Landed, Part;
    forall k, c | 0 <= k < |s.cells| ensures At(Content(s', k), c) == Times(Landed(s'.loggers, k), c) % U32 {
      LandedUpdate(s.loggers, i, l, k, c);
    }
  }

  lemma {:induction false} BeginKeeps(s: Shared, values: seq<AssignedFlag>)
    requires Invariant(s)
    ensures Invariant(Apply(s, Begin(values)))
  {
    hide Landed;
    var l := Logger(values, Idle, s.current, []);
    var s' := Apply(s, Begin(values));
    forall k, c | 0 <= k < |s.cells| ensures At(Content(s', k), c) == Times(Landed(s'.loggers, k), c) % U32 {
      LandedAppend(s.loggers, l, k, c);
    }
  }

  lemma {:induction false} TryReadKeeps(s: Shared, i: nat)
    requires Invariant(s) && Enabled(s, TryRead(i))
    ensures Invariant(Apply(s, TryRead(i)))
  {
    hide Landed, Counted;
    var l := s.loggers[i];
    var k := l.phase.cell;
    assert Sound(s, l);
    if s.cells[k].Some? {
      assert k < s.current ==> !Writing(s.checkpointers[k]);
      QuietStep(s, Apply(s, TryRead(i)), i, l.(phase := Reading(k, 0)));
    } else {
      QuietStep(s, Apply(s, TryRead(i)), i, Retry(l));
    }
  }

  lemma {:induction false} CountLands(s: Shared, i: nat, k: nat, c: Counter)
    requires Invariant(s) && Enabled(s, Count(i)) && k < |s.cells|
    ensures var s' := Apply(s, Count(i)); Swaps(s') && At(Content(s', k), c) == Times(Landed(s'.loggers, k), c) % U32
  {
    hide Landed, Times, Events;
    var l := s.loggers[i];
    var done := l.phase.done;
    assert Sound(s, l);
    LandedUpdate(s.loggers, i, l.(phase := Reading(l.phase.cell, done + 1)), k, c);
    assert l.Work()[..done + 1] == l.Work()[..done] + [l.Work()[done]];
    TimesAppend(l.Work()[..done], [l.Work()[done]], c);
    TimesOne(l.Work()[done], c);
    assert At(Content(s, k), c) == Times(Landed(s.loggers, k), c) % U32;
  }

  lemma {:induction false} CountKeeps(s: Shared, i: nat)
    requires Invariant(s) && Enabled(s, Count(i))
    ensures Invariant(Apply(s, Count(i)))
  {
    hide Landed, Times, Events;
    var l, s' := s.loggers[i], Apply(s, Count(i));
    assert Sound(s, l);
    forall j | 0 <= j < |s'.loggers| ensures Sound(s', s'.loggers[j]) {
      assert Sound(s, s.loggers[j]);
    }
    assert Swaps(s');
    forall k, c | 0 <= k < |s'.cells| ensures At(Content(s', k), c) == Times(Landed(s'.loggers, k), c) % U32 {
      CountLands(s, i, k, c);
    }
  }

  lemma {:induction false} TimesOne(e: Counter, c: Counter)
    ensures Times([e], c) == if e == c then 1 else 0
  {
    assert [e][1..] == [];
  }

  lemma {:induction false} FarLanded(loggers: seq<Logger>, cell: nat, c: Counter)
    requires forall i :: 0 <= i < |loggers| ==> Part(loggers[i], cell) == []
    ensures Times(Landed(loggers, cell), c) == 0
  {
    if loggers != [] {
      assert Part(loggers[0], cell) == [];
      FarLanded(loggers[1..], cell, c);
      assert Landed(loggers, cell) == Landed(loggers[1..], cell);
    }
  }

  lemma {:induction false} SwapKeeps(s: Shared)
    requires Invariant(s)
    ensures Invariant(Apply(s, Swap))
  {
    var s' := Apply(s, Swap);
    assert forall i :: 0 <= i < |s.loggers| ==> Sound(s, s.loggers[i]) && Sound(s', s.loggers[i]);
    forall k, c | 0 <= k < |s'.cells| ensures At(Content(s', k), c) == Times(Landed(s'.loggers, k), c) % U32 {
      if k == |s.cells| {
        FarLanded(s.loggers, k, c);
      } else {
        assert At(Content(s, k), c) == Times(Landed(s.loggers, k), c) % U32;
      }
    }
  }

  lemma {:induction false} CheckpointKeeps(s: Shared, step: Step)
    requires Invariant(s) && Enabled(s, step) && (step.Lock? || step.Take? || step.Unlock?)
    ensures Invariant(Apply(s, step))
  {
    hide Landed, Times;
    var s' := Apply(s, step);
    assert Swaps(s');
    forall i | 0 <= i < |s.loggers| ensures Sound(s', s.loggers[i]) {
      assert Sound(s, s.loggers[i]);
    }
    forall k, c | 0 <= k < |s.cells| ensures At(Content(s', k), c) == Times(Landed(s'.loggers, k), c) % U32 {
      assert At(Content(s, k), c) == Times(Landed(s.loggers, k), c) % U32;
    }
  }

  lemma {:induction false} StepKeeps(s: Shared, step: Step)
    requires Invariant(s) && Enabled(s, step)
    ensures Invariant(Apply(s, step))
  {
    hide Landed, Counted, Swaps;
    match step
    case Begin(values) => BeginKeeps(s, values);
    case Load(i) => assert Sound(s, s.loggers[i]); QuietStep(s, Apply(s, step), i,
        s.loggers[i].(phase := Loaded(s.current)));
    case TryRead(i) => TryReadKeeps(s, i);
    case FailRead(i) => FailReadKeeps(s, i);
    case Count(i) => CountKeeps(s, i);
    case Release(i) => ReleaseKeeps(s, i);
    case Swap => SwapKeeps(s);
    case Lock(_) => CheckpointKeeps(s, step);
    case Take(_) => CheckpointKeeps(s, step);
    case Unlock(_) => CheckpointKeeps(s, step);
  }

  lemma {:induction false} FailReadKeeps(s: Shared, i: nat)
    requires Invariant(s) && Enabled(s, FailRead(i))
    ensures Invariant(Apply(s, FailRead(i)))
  {
    hide Landed, Counted;
    assert Sound(s, s.loggers[i]);
    QuietStep(s, Apply(s, FailRead(i)), i, Retry(s.loggers[i]));
  }

  lemma {:induction false} ReleaseKeeps(s: Shared, i: nat)
    requires Invariant(s) && Enabled(s, Release(i))
    ensures Invariant(Apply(s, Release(i)))
  {
    hide Landed, Counted;
    var l := s.loggers[i];
    assert Sound(s, l) && l.Work()[..|l.Work()|] == l.Work();
    QuietStep(s, Apply(s, Release(i)), i, l.(phase := Finished(l.phase.cell)));
  }

  // ----- Every run

  predicate Runs(s: Shared, steps: seq<Step>)
    decreases |steps|
  {
    steps == [] || (Enabled(s, steps[0]) && Runs(Apply(s, steps[0]), steps[1..]))
  }

  function Reached(s: Shared, steps: seq<Step>): Shared
    requires Runs(s, steps)
    decreases |steps|
  {
    if steps == [] then s else Reached(Apply(s, steps[0]), steps[1..])
  }

  lemma {:induction false} RunKeeps(s: Shared, steps: seq<Step>)
    requires Invariant(s) && Runs(s, steps)
    ensures Invariant(Reached(s, steps))
    decreases |steps|
  {
    if steps != [] {
      StepKeeps(s, steps[0]);
      RunKeeps(Apply(s, steps[0]), steps[1..]);
    }
  }

  lemma {:induction false} EveryRunIsSound(steps: seq<Step>)
    requires Runs(START, steps)
    ensures Invariant(Reached(START, steps))
  {
    assert Landed([], 0) == [];
    RunKeeps(START, steps);
  }

  // ----- What a reader of the checkpoints gets

  /** All values logged by threads that ended up in a cell. */
  function ValuesIn(loggers: seq<Logger>, cell: nat): seq<AssignedFlag> {
    if loggers == [] then []
    else (if loggers[0].phase == Finished(cell) then loggers[0].values else []) + ValuesIn(loggers[1..], cell)
  }

  lemma {:induction false} EventsAppend(a: seq<AssignedFlag>, b: seq<AssignedFlag>)
    ensures Events(a + b) == Events(a) + Events(b)
    decreases |a|
  {
    if a == [] {
      assert a + b == b;
    } else {
      assert (a + b)[1..] == a[1..] + b;
      EventsAppend(a[1..], b);
    }
  }

  lemma {:induction false} LandedWhole(loggers: seq<Logger>, cell: nat)
    requires forall i :: 0 <= i < |loggers| ==> !(loggers[i].phase.Reading? && loggers[i].phase.cell == cell)
    ensures Landed(loggers, cell) == Events(ValuesIn(loggers, cell))
  {
    if loggers != [] {
      assert !(loggers[0].phase.Reading? && loggers[0].phase.cell == cell);
      LandedWhole(loggers[1..], cell);
      EventsAppend(if loggers[0].phase == Finished(cell) then loggers[0].values else [], ValuesIn(loggers[1..], cell));
    }
  }

  /**
   What a checkpoint reports: the whole of each resolve that ended up in its cell and no part of any other, the same
   totals as their single-request logs add up to. Its cell is its own, and nobody will write to it again.
   */
  lemma {:induction false} CheckpointsAreWhole(s: Shared, j: nat, c: Counter)
    requires Invariant(s) && j < |s.checkpointers| && Spent(s.checkpointers[j])
    ensures s.checkpointers[j].cell == j && s.cells[j].None?
    ensures forall i :: 0 <= i < |s.loggers| && s.loggers[i].phase.Reading? ==> s.loggers[i].phase.cell != j
    ensures At(s.checkpointers[j].stage.report, c) == LogTotal(BuildResolveLog(ValuesIn(s.loggers, j)), c) % U32
  {
    hide Landed, Times, Events;
    forall i | 0 <= i < |s.loggers| && s.loggers[i].phase.Reading? ensures s.loggers[i].phase.cell != j {
      assert Sound(s, s.loggers[i]);
    }
    LandedWhole(s.loggers, j);
    LogTotalsAreTheIncrements(ValuesIn(s.loggers, j), c);
    assert At(Content(s, j), c) == Times(Landed(s.loggers, j), c) % U32;
  }

  /** The sum of a rule's assignment counters, over any listing of its assignment ids. */
  function AssignmentSum(counts: Counts, flag: string, rule: string, ids: seq<string>): nat {
    if ids == [] then 0
    else At(counts, AssignmentCount(flag, rule, ids[0])) + AssignmentSum(counts, flag, rule, ids[1..])
  }

  function TimesSum(events: seq<Counter>, flag: string, rule: string, ids: seq<string>): nat {
    if ids == [] then 0 else Times(events, AssignmentCount(flag, rule, ids[0])) + TimesSum(events, flag, rule, ids[1..])
  }

  ghost predicate Unique(ids: seq<string>) { forall i, j :: 0 <= i < j < |ids| ==> ids[i] != ids[j] }

  lemma {:induction false} TimesSumCons(events: seq<Counter>, flag: string, rule: string, ids: seq<string>)
    requires events != [] && Unique(ids)
    ensures var e := events[0];
            TimesSum(events, flag, rule, ids) == TimesSum(events[1..], flag, rule, ids)
              + (if e.AssignmentCount? && e.flag == flag && e.rule == rule && e.assignmentId in ids then 1 else 0)
    decreases |ids|
  {
    if ids != [] {
      assert forall id :: id in ids <==> id == ids[0] || id in ids[1..];
      TimesSumCons(events, flag, rule, ids[1..]);
    }
  }

  lemma {:induction false} TimesSumIsOfRule(events: seq<Counter>, flag: string, rule: string, ids: seq<string>)
    requires Unique(ids)
    requires forall a :: AssignmentCount(flag, rule, a) in events ==> a in ids
    ensures TimesSum(events, flag, rule, ids) == OfRule(events, flag, rule)
    decreases |events|
  {
    if events == [] {
      TimesSumNone(flag, rule, ids);
    } else {
      assert forall e :: e in events[1..] ==> e in events;
      TimesSumCons(events, flag, rule, ids);
      TimesSumIsOfRule(events[1..], flag, rule, ids);
    }
  }

  lemma {:induction false} TimesSumNone(flag: string, rule: string, ids: seq<string>)
    ensures TimesSum([], flag, rule, ids) == 0
  {
    if ids != [] {
      TimesSumNone(flag, rule, ids[1..]);
    }
  }

  lemma {:induction false} AssignmentSumWraps(counts: Counts, events: seq<Counter>, flag: string, rule: string,
      ids: seq<string>)
    requires forall a ::
               At(counts, AssignmentCount(flag, rule, a)) == Times(events, AssignmentCount(flag, rule, a)) % U32
    ensures AssignmentSum(counts, flag, rule, ids) % U32 == TimesSum(events, flag, rule, ids) % U32
  {
    if ids != [] {
      AssignmentSumWraps(counts, events, flag, rule, ids[1..]);
      ModAdd(Times(events, AssignmentCount(flag, rule, ids[0])), AssignmentSum(counts, flag, rule, ids[1..]),
             TimesSum(events, flag, rule, ids[1..]));
    }
  }

  lemma ModAdd(a: nat, b: nat, b': nat)
    requires b % U32 == b' % U32
    ensures (a % U32 + b) % U32 == (a + b') % U32
  {
    Counters.AddReduced(a, b, U32);
    Counters.AddReduced(a, b', U32);
    Counters.AddReduced(b, a, U32);
  }

  /** In every checkpoint, a rule's count is the sum of its assignment counts (both wrap at 2^32). */
  lemma {:induction false} RulesMatchAssignments(s: Shared, j: nat, flag: string, rule: string, ids: seq<string>)
    requires Invariant(s) && j < |s.checkpointers| && Spent(s.checkpointers[j]) && Unique(ids)
    requires forall a :: AssignmentCount(flag, rule, a) in Events(ValuesIn(s.loggers, j)) ==> a in ids
    ensures var report := s.checkpointers[j].stage.report;
            At(report, RuleCount(flag, rule)) == AssignmentSum(report, flag, rule, ids) % U32
  {
    hide Landed, Times, Events, LogTotal, BuildResolveLog;
    var report, values := s.checkpointers[j].stage.report, ValuesIn(s.loggers, j);
    forall c ensures At(report, c) == Times(Events(values), c) % U32 {
      CheckpointsAreWhole(s, j, c);
      LogTotalsAreTheIncrements(values, c);
    }
    EventsPair(values, flag, rule);
    TimesSumIsOfRule(Events(values), flag, rule, ids);
    AssignmentSumWraps(report, Events(values), flag, rule, ids);
  }

  // ----- Nothing lost, nothing counted twice

  /** The increments a thread has made so far. */
  function Made(l: Logger): seq<Counter> {
    match l.phase
    case Reading(k, _) => Part(l, k)
    case Finished(k) => Part(l, k)
    case _ => []
  }

  function MadeBy(loggers: seq<Logger>, c: Counter): nat {
    if loggers == [] then 0 else Times(Made(loggers[0]), c) + MadeBy(loggers[1..], c)
  }

  function LandedSum(loggers: seq<Logger>, n: nat, c: Counter): nat {
    if n == 0 then 0 else LandedSum(loggers, n - 1, c) + Times(Landed(loggers, n - 1), c)
  }

  function PartSum(l: Logger, n: nat, c: Counter): nat {
    if n == 0 then 0 else PartSum(l, n - 1, c) + Times(Part(l, n - 1), c)
  }

  lemma {:induction false} PartSumIsMade(l: Logger, n: nat, c: Counter)
    requires (l.phase.Reading? || l.phase.Finished?) ==> l.phase.cell < n
    ensures PartSum(l, n, c) == Times(Made(l), c)
  {
    if n > 0 {
      if (l.phase.Reading? || l.phase.Finished?) && l.phase.cell == n - 1 {
        PartSumBelow(l, n - 1, c);
      } else {
        PartSumIsMade(l, n - 1, c);
      }
    }
  }

  lemma {:induction false} PartSumBelow(l: Logger, n: nat, c: Counter)
    requires (l.phase.Reading? || l.phase.Finished?) && l.phase.cell >= n
    ensures PartSum(l, n, c) == 0
  {
    if n > 0 {
      PartSumBelow(l, n - 1, c);
    }
  }

  lemma {:induction false} LandedSumCons(loggers: seq<Logger>, n: nat, c: Counter)
    requires loggers != []
    ensures LandedSum(loggers, n, c) == PartSum(loggers[0], n, c) + LandedSum(loggers[1..], n, c)
    decreases n
  {
    if n > 0 {
      LandedSumCons(loggers, n - 1, c);
      TimesAppend(Part(loggers[0], n - 1), Landed(loggers[1..], n - 1), c);
    }
  }

  lemma {:induction false} LandedSumIsMade(loggers: seq<Logger>, n: nat, c: Counter)
    requires forall i :: 0 <= i < |loggers| && (loggers[i].phase.Reading? || loggers[i].phase.Finished?) ==>
        loggers[i].phase.cell < n
    ensures LandedSum(loggers, n, c) == MadeBy(loggers, c)
    decreases |loggers|
  {
    if loggers == [] {
      LandedSumNone(n, c);
    } else {
      assert (loggers[0].phase.Reading? || loggers[0].phase.Finished?) ==> loggers[0].phase.cell < n;
      LandedSumCons(loggers, n, c);
      PartSumIsMade(loggers[0], n, c);
      LandedSumIsMade(loggers[1..], n, c);
    }
  }

  lemma {:induction false} LandedSumNone(n: nat, c: Counter)
    ensures LandedSum([], n, c) == 0
  {
    if n > 0 {
      LandedSumNone(n - 1, c);
    }
  }

  /** A counter summed over the first `n` cells, whether taken by a checkpoint or still live. */
  function ContentSum(s: Shared, n: nat, c: Counter): nat
    requires Swaps(s) && n <= |s.cells|
  {
    if n == 0 then 0 else ContentSum(s, n - 1, c) + At(Content(s, n - 1), c)
  }

  lemma {:induction false} ContentSumWraps(s: Shared, n: nat, c: Counter)
    requires Counted(s) && n <= |s.cells|
    ensures ContentSum(s, n, c) % U32 == LandedSum(s.loggers, n, c) % U32
  {
    hide Times, Landed, At, Content;
    if n > 0 {
      ContentSumWraps(s, n - 1, c);
      ModAdd(Times(Landed(s.loggers, n - 1), c), ContentSum(s, n - 1, c), LandedSum(s.loggers, n - 1, c));
    }
  }

  lemma {:induction false} ContentSumIsExact(s: Shared, n: nat, c: Counter)
    requires Counted(s) && n <= |s.cells| && forall k :: 0 <= k < n ==> Times(Landed(s.loggers, k), c) < U32
    ensures ContentSum(s, n, c) == LandedSum(s.loggers, n, c)
  {
    hide Times, Landed, At, Content;
    if n > 0 {
      ContentSumIsExact(s, n - 1, c);
    }
  }

  /**
   All checkpoints and the live cell together hold each increment made, once: exactly, where no cell's counter
   wrapped.
   */
  lemma {:induction false} NothingIsLost(s: Shared, c: Counter)
    requires Invariant(s)
    ensures ContentSum(s, |s.cells|, c) % U32 == MadeBy(s.loggers, c) % U32
    ensures (forall k :: 0 <= k < |s.cells| ==> Times(Landed(s.loggers, k), c) < U32) ==>
        ContentSum(s, |s.cells|, c) == MadeBy(s.loggers, c)
  {
    hide Times, Landed;
    ContentSumWraps(s, |s.cells|, c);
    if forall k :: 0 <= k < |s.cells| ==> Times(Landed(s.loggers, k), c) < U32 {
      ContentSumIsExact(s, |s.cells|, c);
    }
    forall i | 0 <= i < |s.loggers| && (s.loggers[i].phase.Reading? || s.loggers[i].phase.Finished?)
      ensures s.loggers[i].phase.cell < |s.cells|
    {
      assert Sound(s, s.loggers[i]);
    }
    LandedSumIsMade(s.loggers, |s.cells|, c);
  }

  // ----- Retries

  lemma {:induction false} IncreasingFits(cells: seq<nat>, low: nat, high: nat)
    requires Increasing(cells, low, high) && low <= high
    ensures |cells| <= high - low
  {
    if cells != [] {
      var last := |cells| - 1;
      IncreasingFits(cells[..last], low, cells[last]);
    }
  }

  /**
   A thread retries at most once for each checkpoint that swapped since it began: each retry gives up a cell of its
   own.
   */
  lemma {:induction false} RetriesAreCharged(s: Shared, i: nat)
    requires Invariant(s) && i < |s.loggers|
    ensures var l := s.loggers[i];
            && |l.retriedOn| <= s.current - l.since
            && forall a, b :: 0 <= a < b < |l.retriedOn| ==> l.retriedOn[a] != l.retriedOn[b]
    ensures forall a :: 0 <= a < |s.loggers[i].retriedOn| ==>
              var k := s.loggers[i].retriedOn[a];
              s.loggers[i].since <= k < |s.checkpointers| && s.checkpointers[k].cell == k
  {
    var l := s.loggers[i];
    assert Sound(s, l);
    assert Increasing(l.retriedOn, l.since, s.current);
    IncreasingFits(l.retriedOn, l.since, s.current);
  }

  /** The current cell never turns a thread away. */
  lemma {:induction false} CurrentCellIsFree(s: Shared, i: nat)
    requires Invariant(s) && i < |s.loggers| && s.loggers[i].phase == Loaded(s.current)
    ensures Enabled(s, TryRead(i)) && !Enabled(s, FailRead(i))
    ensures Apply(s, TryRead(i)).loggers[i].phase == Reading(s.current, 0)
  {
  }

  /**
   What a thread can do next. A try for a cell goes through unless its checkpointer has the lock, and may fail from the
   swap to the release; one of the two is always possible. A thread that has counted everything can leave.
   */
  lemma {:induction false} LoggersGoOn(s: Shared, i: nat)
    requires Invariant(s) && i < |s.loggers|
    ensures match s.loggers[i].phase
            case Idle => Enabled(s, Load(i))
            case Loaded(k) =>
              && (Enabled(s, TryRead(i)) <==>
                   k == s.current || s.checkpointers[k].stage.Swapped? || s.checkpointers[k].stage.Released?)
              && (Enabled(s, FailRead(i)) <==> k < s.current && !s.checkpointers[k].stage.Released?)
            case Reading(k, done) =>
              if done < |Events(s.loggers[i].values)| then Enabled(s, Count(i)) else Enabled(s, Release(i))
            case Finished(_) => true
  {
    var l := s.loggers[i];
    assert Sound(s, l);
  }

  /** What a checkpointer can do next: only readers of its own cell keep it waiting, and these can go on. */
  lemma {:induction false} CheckpointersGoOn(s: Shared, j: nat)
    requires Invariant(s) && j < |s.checkpointers|
    ensures match s.checkpointers[j].stage
            case Swapped => Enabled(s, Lock(j)) <==>
              forall i :: 0 <= i < |s.loggers| ==> !(s.loggers[i].phase.Reading? && s.loggers[i].phase.cell == j)
            case Locked => Enabled(s, Take(j))
            case Taken(_) => Enabled(s, Unlock(j))
            case Released(_) => true
  {
  }
}
