/**
 The bounded sample set under concurrent inserts. An item is a counted reference: `values` and `refs` give the value
 and the reference count of each allocation. The set keeps one reference, found by value, and a slot another, found by
 index.
 */
module BoundedSet {
  import opened Wrappers

  /** Where an insert stands between two atomic operations. It owns the reference it names (both, while `Fresh`). */
  datatype Phase =
    | Fresh(id: nat)
    | Inserted(id: nat)
    | Picked(id: nat, slot: nat)
    | Evicting(id: nat)
    | Dropping(id: nat)
    | Done

  /** `counter` counts the inserts of new values; it is not expected to pass the width of the machine word. */
  datatype State = State(members: map<string, nat>, slots: seq<Option<nat>>, counter: nat,
                         values: seq<string>, refs: seq<nat>, threads: seq<Phase>)

  datatype Step =
    | Begin(value: string)
    | TryInsert(i: nat)
    | Pick(i: nat, random: nat)
    | Swap(i: nat)
    | Remove(i: nat)
    | Release(i: nat)

  predicate Enabled(s: State, step: Step) {
    match step
    case Begin(_) => true
    case TryInsert(i) => i < |s.threads| && s.threads[i].Fresh? && s.threads[i].id < |s.values| == |s.refs|
    case Pick(i, random) => i < |s.threads| && s.threads[i].Inserted? && random <= |s.slots|
    case Swap(i) => i < |s.threads| && s.threads[i].Picked?
    case Remove(i) => i < |s.threads| && s.threads[i].Evicting? && s.threads[i].id < |s.values| == |s.refs|
    case Release(i) => i < |s.threads| && s.threads[i].Dropping? && s.threads[i].id < |s.refs|
  }

  function Unref(refs: seq<nat>, id: nat): seq<nat> {
    if id < |refs| && refs[id] > 0 then refs[id := refs[id] - 1] else refs
  }

  function Apply(s: State, step: Step): State
    requires Enabled(s, step)
  {
    match step
    case Begin(value) =>
      if |s.slots| == 0 then s
      else s.(values := s.values + [value], refs := s.refs + [2], threads := s.threads + [Fresh(|s.values|)])
    case TryInsert(i) =>
      var id := s.threads[i].id;
      if s.values[id] in s.members then s.(refs := Unref(s.refs, id), threads := s.threads[i := Dropping(id)])
      else s.(members := s.members[s.values[id] := id], threads := s.threads[i := Inserted(id)])
    case Pick(i, random) =>
      var slot := if s.counter < |s.slots| then s.counter else random;
      s.(counter := s.counter + 1, threads := s.threads[i := Picked(s.threads[i].id, slot)])
    case Swap(i) =>
      var (id, slot) := (s.threads[i].id, s.threads[i].slot);
      if slot >= |s.slots| then s.(threads := s.threads[i := Evicting(id)])
      else s.(slots := s.slots[slot := Some(id)],
              threads := s.threads[i := if s.slots[slot].None? then Done else Evicting(s.slots[slot].value)])
    case Remove(i) =>
      var id := s.threads[i].id;
      var value := s.values[id];
      s.(members := s.members - {value}, refs := if value in s.members then Unref(s.refs, s.members[value]) else s.refs,
         threads := s.threads[i := Dropping(id)])
    case Release(i) => s.(refs := Unref(s.refs, s.threads[i].id), threads := s.threads[i := Done])
  }

  function Start(n: nat): State { State(map[], seq(n, _ => None), 0, [], [], []) }

  // ----- Who holds what

  function InSet(s: State, id: nat): nat {
    if id < |s.values| && s.values[id] in s.members && s.members[s.values[id]] == id then 1 else 0
  }

  function InSlots(slots: seq<Option<nat>>, id: nat): nat {
    if slots == [] then 0 else (if slots[0] == Some(id) then 1 else 0) + InSlots(slots[1..], id)
  }

  /** A thread keeps a value in the set alive from its insertion until it is in a slot or removed again. */
  function Carries(t: Phase, id: nat): nat { if (t.Inserted? || t.Picked? || t.Evicting?) && t.id == id then 1 else 0 }

  function Owns(t: Phase, id: nat): nat {
    match t
    case Done => 0
    case Fresh(k) => if k == id then 2 else 0
    case _ => if t.id == id then 1 else 0
  }

  function Carried(threads: seq<Phase>, id: nat): nat {
    if threads == [] then 0 else Carries(threads[0], id) + Carried(threads[1..], id)
  }

  function Owned(threads: seq<Phase>, id: nat): nat {
    if threads == [] then 0 else Owns(threads[0], id) + Owned(threads[1..], id)
  }

  lemma {:induction false} ThreadUpdate(threads: seq<Phase>, i: nat, t: Phase, id: nat)
    requires i < |threads|
    ensures Carried(threads[i := t], id) + Carries(threads[i], id) == Carried(threads, id) + Carries(t, id)
    ensures Owned(threads[i := t], id) + Owns(threads[i], id) == Owned(threads, id) + Owns(t, id)
    ensures Carried(threads, id) >= Carries(threads[i], id) && Owned(threads, id) >= Owns(threads[i], id)
    decreases |threads|
  {
    if i > 0 {
      assert threads[i := t][1..] == threads[1..][i - 1 := t];
      ThreadUpdate(threads[1..], i - 1, t, id);
    } else {
      assert threads[i := t][1..] == threads[1..];
    }
  }

  lemma {:induction false} ThreadAppend(threads: seq<Phase>, t: Phase, id: nat)
    ensures Carried(threads + [t], id) == Carried(threads, id) + Carries(t, id)
    ensures Owned(threads + [t], id) == Owned(threads, id) + Owns(t, id)
    decreases |threads|
  {
    if threads == [] {
      assert threads + [t] == [t] && [t][1..] == [];
    } else {
      assert (threads + [t])[1..] == threads[1..] + [t];
      ThreadAppend(threads[1..], t, id);
    }
  }

  lemma {:induction false} SlotUpdate(slots: seq<Option<nat>>, k: nat, slot: Option<nat>, id: nat)
    requires k < |slots|
    ensures InSlots(slots[k := slot], id) + (if slots[k] == Some(id) then 1 else 0)
        == InSlots(slots, id) + (if slot == Some(id) then 1 else 0)
    ensures slots[k] == Some(id) ==> InSlots(slots, id) >= 1
    decreases |slots|
  {
    if k > 0 {
      assert slots[k := slot][1..] == slots[1..][k - 1 := slot];
      SlotUpdate(slots[1..], k - 1, slot, id);
    } else {
      assert slots[k := slot][1..] == slots[1..];
    }
  }

  // ----- The invariant

  /**
   The set is the disjoint union of the slots and of what inserts under way carry, and each reference is counted: one in
   the set, one a slot, and those inserts own.
   */
  ghost predicate Balanced(s: State, id: nat) {
    && id < |s.values| == |s.refs|
    && InSet(s, id) == InSlots(s.slots, id) + Carried(s.threads, id)
    && s.refs[id] == InSet(s, id) + InSlots(s.slots, id) + Owned(s.threads, id)
  }

  ghost predicate Accounted(s: State) {
    |s.refs| == |s.values| && forall id :: 0 <= id < |s.values| ==> Balanced(s, id)
  }

  ghost predicate Known(s: State) {
    && (forall v :: v in s.members ==> s.members[v] < |s.values| && s.values[s.members[v]] == v)
    && (forall i :: 0 <= i < |s.threads| && !s.threads[i].Done? ==> s.threads[i].id < |s.values|)
    && (forall k :: 0 <= k < |s.slots| && s.slots[k].Some? ==> s.slots[k].value < |s.values|)
  }

  ghost predicate Awaited(s: State, slot: nat) {
    exists i :: 0 <= i < |s.threads| && s.threads[i].Picked? && s.threads[i].slot == slot
  }

  /** Slots fill in order: one the counter has passed is filled, or some insert is about to fill it. */
  ghost predicate Filling(s: State) {
    && (forall i :: 0 <= i < |s.threads| && s.threads[i].Picked? ==>
        s.threads[i].slot < s.counter || s.counter > |s.slots|)
    && (forall k :: 0 <= k < |s.slots| && s.slots[k].Some? ==> k < s.counter)
    && (forall k :: 0 <= k < |s.slots| && s.slots[k].None? && k < s.counter ==> Awaited(s, k))
  }

  /** Until more values than slots have come in, no insert evicts: each has an empty slot to itself. */
  ghost predicate Roomy(s: State) {
    (s.counter <= |s.slots| ==> SlotsToThemselves(s)) && (s.counter <= |s.slots| ==> Complete(s))
  }

  ghost predicate SlotsToThemselves(s: State) {
      && (forall i :: 0 <= i < |s.threads| ==> !s.threads[i].Evicting?)
      && (forall i :: 0 <= i < |s.threads| && s.threads[i].Picked? ==>
            s.threads[i].slot < |s.slots| && s.slots[s.threads[i].slot].None?)
      && (forall i, j :: 0 <= i < j < |s.threads| && s.threads[i].Picked? && s.threads[j].Picked? ==>
          s.threads[i].slot != s.threads[j].slot)
  }

  ghost predicate Complete(s: State) {
    forall id :: 0 <= id < |s.values| && Offered(s, id) ==> s.values[id] in s.members
  }

  /** The value has passed its insertion into the set, successful or not. */
  ghost predicate Offered(s: State, id: nat) {
    forall i :: 0 <= i < |s.threads| ==> s.threads[i] != Fresh(id)
  }

  ghost predicate Invariant(s: State) {
    Accounted(s) && Known(s) && Filling(s) && Roomy(s)
  }

  // ----- Preservation

  lemma {:induction false} TryInsertCounts(s: State, i: nat)
    requires Known(s) && Accounted(s) && Enabled(s, TryInsert(i))
    ensures Accounted(Apply(s, TryInsert(i)))
  {
    hide Carried, Owned, InSlots;
    var s', added := Apply(s, TryInsert(i)), s.threads[i].id;
    ThreadUpdate(s.threads, i, s'.threads[i], added);
    assert Balanced(s, added);
    forall id | 0 <= id < |s.values| ensures Balanced(s', id) {
      assert Balanced(s, id);
      ThreadUpdate(s.threads, i, s'.threads[i], id);
    }
  }

  lemma {:induction false} SwapCounts(s: State, i: nat)
    requires Known(s) && Accounted(s) && Enabled(s, Swap(i))
    ensures Accounted(Apply(s, Swap(i)))
  {
    hide Carried, Owned, InSlots;
    var s', slot := Apply(s, Swap(i)), s.threads[i].slot;
    forall id | 0 <= id < |s.values| ensures Balanced(s', id) {
      assert Balanced(s, id);
      ThreadUpdate(s.threads, i, s'.threads[i], id);
      if slot < |s.slots| {
        SlotUpdate(s.slots, slot, Some(s.threads[i].id), id);
      }
    }
  }

  /** The counts change only where the step says they do. */
  lemma {:induction false} StepCounts(s: State, step: Step)
    requires Known(s) && Accounted(s) && Enabled(s, step)
    ensures Accounted(Apply(s, step))
  {
    hide Carried, Owned, InSlots;
    var s' := Apply(s, step);
    match step
    case Begin(value) => BeginCounts(s, value);
    case TryInsert(i) => TryInsertCounts(s, i);
    case Swap(i) => SwapCounts(s, i);
    case Remove(i) => RemoveCounts(s, i);
    case Pick(i, _) =>
      forall id | 0 <= id < |s.values| ensures Balanced(s', id) {
        assert Balanced(s, id);
        ThreadUpdate(s.threads, i, s'.threads[i], id);
      }
    case Release(i) =>
      forall id | 0 <= id < |s.values| ensures Balanced(s', id) {
        assert Balanced(s, id) && Balanced(s, s.threads[i].id);
        ThreadUpdate(s.threads, i, Done, id);
        ThreadUpdate(s.threads, i, Done, s.threads[i].id);
      }
  }

  lemma {:induction false} BeginCounts(s: State, value: string)
    requires Known(s) && Accounted(s)
    ensures Accounted(Apply(s, Begin(value)))
  {
    var s' := Apply(s, Begin(value));
    if |s.slots| > 0 {
      forall id | 0 <= id < |s'.values| ensures Balanced(s', id) {
        ThreadAppend(s.threads, Fresh(|s.values|), id);
        if id == |s.values| {
          NewIsUnheld(s.threads, s.slots, id);
        } else {
          assert Balanced(s, id);
        }
      }
    }
  }

  lemma {:induction false} NewIsUnheld(threads: seq<Phase>, slots: seq<Option<nat>>, id: nat)
    requires forall i :: 0 <= i < |threads| && !threads[i].Done? ==> threads[i].id != id
    requires forall k :: 0 <= k < |slots| ==> slots[k] != Some(id)
    ensures Carried(threads, id) == 0 && Owned(threads, id) == 0 && InSlots(slots, id) == 0
    decreases |threads| + |slots|
  {
    if threads != [] {
      assert threads[0] == Done || threads[0].id != id;
      NewIsUnheld(threads[1..], slots, id);
    } else if slots != [] {
      NewIsUnheld(threads, slots[1..], id);
    }
  }

  /** Removing by value removes the evicted item itself: it was carried, so the set's entry for its value is it. */
  lemma {:induction false} RemovesItself(s: State, i: nat)
    requires Invariant(s) && Enabled(s, Remove(i))
    ensures var id := s.threads[i].id; s.values[id] in s.members && s.members[s.values[id]] == id
    ensures forall v :: v in s.members && v !in Apply(s, Remove(i)).members ==> s.members[v] == s.threads[i].id
  {
    ThreadUpdate(s.threads, i, Done, s.threads[i].id);
    assert Balanced(s, s.threads[i].id);
  }

  lemma {:induction false} RemoveCounts(s: State, i: nat)
    requires Known(s) && Accounted(s) && Enabled(s, Remove(i))
    ensures Accounted(Apply(s, Remove(i)))
  {
    hide Carried, Owned, InSlots;
    var s', evicted := Apply(s, Remove(i)), s.threads[i].id;
    ThreadUpdate(s.threads, i, Dropping(evicted), evicted);
    assert Balanced(s, evicted) && InSet(s, evicted) == 1;
    forall id | 0 <= id < |s.values| ensures Balanced(s', id) {
      assert Balanced(s, id);
      ThreadUpdate(s.threads, i, Dropping(evicted), id);
    }
  }

  lemma {:induction false} StepKnown(s: State, step: Step)
    requires Known(s) && Accounted(s) && Enabled(s, step)
    ensures Known(Apply(s, step))
  {
  }

  lemma {:induction false} StepFilling(s: State, step: Step)
    requires Filling(s) && Enabled(s, step)
    ensures Filling(Apply(s, step))
  {
    var s' := Apply(s, step);
    forall k | 0 <= k < |s'.slots| && s'.slots[k].None? && k < s'.counter ensures Awaited(s', k) {
      if k < s.counter {
        assert Awaited(s, k);
        var i :| 0 <= i < |s.threads| && s.threads[i].Picked? && s.threads[i].slot == k;
        assert s'.threads[i] == s.threads[i];
      } else {
        assert s'.threads[step.i] == Picked(s.threads[step.i].id, k);
      }
    }
  }

  lemma {:induction false} StepKeeps(s: State, step: Step)
    requires Invariant(s) && Enabled(s, step)
    ensures Invariant(Apply(s, step))
  {
    hide Filling, Roomy, Accounted, Known;
    StepCounts(s, step);
    StepKnown(s, step);
    StepFilling(s, step);
    StepRoomy(s, step);
  }

  lemma {:induction false} StepRoomy(s: State, step: Step)
    requires Filling(s) && Roomy(s) && Enabled(s, step)
    ensures Roomy(Apply(s, step))
  {
    if Apply(s, step).counter <= |s.slots| {
      StepSlots(s, step);
      StepComplete(s, step);
    }
  }

  lemma {:induction false} StepSlots(s: State, step: Step)
    requires Filling(s) && Enabled(s, step) && s.counter <= |s.slots| && SlotsToThemselves(s)
        && Apply(s, step).counter <= |s.slots|
    ensures SlotsToThemselves(Apply(s, step))
  {
    hide Unref;
    match step
    case Swap(i) =>
      var s' := Apply(s, step);
      assert s'.threads[i] == Done && forall j :: 0 <= j < |s.threads| && j != i ==> s'.threads[j] == s.threads[j];
    case Pick(i, random) => PickedAlone(s, i, random);
    case _ =>
  }

  lemma {:induction false} PickedAlone(s: State, i: nat, random: nat)
    requires Filling(s) && Enabled(s, Pick(i, random)) && s.counter < |s.slots| && SlotsToThemselves(s)
    ensures SlotsToThemselves(Apply(s, Pick(i, random)))
  {
    var s' := Apply(s, Pick(i, random));
    assert s'.threads[i].slot == s.counter && s.slots[s.counter].None?;
    assert forall j :: 0 <= j < |s.threads| && j != i ==> s'.threads[j] == s.threads[j];
  }

  lemma {:induction false} StepComplete(s: State, step: Step)
    requires Enabled(s, step) && s.counter <= |s.slots| && SlotsToThemselves(s) && Complete(s)
    ensures Complete(Apply(s, step))
  {
    var s' := Apply(s, step);
    forall id: nat | id < |s'.values| && Offered(s', id) ensures s'.values[id] in s'.members {
      OfferedBefore(s, step, id);
    }
  }

  lemma {:induction false} OfferedBefore(s: State, step: Step, id: nat)
    requires Enabled(s, step) && id < |Apply(s, step).values| && Offered(Apply(s, step), id)
    ensures id < |s.values| && (Offered(s, id) || (step.TryInsert? && s.threads[step.i] == Fresh(id)))
  {
    var s' := Apply(s, step);
    if step.Begin? {
      assert |s.slots| > 0 ==> s'.threads[|s.threads|] == Fresh(|s.values|);
    }
    assert forall j :: 0 <= j < |s.threads| && (step.Begin? || j != step.i) ==> s'.threads[j] == s.threads[j];
  }

  predicate Runs(s: State, steps: seq<Step>)
    decreases |steps|
  {
    steps == [] || (Enabled(s, steps[0]) && Runs(Apply(s, steps[0]), steps[1..]))
  }

  function Reached(s: State, steps: seq<Step>): State
    requires Runs(s, steps)
    decreases |steps|
  {
    if steps == [] then s else Reached(Apply(s, steps[0]), steps[1..])
  }

  lemma {:induction false} RunKeeps(s: State, steps: seq<Step>)
    requires Invariant(s) && Runs(s, steps)
    ensures Invariant(Reached(s, steps))
    decreases |steps|
  {
    if steps != [] {
      StepKeeps(s, steps[0]);
      RunKeeps(Apply(s, steps[0]), steps[1..]);
    }
  }

  lemma {:induction false} EveryRunIsSound(n: nat, steps: seq<Step>)
    requires Runs(Start(n), steps)
    ensures Invariant(Reached(Start(n), steps))
  {
    RunKeeps(Start(n), steps);
  }

  // ----- At rest

  ghost predicate Quiet(s: State) { forall i :: 0 <= i < |s.threads| ==> s.threads[i].Done? }

  /** What `len` returns. */
  function Len(s: State): nat { if s.counter < |s.slots| then s.counter else |s.slots| }

  lemma {:induction false} NobodyHolds(threads: seq<Phase>, id: nat)
    requires forall i :: 0 <= i < |threads| ==> threads[i].Done?
    ensures Carried(threads, id) == 0 && Owned(threads, id) == 0
  {
    if threads != [] {
      assert threads[0].Done?;
      NobodyHolds(threads[1..], id);
    }
  }

  lemma {:induction false} SlotsHold(slots: seq<Option<nat>>, id: nat)
    ensures InSlots(slots, id) > 0 <==> Some(id) in slots
    ensures InSlots(slots, id) <= 1 ==> forall j, k :: 0 <= j < k < |slots| ==> !(slots[j] == slots[k] == Some(id))
  {
    if slots != [] {
      SlotsHold(slots[1..], id);
      assert forall x :: x in slots <==> x == slots[0] || x in slots[1..];
      assert forall k :: 0 < k < |slots| ==> slots[k] == slots[1..][k - 1] && slots[k] in slots[1..];
    }
  }

  /** What an iteration yields: the items of the slots up to the first empty one. */
  function Yielded(slots: seq<Option<nat>>): seq<nat> {
    if slots == [] || slots[0].None? then [] else [slots[0].value] + Yielded(slots[1..])
  }

  lemma {:induction false} YieldsPrefix(slots: seq<Option<nat>>, n: nat)
    requires n <= |slots| && (forall k :: 0 <= k < n ==> slots[k].Some?) && (n < |slots| ==> slots[n].None?)
    ensures |Yielded(slots)| == n && forall k :: 0 <= k < n ==> slots[k] == Some(Yielded(slots)[k])
  {
    if n > 0 {
      assert forall k :: 0 <= k < n - 1 ==> slots[1..][k] == slots[k + 1];
      YieldsPrefix(slots[1..], n - 1);
      assert forall k :: 0 < k < n ==> slots[k] == slots[1..][k - 1];
    }
  }

  lemma NoneAwaited(s: State, slot: nat)
    requires Quiet(s)
    ensures !Awaited(s, slot)
  {
  }

  /** No slot before a filled one is empty. */
  lemma {:induction false} FilledInOrder(s: State)
    requires Invariant(s) && Quiet(s)
    ensures forall k :: 0 <= k < |s.slots| ==> (s.slots[k].Some? <==> k < Len(s))
    ensures |Yielded(s.slots)| == Len(s)
    ensures forall k :: 0 <= k < Len(s) ==> s.slots[k] == Some(Yielded(s.slots)[k]) && Yielded(s.slots)[k] < |s.values|
  {
    forall k | 0 <= k < |s.slots| ensures s.slots[k].Some? <==> k < Len(s) {
      NoneAwaited(s, k);
    }
    YieldsPrefix(s.slots, Len(s));
  }

  lemma {:induction false} RestCounts(s: State, id: nat)
    requires Invariant(s) && Quiet(s) && id < |s.values|
    ensures InSet(s, id) == (if id in Yielded(s.slots) then 1 else 0) && s.refs[id] == 2 * InSet(s, id)
    ensures |Yielded(s.slots)| == Len(s) && forall j, k :: 0 <= j < k < Len(s) ==>
        !(Yielded(s.slots)[j] == Yielded(s.slots)[k] == id)
  {
    FilledInOrder(s);
    assert Balanced(s, id);
    NobodyHolds(s.threads, id);
    SlotsHold(s.slots, id);
    assert Some(id) in s.slots <==> id in Yielded(s.slots);
  }

  lemma {:induction false} YieldedOnce(s: State, j: nat)
    requires Invariant(s) && Quiet(s) && j < Len(s)
    ensures |Yielded(s.slots)| == Len(s)
    ensures var id := Yielded(s.slots)[j];
            && id < |s.values| && s.values[id] in s.members && s.members[s.values[id]] == id
            && s.refs[id] == 2 && forall k :: j < k < Len(s) ==> Yielded(s.slots)[k] != id
  {
    FilledInOrder(s);
    assert Yielded(s.slots)[j] in Yielded(s.slots);
    RestCounts(s, Yielded(s.slots)[j]);
  }

  /**
   With no insert under way, an iteration yields exactly the items of the set, each once, and `len` of them. Items
   outside the set have no references left, those in it have two.
   */
  lemma {:induction false} AtRest(s: State)
    requires Invariant(s) && Quiet(s)
    ensures |Yielded(s.slots)| == Len(s) && forall k :: 0 <= k < Len(s) ==> Yielded(s.slots)[k] < |s.values|
    ensures forall v :: v in s.members <==> exists k :: 0 <= k < Len(s) && s.values[Yielded(s.slots)[k]] == v
    ensures forall j, k :: 0 <= j < k < Len(s) ==> s.values[Yielded(s.slots)[j]] != s.values[Yielded(s.slots)[k]]
    ensures forall id :: 0 <= id < |s.refs| ==> s.refs[id] == if id in Yielded(s.slots) then 2 else 0
  {
    hide Roomy, Filling, Accounted;
    assert |s.refs| == |s.values| by { FilledInOrder(s); RefsFit(s); }
    FilledInOrder(s);
    forall id | 0 <= id < |s.refs| ensures s.refs[id] == if id in Yielded(s.slots) then 2 else 0 {
      RestCounts(s, id);
    }
    forall j | 0 <= j < Len(s)
      ensures var id := Yielded(s.slots)[j]; s.values[id] in s.members && s.members[s.values[id]] == id && forall k ::
          j < k < Len(s) ==> Yielded(s.slots)[k] != id
    {
      YieldedOnce(s, j);
    }
    forall v | v in s.members ensures exists k :: 0 <= k < Len(s) && s.values[Yielded(s.slots)[k]] == v {
      RestCounts(s, s.members[v]);
      assert InSet(s, s.members[v]) == 1 && s.members[v] in Yielded(s.slots);
    }
  }

  lemma {:induction false} RefsFit(s: State)
    requires Invariant(s)
    ensures |s.refs| == |s.values|
  {
  }

  /** As long as no more values than slots came in, nothing is lost: the set is all values ever inserted. */
  lemma {:induction false} NothingSampledAway(s: State)
    requires Invariant(s) && Quiet(s) && s.counter <= |s.slots|
    ensures forall v :: v in s.members <==> v in s.values
  {
    forall id | 0 <= id < |s.values| ensures s.values[id] in s.members {
      assert Offered(s, id);
    }
  }

  /** No reference is dropped that is not held: what is in a slot, in the set or owned by an insert is never freed. */
  lemma {:induction false} NothingDangles(s: State, id: nat)
    requires Invariant(s) && id < |s.refs|
    ensures s.refs[id] == 0 <==> InSet(s, id) == 0 && InSlots(s.slots, id) == 0 && Owned(s.threads, id) == 0
    ensures InSet(s, id) == 1 ==> InSlots(s.slots, id) + Carried(s.threads, id) == 1
  {
    assert Balanced(s, id);
  }

  // ----- Dropping the set

  /** The drop loop gives back the slots' references, up to the first empty slot. */
  method ReclaimSlots(slots: seq<Option<nat>>, refs: seq<nat>) returns (left: seq<nat>)
    ensures left == UnrefAll(refs, Yielded(slots))
  {
    left := refs;
    var k := 0;
    while k < |slots| && slots[k].Some?
      invariant k <= |slots|
      invariant UnrefAll(left, Yielded(slots[k..])) == UnrefAll(refs, Yielded(slots))
    {
      assert slots[k..][1..] == slots[k + 1..];
      left := Unref(left, slots[k].value);
      k := k + 1;
    }
    assert Yielded(slots[k..]) == [];
  }

  function UnrefAll(refs: seq<nat>, ids: seq<nat>): seq<nat>
    decreases |ids|
  {
    if ids == [] then refs else UnrefAll(Unref(refs, ids[0]), ids[1..])
  }

  lemma {:induction false} UnrefAllTakesOne(refs: seq<nat>, ids: seq<nat>)
    requires forall j, k :: 0 <= j < k < |ids| ==> ids[j] != ids[k]
    requires forall k :: 0 <= k < |ids| ==> ids[k] < |refs| && refs[ids[k]] > 0
    ensures |UnrefAll(refs, ids)| == |refs|
    ensures forall id :: 0 <= id < |refs| ==> UnrefAll(refs, ids)[id] == refs[id] - (if id in ids then 1 else 0)
    decreases |ids|
  {
    if ids != [] {
      assert forall k :: 0 <= k < |ids[1..]| ==> ids[1..][k] == ids[k + 1];
      UnrefAllTakesOne(Unref(refs, ids[0]), ids[1..]);
      assert ids[0] !in ids[1..];
      assert forall id :: id in ids <==> id == ids[0] || id in ids[1..];
    }
  }

  /** Dropping a set at rest frees everything: the loop takes the slots' references, the map its own. */
  lemma {:induction false} DropFreesEverything(s: State)
    requires Invariant(s) && Quiet(s)
    ensures var left := UnrefAll(s.refs, Yielded(s.slots));
            && |left| == |s.refs| && forall id :: 0 <= id < |left| ==> left[id] == InSet(s, id)
  {
    var items := Yielded(s.slots);
    RefsFit(s);
    FilledInOrder(s);
    forall k | 0 <= k < |items|
      ensures items[k] < |s.refs| && s.refs[items[k]] > 0 && forall j :: k < j < |items| ==> items[j] != items[k]
    {
      YieldedOnce(s, k);
    }
    UnrefAllTakesOne(s.refs, items);
    forall id | 0 <= id < |s.refs| ensures UnrefAll(s.refs, items)[id] == InSet(s, id) {
      RestCounts(s, id);
    }
  }

  // ----- One insert on its own

  /** The steps of an insert that nothing interrupts. */
  function InsertAlone(s: State, value: string, random: nat): State
    requires |s.refs| == |s.values| && Known(s) && random <= |s.slots|
  {
    if |s.slots| == 0 then s
    else
      var i := |s.threads|;
      var tried := Apply(Apply(s, Begin(value)), TryInsert(i));
      if tried.threads[i].Dropping? then Apply(tried, Release(i))
      else
        var swapped := Apply(Apply(tried, Pick(i, random)), Swap(i));
        if swapped.threads[i].Done? then swapped
        else Apply(Apply(swapped, Remove(i)), Release(i))
  }

  /** A lone insert keeps the invariant, and is at rest again afterwards. */
  lemma {:induction false} AloneKeeps(s: State, value: string, random: nat)
    requires Invariant(s) && Quiet(s) && random <= |s.slots|
    ensures Invariant(InsertAlone(s, value, random)) && Quiet(InsertAlone(s, value, random))
  {
    hide Invariant, Unref;
    RefsFit(s);
    if |s.slots| > 0 {
      var i := |s.threads|;
      StepKeeps(s, Begin(value));
      var begun := Apply(s, Begin(value));
      StepKeeps(begun, TryInsert(i));
      var tried := Apply(begun, TryInsert(i));
      if tried.threads[i].Dropping? {
        IdKnown(tried, i);
        RefsFit(tried);
        StepKeeps(tried, Release(i));
      } else {
        PlacingKeeps(tried, i, random);
      }
    }
  }

  lemma {:induction false} PlacingKeeps(s: State, i: nat, random: nat)
    requires Invariant(s) && Enabled(s, Pick(i, random))
    requires forall j :: 0 <= j < |s.threads| && j != i ==> s.threads[j].Done?
    ensures var swapped := Apply(Apply(s, Pick(i, random)), Swap(i));
            if swapped.threads[i].Done? then Invariant(swapped) && Quiet(swapped)
            else
              && swapped.threads[i].id < |swapped.values| == |swapped.refs|
              && var done := Apply(Apply(swapped, Remove(i)), Release(i)); Invariant(done) && Quiet(done)
  {
    hide Invariant, Unref;
    StepKeeps(s, Pick(i, random));
    var picked := Apply(s, Pick(i, random));
    StepKeeps(picked, Swap(i));
    var swapped := Apply(picked, Swap(i));
    if !swapped.threads[i].Done? {
      IdKnown(swapped, i);
      RefsFit(swapped);
      StepKeeps(swapped, Remove(i));
      IdKnown(Apply(swapped, Remove(i)), i);
      RefsFit(Apply(swapped, Remove(i)));
      StepKeeps(Apply(swapped, Remove(i)), Release(i));
    }
  }

  lemma SlotsKnown(s: State)
    requires Invariant(s)
    ensures |s.refs| == |s.values| && forall slot :: slot in s.slots && slot.Some? ==> slot.value < |s.values|
  {
  }

  lemma IdKnown(s: State, i: nat)
    requires Invariant(s) && i < |s.threads| && !s.threads[i].Done?
    ensures s.threads[i].id < |s.values|
  {
  }

  /**
   What a lone insert does to the values held: nothing to a set that has the value; the value comes in while there is
   room; afterwards the draw decides whether it replaces the item of one slot or is itself the one left out.
   */
  lemma {:induction false} AloneSamples(s: State, value: string, random: nat)
    requires Invariant(s) && Quiet(s) && random <= |s.slots| && 0 < |s.slots|
    ensures |Yielded(s.slots)| == Len(s) && forall k :: 0 <= k < Len(s) ==> Yielded(s.slots)[k] < |s.values|
    ensures var after := InsertAlone(s, value, random).members.Keys;
            after == if value in s.members || (s.counter >= |s.slots| == random) then s.members.Keys
                     else if s.counter < |s.slots| then s.members.Keys + {value}
                     else s.members.Keys + {value} - {s.values[Yielded(s.slots)[random]]}
  {
    FilledInOrder(s);
    var i := |s.threads|;
    var tried := Apply(Apply(s, Begin(value)), TryInsert(i));
    if value !in s.members {
      var picked := Apply(tried, Pick(i, random));
      assert picked.threads[i] == Picked(|s.values|, if s.counter < |s.slots| then s.counter else random);
      if s.counter >= |s.slots| && random < |s.slots| {
        YieldedOnce(s, random);
      }
    }
  }

  /** The set as one thread runs it. A finished insert leaves its thread behind in the history. */
  class SampleSet {
    var members: map<string, nat>
    const slots: array<Option<nat>>
    var counter: nat
    var values: seq<string>
    var refs: seq<nat>
    ghost var threads: seq<Phase>

    ghost function View(): State
      reads this, slots
    {
      State(members, slots[..], counter, values, refs, threads)
    }

    ghost predicate Valid()
      reads this, slots
    {
      Invariant(View()) && Quiet(View())
    }

    constructor (n: nat)
      ensures Valid() && fresh(slots) && View() == Start(n)
    {
      slots := new Option<nat>[n](_ => None);
      members, counter, values, refs, threads := map[], 0, [], [], [];
      new;
      assert slots[..] == Start(n).slots;
    }

    method TryAdd(id: nat, ghost i: nat) returns (added: bool)
      requires Enabled(View(), TryInsert(i)) && threads[i] == Fresh(id)
      modifies this`members, this`refs, this`threads
      ensures View() == Apply(old(View()), TryInsert(i)) && (added <==> threads[i] == Inserted(id))
      ensures |refs| == |old(refs)| && (!added ==> threads[i] == Dropping(id))
    {
      added := values[id] !in members;
      if added {
        members := members[values[id] := id];
        threads := threads[i := Inserted(id)];
      } else {
        refs := Unref(refs, id);
        threads := threads[i := Dropping(id)];
      }
    }

    method Place(id: nat, random: nat, ghost i: nat) returns (evicted: Option<nat>)
      requires Enabled(View(), Pick(i, random)) && threads[i] == Inserted(id)
      modifies this`counter, this`threads, slots
      ensures View() == Apply(Apply(old(View()), Pick(i, random)), Swap(i))
      ensures threads[i] == if evicted.Some? then Evicting(evicted.value) else Done
      ensures evicted.Some? ==> evicted.value == id || evicted in old(slots[..])
    {
      var slot := if counter < slots.Length then counter else random;
      counter := counter + 1;
      threads := threads[i := Picked(id, slot)];
      assert View() == Apply(old(View()), Pick(i, random));
      if slot < slots.Length {
        evicted := slots[slot];
        slots[slot] := Some(id);
      } else {
        evicted := Some(id);
      }
      threads := threads[i := if evicted.Some? then Evicting(evicted.value) else Done];
    }

    method Discard(id: nat, ghost i: nat)
      requires Enabled(View(), Remove(i)) && threads[i] == Evicting(id)
      modifies this`members, this`refs, this`threads
      ensures |refs| == |old(refs)| && |threads| == |old(threads)| && threads[i] == Dropping(id)
      ensures View() == Apply(old(View()), Remove(i))
    {
      var value := values[id];
      if value in members {
        refs := Unref(refs, members[value]);
      }
      members := members - {value};
      threads := threads[i := Dropping(id)];
    }

    method Forget(id: nat, ghost i: nat)
      requires Enabled(View(), Release(i)) && threads[i] == Dropping(id)
      modifies this`refs, this`threads
      ensures View() == Apply(old(View()), Release(i))
    {
      refs := Unref(refs, id);
      threads := threads[i := Done];
    }

    method Insert(value: string, random: nat)
      requires Valid() && random <= slots.Length
      modifies this, slots
      ensures View() == InsertAlone(old(View()), value, random) && Valid()
    {
      hide Invariant, Quiet, Known, Unref;
      AloneKeeps(View(), value, random);
      SlotsKnown(View());
      if slots.Length == 0 {
        return;
      }
      ghost var i := |threads|;
      var id := |values|;
      values, refs, threads := values + [value], refs + [2], threads + [Fresh(id)];
      assert View() == Apply(old(View()), Begin(value));
      var added := TryAdd(id, i);
      if !added {
        Forget(id, i);
        return;
      }
      var evicted := Place(id, random, i);
      if evicted.Some? {
        Discard(evicted.value, i);
        Forget(evicted.value, i);
      }
    }
  }
}
