/**
 The byte-bounded flush that the event logger and the assign logger share. Other threads push while a flush runs: the
 schedule gives, for each pop, what was pushed just before it.
 */
module BoundedFlush {
  const USIZE_MAX: nat := 0xFFFF_FFFF

  datatype Event = Event(body: string, encodedLen: nat)

  /** The events taken off the queue wait with their sizes. */
  datatype Item = Item(event: Event, len: nat)

  datatype State = State(queue: seq<Event>, pending: seq<Item>, bytes: nat)

  type Schedule = seq<seq<Event>>

  function SaturatingAdd(a: nat, b: nat): nat { if a + b <= USIZE_MAX then a + b else USIZE_MAX }

  function SaturatingSub(a: nat, b: nat): nat { if a >= b then a - b else 0 }

  /** The length of the varint that precedes a message of `n` bytes. */
  function DelimiterLen(n: nat): (len: nat)
    ensures len >= 1
  {
    if n < 128 then 1 else 1 + DelimiterLen(n / 128)
  }

  /** An event within a request: its bytes, their length, and one byte for the field. */
  function Size(e: Event): (size: nat)
    ensures size >= 2
  {
    SaturatingAdd(SaturatingAdd(e.encodedLen, DelimiterLen(e.encodedLen)), 1)
  }

  // ----- The encoding

  /** Seven bits a byte, low ones first; a byte with the high bit set is not the last. */
  function Varint(n: nat): seq<nat> { if n < 128 then [n] else [128 + n % 128] + Varint(n / 128) }

  /** Reads the number at the front, and what follows it. */
  function ReadVarint(bytes: seq<nat>): (nat, seq<nat>) {
    if bytes == [] then (0, [])
    else if bytes[0] < 128 then (bytes[0], bytes[1..])
    else var (high, rest) := ReadVarint(bytes[1..]); (bytes[0] - 128 + 128 * high, rest)
  }

  lemma {:induction false} VarintRoundTrip(n: nat, rest: seq<nat>)
    ensures ReadVarint(Varint(n) + rest) == (n, rest)
    ensures |Varint(n)| == DelimiterLen(n)
  {
    var bytes := Varint(n) + rest;
    if n < 128 {
      assert bytes[1..] == rest;
    } else {
      assert bytes[1..] == Varint(n / 128) + rest;
      VarintRoundTrip(n / 128, rest);
    }
  }

  /** The size of an event is the length of its field in the encoded request: a tag, its length and its bytes. */
  lemma {:induction false} SizeIsEncoded(e: Event, tag: nat, payload: seq<nat>)
    requires |payload| == e.encodedLen
    ensures var field := [tag] + Varint(|payload|) + payload;
            Size(e) == if |field| <= 0xFFFF_FFFF then |field| else 0xFFFF_FFFF
  {
    VarintRoundTrip(|payload|, []);
  }

  function Sizes(events: seq<Event>): nat { if events == [] then 0 else Size(events[0]) + Sizes(events[1..]) }

  function EventsOf(pending: seq<Item>): seq<Event> {
    if pending == [] then [] else [pending[0].event] + EventsOf(pending[1..])
  }

  function Flatten(arrivals: Schedule): seq<Event> {
    if arrivals == [] then [] else arrivals[0] + Flatten(arrivals[1..])
  }

  function Head(arrivals: Schedule): seq<Event> { if arrivals == [] then [] else arrivals[0] }

  function Rest(arrivals: Schedule): Schedule { if arrivals == [] then [] else arrivals[1..] }

  // ----- One flush

  /** Moves events from the queue until the bytes waiting reach the limit or a pop finds nothing. */
  function Filled(s: State, limit: nat, arrivals: Schedule): (State, Schedule)
    decreases |arrivals|, |s.queue|
  {
    if s.bytes >= limit then (s, arrivals)
    else
      var queue := s.queue + Head(arrivals);
      if queue == [] then (s, Rest(arrivals))
      else Filled(State(queue[1..], s.pending + [Item(queue[0], Size(queue[0]))],
          SaturatingAdd(s.bytes, Size(queue[0]))), limit, Rest(arrivals))
  }

  /** The item may join a request with `written` bytes so far: it fits, or it is the first of an empty one. */
  predicate MayJoin(len: nat, written: nat, limit: nat, start: nat) {
    SaturatingAdd(written, len) <= limit || (written == 0 && start == 0)
  }

  /** How many items go, on top of `written` bytes. */
  function Going(pending: seq<Item>, written: nat, limit: nat, start: nat): (n: nat)
    ensures n <= |pending|
    decreases |pending|
  {
    if pending == [] || !MayJoin(pending[0].len, written, limit, start) then 0
    else 1 + Going(pending[1..], SaturatingAdd(written, pending[0].len), limit, start)
  }

  function Written(items: seq<Item>, written: nat): nat
    decreases |items|
  {
    if items == [] then written else Written(items[1..], SaturatingAdd(written, items[0].len))
  }

  function Emit(s: State, limit: nat, start: nat, requireFull: bool): (State, seq<Event>) {
    if s.bytes >= limit || !requireFull then
      var n := Going(s.pending, 0, limit, start);
      (State(s.queue, s.pending[n..], SaturatingSub(s.bytes, Written(s.pending[..n], 0))), EventsOf(s.pending[..n]))
    else (s, [])
  }

  /** A flush into a request of `start` bytes; what is pushed after its last pop is in the queue when it returns. */
  function Flush(s: State, start: nat, limitBytes: nat, requireFull: bool, arrivals: Schedule): (State, seq<Event>) {
    var limit := SaturatingSub(limitBytes, start);
    var (filled, rest) := Filled(s, limit, arrivals);
    var (emitted, out) := Emit(filled, limit, start, requireFull);
    (emitted.(queue := emitted.queue + Flatten(rest)), out)
  }

  // ----- As it runs

  class EventLogger {
    var queue: seq<Event>
    var pending: seq<Item>
    var bytes: nat

    ghost function View(): State
      reads this
    {
      State(queue, pending, bytes)
    }

    constructor ()
      ensures View() == State([], [], 0)
    {
      queue, pending, bytes := [], [], 0;
    }

    method Track(e: Event)
      modifies this`queue
      ensures View() == old(View()).(queue := old(queue) + [e])
    {
      queue := queue + [e];
    }

    method FlushFill(start: nat, limitBytes: nat, requireFull: bool, arrivals: Schedule) returns (out: seq<Event>)
      modifies this
      ensures (View(), out) == Flush(old(View()), start, limitBytes, requireFull, arrivals)
    {
      var limit := SaturatingSub(limitBytes, start);
      var later := Fill(limit, arrivals);
      out := EmitUpTo(limit, start, requireFull);
      queue := queue + Flatten(later);
    }

    method Fill(limit: nat, arrivals: Schedule) returns (later: Schedule)
      modifies this
      ensures (View(), later) == Filled(old(View()), limit, arrivals)
    {
      later := arrivals;
      while bytes < limit
        invariant Filled(View(), limit, later) == Filled(old(View()), limit, arrivals)
        decreases |later|, |queue|
      {
        ghost var before := View();
        queue := queue + Head(later);
        ghost var rest := Rest(later);
        if queue == [] {
          assert before.queue == [];
          later := Rest(later);
          return;
        }
        var e := queue[0];
        queue := queue[1..];
        pending := pending + [Item(e, Size(e))];
        bytes := SaturatingAdd(bytes, Size(e));
        later := Rest(later);
      }
    }

    method EmitUpTo(limit: nat, start: nat, requireFull: bool) returns (out: seq<Event>)
      modifies this`pending, this`bytes
      ensures (View(), out) == Emit(old(View()), limit, start, requireFull)
    {
      out := [];
      if bytes >= limit || !requireFull {
        ghost var all, n := pending, Going(pending, 0, limit, start);
        var written := 0;
        ghost var k := 0;
        assert all[..0] == [] && all[0..] == all;
        while pending != [] && MayJoin(pending[0].len, written, limit, start)
          invariant bytes == old(bytes) && k <= |all| && pending == all[k..]
              && n == k + Going(pending, written, limit, start)
          invariant out == EventsOf(all[..k]) && written == Written(all[..k], 0)
          decreases |pending|
        {
          ItemsAppend(all[..k], all[k], 0);
          assert all[..k + 1] == all[..k] + [all[k]];
          written := SaturatingAdd(written, pending[0].len);
          out := out + [pending[0].event];
          pending := pending[1..];
          k := k + 1;
        }
        bytes := SaturatingSub(bytes, written);
      }
    }
  }

  lemma {:induction false} ItemsAppend(items: seq<Item>, item: Item, written: nat)
    ensures EventsOf(items + [item]) == EventsOf(items) + [item.event]
    ensures Written(items + [item], written) == SaturatingAdd(Written(items, written), item.len)
    decreases |items|
  {
    if items == [] {
      assert items + [item] == [item] && [item][1..] == [];
    } else {
      assert (items + [item])[1..] == items[1..] + [item];
      ItemsAppend(items[1..], item, SaturatingAdd(written, items[0].len));
    }
  }

  lemma {:induction false} EventsOfAppend(a: seq<Item>, b: seq<Item>)
    ensures EventsOf(a + b) == EventsOf(a) + EventsOf(b)
    decreases |a|
  {
    if a == [] {
      assert a + b == b;
    } else {
      assert (a + b)[1..] == a[1..] + b;
      EventsOfAppend(a[1..], b);
    }
  }

  lemma {:induction false} SizesAppend(a: seq<Event>, b: seq<Event>)
    ensures Sizes(a + b) == Sizes(a) + Sizes(b)
    decreases |a|
  {
    if a == [] {
      assert a + b == b;
    } else {
      assert (a + b)[1..] == a[1..] + b;
      SizesAppend(a[1..], b);
    }
  }

  // ----- What a state holds

  /** Everything a state holds, in the order it came. */
  function Contents(s: State): seq<Event> { EventsOf(s.pending) + s.queue }

  /** The items carry their sizes, and the byte count is their exact sum. */
  ghost predicate Exact(s: State) {
    s.bytes == Sizes(EventsOf(s.pending)) && forall item :: item in s.pending ==> item.len == Size(item.event)
  }

  /** What is in memory can be counted. */
  ghost predicate Countable(events: seq<Event>) { Sizes(events) <= USIZE_MAX }

  /** The state after a pop that finds something. */
  function Popped(s: State, arrived: seq<Event>): State
    requires s.queue + arrived != []
  {
    var queue := s.queue + arrived;
    State(queue[1..], s.pending + [Item(queue[0], Size(queue[0]))], SaturatingAdd(s.bytes, Size(queue[0])))
  }

  lemma {:induction false} PopKeeps(s: State, arrived: seq<Event>, rest: seq<Event>)
    requires s.queue + arrived != [] && Exact(s) && Countable(Contents(s) + (arrived + rest))
    ensures var next := Popped(s, arrived);
            && Contents(next) == Contents(s) + arrived && Contents(next) + rest == Contents(s) + (arrived + rest)
            && Exact(next) && EventsOf(s.pending) <= EventsOf(next.pending)
  {
    hide Size, Sizes, EventsOf;
    var next, queue := Popped(s, arrived), s.queue + arrived;
    var e, waiting := queue[0], EventsOf(s.pending);
    EventsOfAppend(s.pending, [Item(e, Size(e))]);
    OneEvent(e);
    assert queue == [e] + queue[1..];
    assert waiting + [e] + queue[1..] == waiting + queue == Contents(s) + arrived;
    assert Contents(s) + (arrived + rest) == waiting + [e] + (queue[1..] + rest);
    SizesAppend(waiting + [e], queue[1..] + rest);
    SizesAppend(waiting, [e]);
  }

  lemma {:induction false} FillingKeeps(s: State, limit: nat, arrivals: Schedule)
    requires Exact(s) && Countable(Contents(s) + Flatten(arrivals))
    ensures var (filled, rest) := Filled(s, limit, arrivals);
            && Contents(filled) + Flatten(rest) == Contents(s) + Flatten(arrivals) && Exact(filled)
            && EventsOf(s.pending) <= EventsOf(filled.pending)
            && (filled.bytes < limit ==> filled.queue == []) && (arrivals == [] ==> rest == [])
    decreases |arrivals|, |s.queue|
  {
    hide Size, EventsOf, Exact, Countable, Contents;
    if s.bytes < limit {
      var rest := Flatten(Rest(arrivals));
      assert Flatten(arrivals) == Head(arrivals) + rest;
      if s.queue + Head(arrivals) == [] {
        assert Contents(s) + rest == Contents(s) + Flatten(arrivals);
      } else {
        PopKeeps(s, Head(arrivals), rest);
        FillingKeeps(Popped(s, Head(arrivals)), limit, Rest(arrivals));
      }
    }
  }

  lemma OneEvent(e: Event)
    ensures Sizes([e]) == Size(e) && EventsOf([Item(e, Size(e))]) == [e]
  {
    assert [e][1..] == [] && [Item(e, Size(e))][1..] == [];
  }

  ghost predicate Sized(items: seq<Item>) { forall item :: item in items ==> item.len == Size(item.event) }

  lemma {:induction false} WrittenIsSizes(items: seq<Item>, written: nat)
    requires Sized(items) && written + Sizes(EventsOf(items)) <= USIZE_MAX
    ensures Written(items, written) == written + Sizes(EventsOf(items))
    decreases |items|
  {
    if items != [] {
      assert items[0] in items && forall item :: item in items[1..] ==> item in items;
      assert EventsOf(items)[1..] == EventsOf(items[1..]);
      WrittenIsSizes(items[1..], written + items[0].len);
    }
  }

  /** What goes: nothing that does not fit behind something else, and everything that fits. */
  lemma {:induction false} GoingIsMaximal(pending: seq<Item>, written: nat, limit: nat, start: nat)
    requires Sized(pending) && written + Sizes(EventsOf(pending)) <= USIZE_MAX
    ensures var n := Going(pending, written, limit, start);
            && (n > 0 ==> written + Sizes(EventsOf(pending[..n])) <= limit || (n == 1 && written == 0 && start == 0))
            && (n < |pending| ==>
                 written + Sizes(EventsOf(pending[..n + 1])) > limit && (n > 0 || written > 0 || start > 0))
    decreases |pending|
  {
    hide Size, Sizes, EventsOf;
    if pending != [] {
      var first, rest := pending[0], pending[1..];
      assert first in pending && forall item :: item in rest ==> item in pending;
      FirstSize(pending);
      if MayJoin(first.len, written, limit, start) {
        GoingIsMaximal(rest, written + first.len, limit, start);
        var n := Going(pending, written, limit, start);
        PrefixSizes(pending, n);
        PrefixSizes(pending, if n < |pending| then n + 1 else n);
        NoSize(rest);
      } else {
        PrefixSizes(pending, 1);
        NoSize(rest);
      }
    }
  }

  lemma FirstSize(pending: seq<Item>)
    requires pending != []
    ensures Sizes(EventsOf(pending)) == Size(pending[0].event) + Sizes(EventsOf(pending[1..]))
  {
    assert EventsOf(pending)[1..] == EventsOf(pending[1..]);
  }

  lemma NoSize(pending: seq<Item>)
    ensures Sizes(EventsOf(pending[..0])) == 0
  {
    assert pending[..0] == [] && EventsOf([]) == [];
  }

  /** A prefix of items: its first size, and the sizes of the rest of the prefix. */
  lemma {:induction false} PrefixSizes(pending: seq<Item>, n: nat)
    requires 0 < n <= |pending|
    ensures EventsOf(pending[..n]) == [pending[0].event] + EventsOf(pending[1..][..n - 1])
    ensures Sizes(EventsOf(pending[..n])) == Size(pending[0].event) + Sizes(EventsOf(pending[1..][..n - 1]))
  {
    assert pending[..n][1..] == pending[1..][..n - 1];
    assert EventsOf(pending[..n])[1..] == EventsOf(pending[1..][..n - 1]);
  }

  /** The bytes of a request after a flush into it: within the limit, or a single event in an otherwise empty one. */
  ghost predicate Within(out: seq<Event>, start: nat, limitBytes: nat) {
    out == [] || start + Sizes(out) <= limitBytes || (start == 0 && |out| == 1)
  }

  lemma {:induction false} EmittingKeeps(s: State, limit: nat, start: nat, requireFull: bool)
    requires Exact(s) && Countable(EventsOf(s.pending))
    ensures var (after, out) := Emit(s, limit, start, requireFull);
            && out + EventsOf(after.pending) == EventsOf(s.pending) && Exact(after) && after.queue == s.queue
            && (out == [] || Sizes(out) <= limit || (start == 0 && |out| == 1))
            && (requireFull && s.bytes < limit ==> out == [])
            && (start == 0 && s.pending != [] && !(requireFull && s.bytes < limit) ==> out != [])
            && (!(requireFull && s.bytes < limit) && after.pending != [] ==>
                  Sizes(out + [after.pending[0].event]) > limit && (out != [] || start > 0))
  {
    hide Size, Sizes, EventsOf, Going, Written, Exact;
    if !(requireFull && s.bytes < limit) {
      var n := Going(s.pending, 0, limit, start);
      SplitKeeps(s, n);
      ExactIsSized(s);
      GoingIsMaximal(s.pending, 0, limit, start);
      EventsOfLength(s.pending[..n]);
      EventsOfLength(s.pending);
      if n < |s.pending| {
        assert s.pending[..n + 1] == s.pending[..n] + [s.pending[n]];
        ItemsAppend(s.pending[..n], s.pending[n], 0);
      }
    } else {
      assert [] + EventsOf(s.pending) == EventsOf(s.pending);
    }
  }

  lemma ExactIsSized(s: State)
    requires Exact(s)
    ensures Sized(s.pending)
  {
  }

  lemma {:induction false} SplitKeeps(s: State, n: nat)
    requires Exact(s) && Countable(EventsOf(s.pending)) && n <= |s.pending|
    ensures EventsOf(s.pending[..n]) + EventsOf(s.pending[n..]) == EventsOf(s.pending)
    ensures Exact(State(s.queue, s.pending[n..], SaturatingSub(s.bytes, Written(s.pending[..n], 0))))
  {
    hide Size, Sizes, EventsOf, Written;
    assert s.pending == s.pending[..n] + s.pending[n..];
    EventsOfAppend(s.pending[..n], s.pending[n..]);
    SizesAppend(EventsOf(s.pending[..n]), EventsOf(s.pending[n..]));
    assert forall item :: item in s.pending[..n] || item in s.pending[n..] ==> item in s.pending;
    WrittenIsSizes(s.pending[..n], 0);
  }

  lemma {:induction false} EventsOfLength(items: seq<Item>)
    ensures |EventsOf(items)| == |items|
  {
    if items != [] {
      EventsOfLength(items[1..]);
    }
  }

  /**
   A flush loses nothing and keeps the order, whatever is pushed while it runs: what it puts out, then what waits, then
   what is queued is what there was and came in. The byte count stays exact and the output within its limit; and what
   a flush stops at would have exceeded the limit.
   */
  lemma {:induction false} FlushKeeps(s: State, start: nat, limitBytes: nat, requireFull: bool, arrivals: Schedule)
    requires Exact(s) && Countable(Contents(s) + Flatten(arrivals))
    ensures var (after, out) := Flush(s, start, limitBytes, requireFull, arrivals);
            && out + Contents(after) == Contents(s) + Flatten(arrivals) && Exact(after)
                && Within(out, start, limitBytes)
  {
    hide Filled, Emit, Exact, Sizes, EventsOf, Size;
    var limit := SaturatingSub(limitBytes, start);
    var (filled, rest) := Filled(s, limit, arrivals);
    var (emitted, out) := Emit(filled, limit, start, requireFull);
    FillingKeeps(s, limit, arrivals);
    SizesAppend(EventsOf(filled.pending), filled.queue + Flatten(rest));
    assert EventsOf(filled.pending) + (filled.queue + Flatten(rest)) == Contents(filled) + Flatten(rest);
    EmittingKeeps(filled, limit, start, requireFull);
    OutIsPositive(out);
    QueueIgnored(emitted, emitted.queue + Flatten(rest));
    assert out + (EventsOf(emitted.pending) + (emitted.queue + Flatten(rest)))
        == (out + EventsOf(emitted.pending)) + (emitted.queue + Flatten(rest));
  }

  lemma OutIsPositive(out: seq<Event>)
    ensures out != [] ==> Sizes(out) > 0
  {
  }

  lemma QueueIgnored(s: State, queue: seq<Event>)
    requires Exact(s)
    ensures Exact(s.(queue := queue))
  {
  }

  /** The event may be the first that a flush into a request of `start` bytes puts out. */
  predicate MayStart(e: Event, start: nat, limitBytes: nat) { start == 0 || start + Size(e) <= limitBytes }

  /** An emission that need not wait puts something out exactly when the first event that waits may start. */
  lemma {:induction false} EmitStarts(s: State, start: nat, limitBytes: nat, requireFull: bool)
    requires Exact(s) && Countable(EventsOf(s.pending))
    requires var limit := SaturatingSub(limitBytes, start); !requireFull || s.bytes >= limit
    ensures var out := Emit(s, SaturatingSub(limitBytes, start), start, requireFull).1;
            out != [] <==> s.pending != [] && MayStart(s.pending[0].event, start, limitBytes)
  {
    hide Size, Sizes, EventsOf, Written, Exact;
    var n := Going(s.pending, 0, SaturatingSub(limitBytes, start), start);
    EventsOfLength(s.pending[..n]);
    if s.pending != [] {
      FirstOfExact(s);
    }
  }

  lemma FirstOfExact(s: State)
    requires Exact(s) && s.pending != [] && Countable(EventsOf(s.pending))
    ensures 2 <= s.pending[0].len == Size(s.pending[0].event) <= USIZE_MAX
  {
    assert s.pending[0] in s.pending;
  }

  /**
   A flush that must be full puts something out only when the limit is reached; and when enough was there to reach it,
   it does so exactly when the first event may start.
   */
  lemma {:induction false} FullFlushWaits(s: State, start: nat, limitBytes: nat, arrivals: Schedule)
    requires Exact(s) && Countable(Contents(s) + Flatten(arrivals))
    ensures var (after, out) := Flush(s, start, limitBytes, true, arrivals);
            var limit := SaturatingSub(limitBytes, start);
            && (out != [] ==> Filled(s, limit, arrivals).0.bytes >= limit)
            && (limit > 0 && Sizes(Contents(s)) >= limit ==>
                 Contents(s) != [] && (out != [] <==> MayStart(Contents(s)[0], start, limitBytes)))
  {
    hide Filled, Emit, Exact, Sizes, EventsOf, Size, MayStart;
    var limit := SaturatingSub(limitBytes, start);
    var (filled, rest) := Filled(s, limit, arrivals);
    FillingKeeps(s, limit, arrivals);
    SizesAppend(EventsOf(filled.pending), filled.queue + Flatten(rest));
    assert EventsOf(filled.pending) + (filled.queue + Flatten(rest)) == Contents(filled) + Flatten(rest);
    EmittingKeeps(filled, limit, start, true);
    if limit > 0 && Sizes(Contents(s)) >= limit {
      FilledEnough(s, limit, arrivals);
      SomethingWaits(filled);
      EmitStarts(filled, start, limitBytes, true);
      SomethingThere(s, limit);
      FirstWaits(s, filled, Flatten(arrivals), filled.queue + Flatten(rest));
    }
  }

  lemma SomethingThere(s: State, limit: nat)
    requires 0 < limit <= Sizes(Contents(s))
    ensures Contents(s) != []
  {
  }

  /** What a fill brings to the front is what was in front. */
  lemma {:induction false} FirstWaits(s: State, filled: State, came: seq<Event>, rest: seq<Event>)
    requires Contents(s) != [] && filled.pending != [] && EventsOf(filled.pending) + rest == Contents(s) + came
    ensures filled.pending[0].event == Contents(s)[0]
  {
    EventsOfLength(filled.pending);
    assert (EventsOf(filled.pending) + rest)[0] == EventsOf(filled.pending)[0];
    assert (Contents(s) + came)[0] == Contents(s)[0];
  }

  lemma {:induction false} FilledEnough(s: State, limit: nat, arrivals: Schedule)
    requires Exact(s) && Countable(Contents(s) + Flatten(arrivals)) && Sizes(Contents(s)) >= limit
    ensures Filled(s, limit, arrivals).0.bytes >= limit
    decreases |arrivals|, |s.queue|
  {
    hide Size, EventsOf, Exact, Countable, Contents, Sizes;
    if s.bytes < limit {
      var rest := Flatten(Rest(arrivals));
      assert Flatten(arrivals) == Head(arrivals) + rest;
      SomethingQueued(s, limit);
      PopKeeps(s, Head(arrivals), rest);
      SizesAppend(Contents(s), Head(arrivals));
      FilledEnough(Popped(s, Head(arrivals)), limit, Rest(arrivals));
    }
  }

  lemma SomethingQueued(s: State, limit: nat)
    requires Exact(s) && s.bytes < limit <= Sizes(Contents(s))
    ensures s.queue != []
  {
    assert s.queue == [] ==> Contents(s) == EventsOf(s.pending);
  }

  lemma SomethingWaits(s: State)
    requires Exact(s) && s.bytes > 0
    ensures s.pending != []
  {
  }

  // ----- Draining

  lemma {:induction false} FillFinds(s: State, limit: nat)
    requires Exact(s) && Countable(Contents(s))
    ensures var filled := Filled(s, limit, []).0;
            && Exact(filled) && Countable(EventsOf(filled.pending))
            && (filled.pending != [] <==> s.pending != [] || (limit > 0 && s.queue != []))
  {
    hide Sizes, Size, EventsOf, Exact;
    var (filled, rest) := Filled(s, limit, []);
    assert Contents(s) + Flatten([]) == Contents(s);
    FillingKeeps(s, limit, []);
    SizesAppend(EventsOf(filled.pending), filled.queue + Flatten(rest));
    assert EventsOf(filled.pending) + (filled.queue + Flatten(rest)) == Contents(filled) + Flatten(rest);
    EventsOfLength(s.pending);
    EventsOfLength(filled.pending);
    NothingWaits(s);
    NothingWaits(filled);
  }

  /**
   A flush that need not be full makes progress exactly when there is something it may take: in an empty request what
   waits, or what is queued if the limit is not zero; behind other data a first event that fits what is left.
   */
  lemma {:induction false} NonFullFlushProgresses(s: State, start: nat, limitBytes: nat)
    requires Exact(s) && Countable(Contents(s))
    ensures Flush(s, start, limitBytes, false, []).1 != [] <==>
              if start == 0 then s.pending != [] || (limitBytes > 0 && s.queue != [])
              else Contents(s) != [] && start + Size(Contents(s)[0]) <= limitBytes
  {
    hide Emit, Sizes, Size, EventsOf, Filled, Exact;
    var limit := SaturatingSub(limitBytes, start);
    var (filled, rest) := Filled(s, limit, []);
    FillFinds(s, limit);
    EmitStarts(filled, start, limitBytes, false);
    assert Contents(s) + Flatten([]) == Contents(s);
    FillingKeeps(s, limit, []);
    EventsOfLength(s.pending);
    if Contents(s) != [] && filled.pending != [] {
      assert EventsOf(filled.pending) + (filled.queue + Flatten(rest)) == Contents(filled) + Flatten(rest);
      FirstWaits(s, filled, Flatten([]), filled.queue + Flatten(rest));
    }
    if Contents(s) != [] {
      SizeIsPositive(Contents(s)[0]);
    }
  }

  lemma SizeIsPositive(e: Event)
    ensures Size(e) >= 2
  {
  }

  lemma NothingWaits(s: State)
    requires Exact(s)
    ensures s.pending == [] ==> s.bytes == 0
  {
  }

  /** Flush after flush into requests of `start` bytes, until one puts nothing out. */
  ghost function FlushAll(s: State, start: nat, limitBytes: nat): seq<seq<Event>>
    requires Exact(s) && Countable(Contents(s))
    decreases |Contents(s)|
  {
    var (after, out) := Flush(s, start, limitBytes, false, []);
    if out == [] then []
    else
      FlushShrinks(s, start, limitBytes);
      [out] + FlushAll(after, start, limitBytes)
  }

  lemma {:induction false} FlushShrinks(s: State, start: nat, limitBytes: nat)
    requires Exact(s) && Countable(Contents(s))
    ensures var (after, out) := Flush(s, start, limitBytes, false, []);
            && out + Contents(after) == Contents(s) && Exact(after) && Countable(Contents(after))
            && Within(out, start, limitBytes)
  {
    hide Flush, Sizes, Size;
    var (after, out) := Flush(s, start, limitBytes, false, []);
    assert Contents(s) + Flatten([]) == Contents(s);
    FlushKeeps(s, start, limitBytes, false, []);
    SizesAppend(out, Contents(after));
  }

  /** The events in front of the first that does not fit behind `start` bytes. */
  function Fitting(events: seq<Event>, start: nat, limitBytes: nat): (front: seq<Event>)
    ensures front <= events
    ensures front == events <==> forall e :: e in events ==> start + Size(e) <= limitBytes
    ensures front != events ==> start + Size(events[|front|]) > limitBytes
  {
    if events == [] || start + Size(events[0]) > limitBytes then []
    else
      assert events == [events[0]] + events[1..];
      [events[0]] + Fitting(events[1..], start, limitBytes)
  }

  lemma {:induction false} FittingAppend(out: seq<Event>, rest: seq<Event>, start: nat, limitBytes: nat)
    requires out == [] || start + Sizes(out) <= limitBytes
    ensures Fitting(out + rest, start, limitBytes) == out + Fitting(rest, start, limitBytes)
  {
    hide Size;
    if out == [] {
      assert out + rest == rest;
    } else {
      assert (out + rest)[1..] == out[1..] + rest;
      FittingAppend(out[1..], rest, start, limitBytes);
    }
  }

  /**
   Repeated flushes into requests that hold `start` bytes put out, in order and each within its limit, exactly the
   events in front of the first that does not fit such a request; what is left waits behind that one for ever.
   */
  lemma {:induction false} FlushesDrainBehind(s: State, start: nat, limitBytes: nat)
    requires Exact(s) && Countable(Contents(s)) && start > 0
    ensures Flatten(FlushAll(s, start, limitBytes)) == Fitting(Contents(s), start, limitBytes)
    ensures forall out :: out in FlushAll(s, start, limitBytes) ==> out != [] && start + Sizes(out) <= limitBytes
    decreases |Contents(s)|
  {
    hide Flush, Exact, Countable, Size, Sizes, Contents;
    var (after, out) := Flush(s, start, limitBytes, false, []);
    NonFullFlushProgresses(s, start, limitBytes);
    FlushShrinks(s, start, limitBytes);
    if out != [] {
      FlushesDrainBehind(after, start, limitBytes);
      FittingAppend(out, Contents(after), start, limitBytes);
    }
  }

  /** Repeated flushes drain everything, in order and each within its limit, exactly if they may take it. */
  lemma {:induction false} FlushesDrain(s: State, start: nat, limitBytes: nat)
    requires Exact(s) && Countable(Contents(s))
    ensures Flatten(FlushAll(s, start, limitBytes)) == Contents(s) <==>
              if start == 0 then limitBytes > 0 || s.queue == []
              else forall e :: e in Contents(s) ==> start + Size(e) <= limitBytes
    ensures forall out :: out in FlushAll(s, start, limitBytes) ==> out != [] && Within(out, start, limitBytes)
  {
    hide FlushAll, Size, Sizes;
    if start > 0 {
      FlushesDrainBehind(s, start, limitBytes);
    } else {
      FlushesDrainEmpty(s, limitBytes);
    }
  }

  lemma {:induction false} FlushesDrainEmpty(s: State, limitBytes: nat)
    requires Exact(s) && Countable(Contents(s))
    ensures Flatten(FlushAll(s, 0, limitBytes)) == (if limitBytes > 0 then Contents(s) else EventsOf(s.pending))
    ensures forall out :: out in FlushAll(s, 0, limitBytes) ==> out != [] && Within(out, 0, limitBytes)
    decreases |Contents(s)|
  {
    hide Flush, Exact, Countable, Within, Sizes, Size, EventsOf;
    var (after, out) := Flush(s, 0, limitBytes, false, []);
    NonFullFlushProgresses(s, 0, limitBytes);
    FlushShrinks(s, 0, limitBytes);
    EventsOfLength(s.pending);
    if out != [] {
      FlushesDrainEmpty(after, limitBytes);
    }
    if limitBytes == 0 {
      NothingComes(s);
    }
  }

  /** With a limit of zero only what waits goes out. */
  lemma {:induction false} NothingComes(s: State)
    requires Exact(s) && Countable(Contents(s))
    ensures var (after, out) := Flush(s, 0, 0, false, []);
            after.queue == s.queue && out + EventsOf(after.pending) == EventsOf(s.pending)
  {
    hide Emit, Exact, Sizes, Size, EventsOf;
    SizesAppend(EventsOf(s.pending), s.queue);
    EmittingKeeps(s, 0, 0, false);
    assert s.queue + [] == s.queue;
  }

  // ----- Every run

  datatype Op = Track(event: Event) | FlushInto(start: nat, limitBytes: nat, requireFull: bool, arrivals: Schedule)

  function Step(s: State, op: Op): (State, seq<Event>) {
    match op
    case Track(e) => (s.(queue := s.queue + [e]), [])
    case FlushInto(start, limitBytes, requireFull, arrivals) => Flush(s, start, limitBytes, requireFull, arrivals)
  }

  /** The state after a run, and everything it put out. */
  function Run(s: State, ops: seq<Op>): (State, seq<Event>)
    decreases |ops|
  {
    if ops == [] then (s, [])
    else
      var (next, out) := Step(s, ops[0]);
      var (final, more) := Run(next, ops[1..]);
      (final, out + more)
  }

  function PushedBy(op: Op): seq<Event> { if op.Track? then [op.event] else Flatten(op.arrivals) }

  function Pushed(ops: seq<Op>): seq<Event> {
    if ops == [] then []
    else PushedBy(ops[0]) + Pushed(ops[1..])
  }

  lemma {:induction false} StepConserves(s: State, op: Op)
    requires Exact(s) && Countable(Contents(s) + PushedBy(op))
    ensures var (next, out) := Step(s, op); out + Contents(next) == Contents(s) + PushedBy(op) && Exact(next)
  {
    hide Flush, Exact, Sizes, EventsOf, Size;
    match op
    case Track(e) =>
      QueueIgnored(s, s.queue + [e]);
      assert [] + (EventsOf(s.pending) + (s.queue + [e])) == Contents(s) + [e];
    case FlushInto(start, limitBytes, requireFull, arrivals) =>
      FlushKeeps(s, start, limitBytes, requireFull, arrivals);
  }

  /** Over any run of pushes and flushes: the outputs, then what waits, then the queue are what was pushed, in order. */
  lemma {:induction false} RunsConserve(s: State, ops: seq<Op>)
    requires Exact(s) && Countable(Contents(s) + Pushed(ops))
    ensures var (after, out) := Run(s, ops); out + Contents(after) == Contents(s) + Pushed(ops) && Exact(after)
    decreases |ops|
  {
    hide Step, PushedBy, Contents, Exact, Sizes;
    if ops == [] {
      assert [] + Contents(s) == Contents(s) + [];
    } else {
      var now, rest := PushedBy(ops[0]), Pushed(ops[1..]);
      var (next, out) := Step(s, ops[0]);
      assert Contents(s) + Pushed(ops) == Contents(s) + now + rest;
      SizesAppend(Contents(s) + now, rest);
      StepConserves(s, ops[0]);
      assert out + (Contents(next) + rest) == Contents(s) + Pushed(ops);
      SizesAppend(out, Contents(next) + rest);
      RunsConserve(next, ops[1..]);
      var (final, more) := Run(next, ops[1..]);
      assert out + more + Contents(final) == out + (more + Contents(final));
    }
  }
}
