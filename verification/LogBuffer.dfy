/**
 The in-isolate flag log buffer. Everything between two awaits of the worker runs undisturbed, so each such section
 is one operation on the state: the buffer proper and the count of deliveries in flight.
 */
module LogBuffer {
  import opened Wrappers

  const USIZE_MAX: nat := 0xFFFF_FFFF
  const U64: nat := 0x1_0000_0000_0000_0000
  const FLUSH_BYTES: nat := 768 * 1024
  const MAX_BUFFER_BYTES: nat := 12 * 1024 * 1024
  const MAX_BUFFER_RECORDS: nat := 20_000
  const FLUSH_RECORDS: nat := 1_250  // MAX_BUFFER_RECORDS / 16
  const MAX_IN_FLIGHT: nat := 4
  const HARD_IN_FLIGHT: nat := 8
  const IDLE_MS: real := 1_000.0
  const MAX_AGE_MS: real := 10_000.0

  /** A record and its encoded length. */
  datatype Log = Log(body: string, encodedLen: nat)

  datatype Entry = Entry(log: Log, seqNo: nat, len: nat, atMs: real)

  datatype State = State(logs: seq<Entry>, bytes: nat, nextSeq: nat, waiterActive: bool, inFlight: nat)

  function SaturatingAdd(a: nat, b: nat): nat { if a + b <= USIZE_MAX then a + b else USIZE_MAX }

  function SaturatingSub(a: nat, b: nat): nat { if a >= b then a - b else 0 }

  function Sum(logs: seq<Entry>): nat {
    if logs == [] then 0 else logs[0].len + Sum(logs[1..])
  }

  // ----- The buffer

  function NewEntry(s: State, log: Log, nowMs: real): Entry { Entry(log, s.nextSeq, log.encodedLen, nowMs) }

  function Push(s: State, log: Log, nowMs: real): State {
    s.(logs := s.logs + [NewEntry(s, log, nowMs)],
       bytes := SaturatingAdd(s.bytes, log.encodedLen),
       nextSeq := (s.nextSeq + 1) % U64)
  }

  predicate SizeDue(s: State) { s.bytes >= FLUSH_BYTES || |s.logs| >= FLUSH_RECORDS }

  predicate AtCeiling(s: State) { s.bytes >= MAX_BUFFER_BYTES || |s.logs| >= MAX_BUFFER_RECORDS }

  predicate TimeDue(s: State, nowMs: real) {
    s.logs != [] && (nowMs - s.logs[|s.logs| - 1].atMs >= IDLE_MS || nowMs - s.logs[0].atMs >= MAX_AGE_MS)
  }

  /** The chunk may not grow by entry `count`: it is at the boundary, or over a bound of one flush. */
  predicate Stops(logs: seq<Entry>, boundary: Option<nat>, count: nat, bytes: nat)
    requires count < |logs|
  {
    || (boundary.Some? && logs[count].seqNo >= boundary.value)
    || (count > 0 && (SaturatingAdd(bytes, logs[count].len) > FLUSH_BYTES || count >= FLUSH_RECORDS))
  }

  /** How many entries the next chunk takes, going on from `count` entries of `bytes`. */
  function ChunkFrom(logs: seq<Entry>, boundary: Option<nat>, count: nat, bytes: nat): (n: nat)
    requires count <= |logs|
    ensures count <= n <= |logs|
    decreases |logs| - count
  {
    if count == |logs| || Stops(logs, boundary, count, bytes) then count
    else ChunkFrom(logs, boundary, count + 1, SaturatingAdd(bytes, logs[count].len))
  }

  function Chunk(s: State, boundary: Option<nat>): seq<Entry> { s.logs[..ChunkFrom(s.logs, boundary, 0, 0)] }

  function Taken(s: State, boundary: Option<nat>): State {
    var chunk := Chunk(s, boundary);
    s.(logs := s.logs[|chunk|..], bytes := SaturatingSub(s.bytes, Bytes(chunk)))
  }

  function Bytes(chunk: seq<Entry>): nat { BytesFrom(chunk, 0) }

  function BytesFrom(chunk: seq<Entry>, bytes: nat): nat
    decreases |chunk|
  {
    if chunk == [] then bytes else BytesFrom(chunk[1..], SaturatingAdd(bytes, chunk[0].len))
  }

  // ----- The operations

  datatype Decision = Hold | Deliver | Shed

  function Decide(atCeiling: bool, inFlight: nat): Decision {
    if inFlight >= HARD_IN_FLIGHT && atCeiling then Shed
    else if inFlight >= MAX_IN_FLIGHT && !atCeiling then Hold
    else Deliver
  }

  /** What an operation makes of the chunk it removed, if any: handed out with a slot, or discarded. */
  datatype Fate = Kept | Delivering(batch: seq<Entry>) | Dropped(batch: seq<Entry>)

  function Admit(s: State, boundary: Option<nat>): (State, Fate) {
    (Taken(s, boundary).(inFlight := s.inFlight + 1), Delivering(Chunk(s, boundary)))
  }

  function Offer(s: State, log: Log, nowMs: real): (State, Fate) {
    var pushed := Push(s, log, nowMs);
    if !SizeDue(pushed) then (pushed, Kept)
    else
      match Decide(AtCeiling(pushed), pushed.inFlight)
      case Hold => (pushed, Kept)
      case Shed => (Taken(pushed, None), Dropped(Chunk(pushed, None)))
      case Deliver => Admit(pushed, None)
  }

  /** The timer path sheds on, chunk by chunk, until a flush is no longer due. */
  function ShedDown(s: State): (State, seq<Entry>)
    decreases |s.logs|
  {
    if s.logs == [] || !SizeDue(s) then (s, [])
    else
      ChunkIsNonempty(s.logs, None);
      var (rest, dropped) := ShedDown(Taken(s, None));
      (rest, Chunk(s, None) + dropped)
  }

  /** A chunk takes at least one entry if the first may go at all. */
  lemma ChunkIsNonempty(logs: seq<Entry>, boundary: Option<nat>)
    requires logs != [] && (boundary.Some? ==> logs[0].seqNo < boundary.value)
    ensures ChunkFrom(logs, boundary, 0, 0) > 0
  {
  }

  datatype Poll = Empty | Wait | Flush(fate: Fate)

  function PollOnce(s: State, nowMs: real): (State, Poll) {
    if s.logs == [] then (s, Empty)
    else if !TimeDue(s, nowMs) then (s, Wait)
    else
      match Decide(AtCeiling(s), s.inFlight)
      case Hold => (s, Wait)
      case Shed =>
        var (rest, dropped) := ShedDown(Taken(s, None));
        (rest, Flush(Dropped(Chunk(s, None) + dropped)))
      case Deliver => var (rest, fate) := Admit(s, None); (rest, Flush(fate))
  }

  /** One turn of the drain of a waiter that stands down; an empty chunk ends it and frees its slot at once. */
  function DrainOnce(s: State, boundary: nat): (State, Fate) {
    if s.logs == [] || (s.inFlight >= MAX_IN_FLIGHT && !AtCeiling(s)) || s.inFlight >= HARD_IN_FLIGHT then (s, Kept)
    else if Chunk(s, Some(boundary)) == [] then (s, Kept)
    else Admit(s, Some(boundary))
  }

  // ----- The operations as they run

  class FlagLogBuffer {
    var logs: seq<Entry>
    var bytes: nat
    var nextSeq: nat
    var waiterActive: bool
    var inFlight: nat

    ghost function View(): State
      reads this
    {
      State(logs, bytes, nextSeq, waiterActive, inFlight)
    }

    constructor ()
      ensures View() == State([], 0, 0, false, 0)
    {
      logs, bytes, nextSeq, waiterActive, inFlight := [], 0, 0, false, 0;
    }

    method PushLog(log: Log, nowMs: real)
      modifies this`logs, this`bytes, this`nextSeq
      ensures View() == Push(old(View()), log, nowMs)
    {
      bytes := SaturatingAdd(bytes, log.encodedLen);
      logs := logs + [Entry(log, nextSeq, log.encodedLen, nowMs)];
      nextSeq := (nextSeq + 1) % U64;
    }

    method TakeChunk(boundary: Option<nat>) returns (taken: seq<Entry>)
      modifies this`logs, this`bytes
      ensures taken == Chunk(old(View()), boundary) && View() == Taken(old(View()), boundary)
    {
      var chunkBytes, count := 0, 0;
      assert logs[..0] == [];
      while count < |logs| && !Stops(logs, boundary, count, chunkBytes)
        invariant View() == old(View()) && count <= |logs|
        invariant ChunkFrom(logs, boundary, 0, 0) == ChunkFrom(logs, boundary, count, chunkBytes)
        invariant chunkBytes == Bytes(logs[..count])
      {
        BytesAppend(logs[..count], logs[count], 0);
        assert logs[..count + 1] == logs[..count] + [logs[count]];
        chunkBytes := SaturatingAdd(chunkBytes, logs[count].len);
        count := count + 1;
      }
      taken := logs[..count];
      logs := logs[count..];
      bytes := SaturatingSub(bytes, chunkBytes);
    }

    /** `None` keeps the record buffered; otherwise the batch to deliver, with its slot already held. */
    method OfferAt(log: Log, nowMs: real) returns (batch: Option<seq<Entry>>, ghost fate: Fate)
      modifies this
      ensures (View(), fate) == Offer(old(View()), log, nowMs)
      ensures batch == if fate.Delivering? then Some(fate.batch) else None
    {
      PushLog(log, nowMs);
      if !SizeDue(State(logs, bytes, nextSeq, waiterActive, inFlight)) {
        return None, Kept;
      }
      var decision := Decide(AtCeiling(State(logs, bytes, nextSeq, waiterActive, inFlight)), inFlight);
      match decision {
        case Hold =>
          return None, Kept;
        case Shed =>
          var dropped := TakeChunk(None);
          return None, Dropped(dropped);
        case Deliver =>
          inFlight := inFlight + 1;
          var chunk := TakeChunk(None);
          return Some(chunk), Delivering(chunk);
      }
    }

    /** The waiter's look at the buffer, with the shedding loop it may go through. */
    method PollAt(nowMs: real) returns (poll: Poll)
      modifies this
      ensures (View(), poll) == PollOnce(old(View()), nowMs)
    {
      var s := State(logs, bytes, nextSeq, waiterActive, inFlight);
      if logs == [] {
        return Empty;
      }
      if !TimeDue(s, nowMs) {
        return Wait;
      }
      var decision := Decide(AtCeiling(s), inFlight);
      match decision {
        case Hold =>
          return Wait;
        case Shed =>
          var dropped := TakeChunk(None);
          ghost var start, first := View(), dropped;
          while logs != [] && SizeDue(State(logs, bytes, nextSeq, waiterActive, inFlight))
            invariant View() == State(logs, bytes, nextSeq, waiterActive, inFlight)
            invariant var (rest, more) := ShedDown(View());
                      first + ShedDown(start).1 == dropped + more && ShedDown(start).0 == rest
            decreases |logs|
          {
            ChunkIsNonempty(logs, None);
            ghost var more := ShedDown(Taken(View(), None)).1;
            ghost var was := dropped;
            var chunk := TakeChunk(None);
            dropped := dropped + chunk;
            assert was + (chunk + more) == dropped + more;
          }
          assert dropped + [] == dropped;
          return Flush(Dropped(dropped));
        case Deliver =>
          inFlight := inFlight + 1;
          var chunk := TakeChunk(None);
          return Flush(Delivering(chunk));
      }
    }

    method DrainAt(boundary: nat) returns (batch: Option<seq<Entry>>, ghost fate: Fate)
      modifies this
      ensures (View(), fate) == DrainOnce(old(View()), boundary)
      ensures batch == if fate.Delivering? then Some(fate.batch) else None
    {
      if logs == [] {
        return None, Kept;
      }
      if inFlight >= MAX_IN_FLIGHT && !AtCeiling(State(logs, bytes, nextSeq, waiterActive, inFlight)) {
        return None, Kept;
      }
      if inFlight >= HARD_IN_FLIGHT {
        return None, Kept;
      }
      inFlight := inFlight + 1;
      var chunk := TakeChunk(Some(boundary));
      if chunk == [] {
        inFlight := inFlight - 1;
        return None, Kept;
      }
      return Some(chunk), Delivering(chunk);
    }
  }

  lemma {:induction false} BytesAppend(chunk: seq<Entry>, e: Entry, bytes: nat)
    ensures BytesFrom(chunk + [e], bytes) == SaturatingAdd(BytesFrom(chunk, bytes), e.len)
    decreases |chunk|
  {
    if chunk != [] {
      assert (chunk + [e])[1..] == chunk[1..] + [e];
      BytesAppend(chunk[1..], e, SaturatingAdd(bytes, chunk[0].len));
    }
  }
}
