/** The apply cache over whole runs of applies and sweeps. */
module ApplyDedupLaws {
  import opened ApplyDedup

  datatype Op = Apply(hash: Hash, now: Seconds) | Flush(now: Seconds)

  function Step(c: Cache, op: Op): Cache {
    match op
    case Apply(hash, now) => CheckHash(c, hash, now).0
    case Flush(now) => Sweep(c, now)
  }

  /** The cache after the first `n` operations. */
  function At(c: Cache, ops: seq<Op>, n: nat): Cache
    requires n <= |ops|
  {
    if n == 0 then c else Step(At(c, ops, n - 1), ops[n - 1])
  }

  // ----- Sizes, counts and the clock

  datatype Verdict = Suppressed | Kept | Overflowed

  /** What becomes of an apply. */
  function VerdictOn(c: Cache, hash: Hash): Verdict {
    if hash in c.seen then Suppressed else if |c.seen| < c.maxEntries then Kept else Overflowed
  }

  /** How many of the first `n` operations were applies with the given verdict. */
  function Verdicts(c: Cache, ops: seq<Op>, n: nat, v: Verdict): nat
    requires n <= |ops|
  {
    if n == 0 then 0
    else
      var now := if ops[n - 1].Apply? && VerdictOn(At(c, ops, n - 1), ops[n - 1].hash) == v then 1 else 0;
      Verdicts(c, ops, n - 1, v) + now
  }

  function ApplyCount(ops: seq<Op>, n: nat): nat
    requires n <= |ops|
  {
    if n == 0 then 0 else ApplyCount(ops, n - 1) + (if ops[n - 1].Apply? then 1 else 0)
  }

  lemma {:induction false} IncWraps(n: nat)
    ensures Inc(n % U64) == (n + 1) % U64
  {
  }

  lemma {:induction false} StepFits(c: Cache, op: Op)
    requires |c.seen| <= c.maxEntries
    ensures |Step(c, op).seen| <= c.maxEntries
  {
    match op
    case Apply(hash, now) =>
    case Flush(now) => KeysShrink(Sweep(c, now).seen, c.seen);
  }

  /** What one operation does to the counters. */
  lemma StepCounts(c: Cache, op: Op)
    ensures var after := Step(c, op);
            && after.maxEntries == c.maxEntries
            && after.total == (if op.Apply? then Inc(c.total) else c.total)
            && after.deduped == (if op.Apply? && VerdictOn(c, op.hash) == Suppressed then Inc(c.deduped) else c.deduped)
            && after.overflow
                == (if op.Apply? && VerdictOn(c, op.hash) == Overflowed then Inc(c.overflow) else c.overflow)
  {
    hide Inc;
  }

  lemma {:induction false} StaysBounded(c: Cache, ops: seq<Op>, n: nat)
    requires n <= |ops| && |c.seen| <= c.maxEntries
    ensures |At(c, ops, n).seen| <= At(c, ops, n).maxEntries == c.maxEntries
  {
    hide Step;
    if n > 0 {
      StaysBounded(c, ops, n - 1);
      StepFits(At(c, ops, n - 1), ops[n - 1]);
      StepCounts(At(c, ops, n - 1), ops[n - 1]);
    }
  }

  lemma {:induction false} TotalCounts(c: Cache, ops: seq<Op>, n: nat)
    requires n <= |ops| && c.total == 0
    ensures At(c, ops, n).total == ApplyCount(ops, n) % U64
  {
    hide Step, Inc;
    if n > 0 {
      TotalCounts(c, ops, n - 1);
      StepCounts(At(c, ops, n - 1), ops[n - 1]);
      IncWraps(ApplyCount(ops, n - 1));
    }
  }

  lemma {:induction false} DedupedCounts(c: Cache, ops: seq<Op>, n: nat)
    requires n <= |ops| && c.deduped == 0
    ensures At(c, ops, n).deduped == Verdicts(c, ops, n, Suppressed) % U64
  {
    hide Step, Inc, VerdictOn;
    if n > 0 {
      DedupedCounts(c, ops, n - 1);
      StepCounts(At(c, ops, n - 1), ops[n - 1]);
      IncWraps(Verdicts(c, ops, n - 1, Suppressed));
    }
  }

  lemma {:induction false} OverflowCounts(c: Cache, ops: seq<Op>, n: nat)
    requires n <= |ops| && c.overflow == 0
    ensures At(c, ops, n).overflow == Verdicts(c, ops, n, Overflowed) % U64
  {
    hide Step, Inc, VerdictOn;
    if n > 0 {
      OverflowCounts(c, ops, n - 1);
      StepCounts(At(c, ops, n - 1), ops[n - 1]);
      IncWraps(Verdicts(c, ops, n - 1, Overflowed));
    }
  }

  /** The map never outgrows its bound, and each counter counts its verdict, modulo 2^64. */
  lemma {:induction false} CountersCount(c: Cache, ops: seq<Op>, n: nat)
    requires c == New(c.ttl, c.maxEntries) && n <= |ops|
    ensures var after := At(c, ops, n);
            && |after.seen| <= after.maxEntries == c.maxEntries
            && after.total == ApplyCount(ops, n) % U64
            && after.deduped == Verdicts(c, ops, n, Suppressed) % U64
            && after.overflow == Verdicts(c, ops, n, Overflowed) % U64
  {
    hide At, Verdicts, ApplyCount;
    StaysBounded(c, ops, n);
    TotalCounts(c, ops, n);
    DedupedCounts(c, ops, n);
    OverflowCounts(c, ops, n);
  }

  /** Every apply is suppressed, kept or counted as overflow. */
  lemma {:induction false} VerdictsAddUp(c: Cache, ops: seq<Op>, n: nat)
    requires n <= |ops|
    ensures ApplyCount(ops, n)
        == Verdicts(c, ops, n, Suppressed) + Verdicts(c, ops, n, Kept) + Verdicts(c, ops, n, Overflowed)
  {
    if n > 0 {
      VerdictsAddUp(c, ops, n - 1);
    }
  }

  predicate KeptAt(c: Cache, ops: seq<Op>, i: nat)
    requires i < |ops|
  {
    ops[i].Apply? && VerdictOn(At(c, ops, i), ops[i].hash) == Kept
  }

  lemma {:induction false} KeysShrink(a: map<Hash, Seconds>, b: map<Hash, Seconds>)
    requires a.Keys <= b.Keys
    ensures |a| <= |b|
  {
    var rest := b.Keys - a.Keys;
    assert b.Keys == a.Keys + rest;
  }

  /** The sweep clock never goes back, and moves by at least the minimal interval when it moves. */
  lemma {:induction false} ClockAdvances(c: Cache, op: Op)
    ensures var after := Step(c, op);
            after.lastSweep == c.lastSweep || after.lastSweep >= c.lastSweep + SWEEP_MIN_INTERVAL_SECONDS
  {
  }

  lemma {:induction false} ClockNeverGoesBack(c: Cache, ops: seq<Op>, m: nat, n: nat)
    requires m <= n <= |ops|
    ensures At(c, ops, m).lastSweep <= At(c, ops, n).lastSweep
  {
    hide Step;
    if m < n {
      ClockNeverGoesBack(c, ops, m, n - 1);
      ClockAdvances(At(c, ops, n - 1), ops[n - 1]);
    }
  }

  /** The time of the last sweep: sweeps are at least ten seconds apart, and from the epoch. */
  function LastSweep(ops: seq<Op>, n: nat): Seconds
    requires n <= |ops|
  {
    if n == 0 then 0
    else
      var last := LastSweep(ops, n - 1);
      if ops[n - 1].Flush? && ops[n - 1].now - last >= 10 then ops[n - 1].now else last
  }

  function SweepCount(ops: seq<Op>, n: nat): nat
    requires n <= |ops|
  {
    if n == 0 then 0
    else
      var swept := ops[n - 1].Flush? && ops[n - 1].now - LastSweep(ops, n - 1) >= 10;
      SweepCount(ops, n - 1) + (if swept then 1 else 0)
  }

  /** Over any run the sweeps are those that come ten seconds after the one before, whatever is applied between. */
  lemma {:induction false} SweepsAreApart(c: Cache, ops: seq<Op>, n: nat)
    requires c == New(c.ttl, c.maxEntries) && n <= |ops|
    ensures At(c, ops, n).lastSweep == LastSweep(ops, n)
    ensures At(c, ops, n).sweeps == SweepCount(ops, n) % 0x1_0000_0000_0000_0000
  {
    if n > 0 {
      hide Sweep, CheckHash;
      SweepsAreApart(c, ops, n - 1);
      StepSweeps(At(c, ops, n - 1), ops[n - 1]);
      IncWraps(SweepCount(ops, n - 1));
    }
  }

  lemma StepSweeps(c: Cache, op: Op)
    ensures var after, swept := Step(c, op), op.Flush? && op.now - c.lastSweep >= 10;
            && after.lastSweep == (if swept then op.now else c.lastSweep)
            && after.sweeps == (if swept then Inc(c.sweeps) else c.sweeps)
  {
  }

  // ----- What is suppressed

  /** The time a kept apply is remembered under: its own, but not before the last sweep. */
  function KeptTime(c: Cache, ops: seq<Op>, i: nat): Seconds
    requires i < |ops|
  {
    Max(ops[i].now, At(c, ops, i).lastSweep)
  }

  /** The age has reached the lifetime. The least there is counts as reached by every age, as ages saturate. */
  predicate Expired(age: int, ttl: Seconds) { age >= ttl || ttl == -0x8000_0000_0000_0000 }

  /** Operation `j` flushed, ten seconds or more after the last sweep, and swept what was kept at `time`. */
  predicate SweptBy(c: Cache, ops: seq<Op>, j: nat, time: Seconds)
    requires j < |ops|
  {
    ops[j].Flush? && ops[j].now - At(c, ops, j).lastSweep >= 10 && Expired(ops[j].now - time, c.ttl)
  }

  /** Operation `i` kept the hash, and no sweep up to operation `n` found it too old. */
  ghost predicate Lives(c: Cache, ops: seq<Op>, n: nat, i: nat, hash: Hash)
    requires n <= |ops|
  {
    && i < n && KeptAt(c, ops, i) && ops[i].hash == hash
    && forall j :: i < j < n ==> !SweptBy(c, ops, j, KeptTime(c, ops, i))
  }

  ghost predicate Alive(c: Cache, ops: seq<Op>, n: nat, hash: Hash)
    requires n <= |ops|
  {
    exists i: nat :: Lives(c, ops, n, i, hash)
  }

  /** Living applies are remembered, at the time they were kept. */
  ghost predicate Dated(c: Cache, ops: seq<Op>, n: nat, hash: Hash)
    requires n <= |ops|
  {
    forall i: nat :: Lives(c, ops, n, i, hash) ==>
        hash in At(c, ops, n).seen && At(c, ops, n).seen[hash] == KeptTime(c, ops, i)
  }

  lemma {:induction false} ConfigStays(c: Cache, ops: seq<Op>, n: nat)
    requires n <= |ops|
    ensures At(c, ops, n).ttl == c.ttl && At(c, ops, n).maxEntries == c.maxEntries
  {
    if n > 0 {
      ConfigStays(c, ops, n - 1);
    }
  }

  /** What one apply does to the memory of a hash. */
  lemma {:induction false} ApplyRemembers(c: Cache, applied: Hash, now: Seconds, hash: Hash)
    ensures var after := CheckHash(c, applied, now).0;
            && (hash in c.seen ==> hash in after.seen && after.seen[hash] == c.seen[hash])
            && (hash !in c.seen ==> (hash in after.seen <==> applied == hash && VerdictOn(c, hash) == Kept))
            && (hash !in c.seen && hash in after.seen ==> after.seen[hash] == Max(now, c.lastSweep))
  {
  }

  /** A flush sweeps if the last sweep is ten seconds ago: then it drops what has expired, counts and takes the time. */
  lemma {:induction false} FlushRemembers(c: Cache, now: Seconds, hash: Hash)
    ensures var after, swept := Sweep(c, now), now - c.lastSweep >= 10;
            && (hash in after.seen <==> hash in c.seen && !(swept && Expired(now - c.seen[hash], c.ttl)))
            && (hash in after.seen ==> after.seen[hash] == c.seen[hash])
            && after.lastSweep == (if swept then now else c.lastSweep)
            && after.sweeps == (if swept then (c.sweeps + 1) % 0x1_0000_0000_0000_0000 else c.sweeps)
  {
  }

  lemma {:induction false} LivesOn(c: Cache, ops: seq<Op>, n: nat, i: nat, hash: Hash)
    requires 0 < n <= |ops| && i < n - 1
    ensures Lives(c, ops, n, i, hash) <==> Lives(c, ops, n - 1, i, hash) && !SweptBy(c, ops, n - 1, KeptTime(c, ops, i))
  {
  }

  /** The map remembers exactly the applies that were kept and not swept since, each at the time it was kept. */
  lemma {:induction false} RemembersTheLiving(c: Cache, ops: seq<Op>, n: nat, hash: Hash)
    requires c.seen == map[] && n <= |ops|
    ensures hash in At(c, ops, n).seen <==> Alive(c, ops, n, hash)
    ensures Dated(c, ops, n, hash)
  {
    if n > 0 {
      RemembersTheLiving(c, ops, n - 1, hash);
      RemembersAStep(c, ops, n, hash);
    }
  }

  lemma {:induction false} RemembersAStep(c: Cache, ops: seq<Op>, n: nat, hash: Hash)
    requires 0 < n <= |ops|
    requires hash in At(c, ops, n - 1).seen <==> Alive(c, ops, n - 1, hash)
    requires Dated(c, ops, n - 1, hash)
    ensures hash in At(c, ops, n).seen <==> Alive(c, ops, n, hash)
    ensures Dated(c, ops, n, hash)
  {
    hide CheckHash, Sweep, VerdictOn, Expired, Max;
    var before, after, op := At(c, ops, n - 1), At(c, ops, n), ops[n - 1];
    ConfigStays(c, ops, n - 1);
    LivesNow(c, ops, n, hash);
    assert Lives(c, ops, n, n - 1, hash) ==> Alive(c, ops, n, hash);
    match op {
      case Apply(applied, now) => ApplyRemembers(before, applied, now, hash);
      case Flush(now) => FlushRemembers(before, now, hash);
    }
    forall i: nat | Lives(c, ops, n, i, hash) ensures hash in after.seen && after.seen[hash] == KeptTime(c, ops, i) {
      InTime(c, ops, n, i, hash);
      if i < n - 1 {
        LivesOn(c, ops, n, i, hash);
      }
    }
    if hash in after.seen && hash in before.seen {
      var i: nat :| Lives(c, ops, n - 1, i, hash);
      InTime(c, ops, n - 1, i, hash);
      LivesOn(c, ops, n, i, hash);
      assert Lives(c, ops, n, i, hash);
    }
  }

  lemma InTime(c: Cache, ops: seq<Op>, n: nat, i: nat, hash: Hash)
    requires n <= |ops| && Lives(c, ops, n, i, hash)
    ensures i < n
  {
  }

  /** The latest operation lives exactly if it kept the hash, which needs it not to be remembered yet. */
  lemma {:induction false} LivesNow(c: Cache, ops: seq<Op>, n: nat, hash: Hash)
    requires 0 < n <= |ops|
    ensures Lives(c, ops, n, n - 1, hash) <==>
            ops[n - 1].Apply? && ops[n - 1].hash == hash && VerdictOn(At(c, ops, n - 1), hash) == Kept
    ensures Lives(c, ops, n, n - 1, hash) ==>
            hash !in At(c, ops, n - 1).seen
                && KeptTime(c, ops, n - 1) == Max(ops[n - 1].now, At(c, ops, n - 1).lastSweep)
  {
  }

  /** An apply is suppressed exactly when an equal one was kept before it and not swept since. */
  lemma {:induction false} SuppressedExactly(c: Cache, ops: seq<Op>, n: nat, hash: Hash, now: Seconds)
    requires c.seen == map[] && n <= |ops|
    ensures !CheckHash(At(c, ops, n), hash, now).1 <==> Alive(c, ops, n, hash)
  {
    RemembersTheLiving(c, ops, n, hash);
  }

  ghost predicate NonePreExpired(c: Cache) { forall h :: h in c.seen ==> c.lastSweep - c.seen[h] < c.ttl }

  lemma {:induction false} StepPreExpiresNone(c: Cache, op: Op)
    requires NonePreExpired(c) && c.ttl > 0
    ensures NonePreExpired(Step(c, op))
  {
    var after := Step(c, op);
    forall h | h in after.seen ensures after.lastSweep - after.seen[h] < after.ttl {
      match op
      case Apply(applied, now) => ApplyRemembers(c, applied, now, h);
      case Flush(now) => FlushRemembers(c, now, h);
    }
  }

  /** No entry is ever as old, at the last sweep, as that sweep drops: late applies are not stored already expired. */
  lemma {:induction false} NothingPreExpired(c: Cache, ops: seq<Op>, n: nat)
    requires c.seen == map[] && n <= |ops| && c.ttl > 0
    ensures NonePreExpired(At(c, ops, n))
  {
    if n > 0 {
      NothingPreExpired(c, ops, n - 1);
      ConfigStays(c, ops, n - 1);
      StepPreExpiresNone(At(c, ops, n - 1), ops[n - 1]);
    }
  }

  // ----- Batches

  function Applies(hashes: seq<Hash>, now: Seconds): seq<Op> {
    seq(|hashes|, i requires 0 <= i < |hashes| => Apply(hashes[i], now))
  }

  /** A batch leaves the cache, and marks each apply, as if its applies had been checked one by one. */
  lemma {:induction false} BatchIsSequential(c: Cache, hashes: seq<Hash>, now: Seconds, n: nat)
    requires n <= |hashes|
    ensures var ops := Applies(hashes, now);
            && Rest(c, hashes, now, []) == Rest(At(c, ops, n), hashes[n..], now, CheckAll(c, hashes[..n], now).1)
            && |CheckAll(c, hashes[..n], now).1| == n
            && (n > 0 ==> CheckAll(c, hashes[..n], now).1[n - 1] == CheckHash(At(c, ops, n - 1), hashes[n - 1], now).1)
  {
    var ops := Applies(hashes, now);
    if n == 0 {
      assert hashes[0..] == hashes && hashes[..0] == [];
    } else {
      BatchIsSequential(c, hashes, now, n - 1);
      CheckAllSnoc(c, hashes[..n - 1], hashes[n - 1], now, ops);
      assert hashes[..n] == hashes[..n - 1] + [hashes[n - 1]];
      RestStep(At(c, ops, n - 1), hashes[n - 1..], now, CheckAll(c, hashes[..n - 1], now).1);
      assert hashes[n - 1..][1..] == hashes[n..];
    }
  }

  lemma {:induction false} CheckAllSnoc(c: Cache, hashes: seq<Hash>, last: Hash, now: Seconds, ops: seq<Op>)
    requires |hashes| <= |ops| && forall i :: 0 <= i < |hashes| ==> ops[i] == Apply(hashes[i], now)
    ensures CheckAll(c, hashes + [last], now).1
        == CheckAll(c, hashes, now).1 + [CheckHash(At(c, ops, |hashes|), last, now).1]
    decreases |hashes|
  {
    hide CheckHash;
    if hashes == [] {
      assert [] + [last] == [last] && [last][1..] == [];
    } else {
      var c1 := CheckHash(c, hashes[0], now).0;
      assert (hashes + [last])[1..] == hashes[1..] + [last];
      CheckAllSnoc(c1, hashes[1..], last, now, ops[1..]);
      AtShift(c, ops, |hashes|);
    }
  }

  lemma {:induction false} AtShift(c: Cache, ops: seq<Op>, n: nat)
    requires 0 < n <= |ops|
    ensures At(c, ops, n) == At(Step(c, ops[0]), ops[1..], n - 1)
  {
    if n > 1 {
      AtShift(c, ops, n - 1);
    }
  }
}
