/**
 The apply cache: a bounded map from dedup hash to the time it was kept, swept by age. A word of the result mask is
 given by its 64 bits.
 */
module ApplyDedup {
  /** The 64-bit hash of an apply's key, which serves as the key. */
  type Hash = nat

  const U64: nat := 0x1_0000_0000_0000_0000
  const I64_MAX: int := 0x7FFF_FFFF_FFFF_FFFF
  const I64_MIN: int := -0x8000_0000_0000_0000
  const SWEEP_MIN_INTERVAL_SECONDS: int := 10

  type Seconds = t: int | I64_MIN <= t <= I64_MAX

  datatype Cache = Cache(seen: map<Hash, Seconds>, ttl: Seconds, maxEntries: nat, lastSweep: Seconds,
                         total: nat, deduped: nat, overflow: nat, sweeps: nat)

  function New(ttl: Seconds, maxEntries: nat): Cache { Cache(map[], ttl, maxEntries, 0, 0, 0, 0, 0) }

  function Max(a: Seconds, b: Seconds): Seconds { if a >= b then a else b }

  function Inc(n: nat): nat { (n + 1) % U64 }

  function SaturatingSub(a: Seconds, b: Seconds): Seconds {
    if a - b > I64_MAX then I64_MAX else if a - b < I64_MIN then I64_MIN else a - b
  }

  /** One apply: whether it is to be logged. */
  function CheckHash(c: Cache, hash: Hash, now: Seconds): (Cache, bool) {
    if hash in c.seen then (c.(total := Inc(c.total), deduped := Inc(c.deduped)), false)
    else if |c.seen| < c.maxEntries then (c.(total := Inc(c.total),
        seen := c.seen[hash := Max(now, c.lastSweep)]), true)
    else (c.(total := Inc(c.total), overflow := Inc(c.overflow)), true)
  }

  predicate Sweeps(c: Cache, now: Seconds) { SaturatingSub(now, c.lastSweep) >= SWEEP_MIN_INTERVAL_SECONDS }

  function Sweep(c: Cache, now: Seconds): Cache {
    if !Sweeps(c, now) then c
    else c.(lastSweep := now, sweeps := Inc(c.sweeps),
            seen := map h | h in c.seen && SaturatingSub(now, c.seen[h]) < c.ttl :: c.seen[h])
  }

  /** A batch is checked apply by apply, all at the same time. */
  function CheckAll(c: Cache, hashes: seq<Hash>, now: Seconds): (Cache, seq<bool>)
    decreases |hashes|
  {
    if hashes == [] then (c, [])
    else
      var (c1, first) := CheckHash(c, hashes[0], now);
      var (c2, rest) := CheckAll(c1, hashes[1..], now);
      (c2, [first] + rest)
  }

  /** A batch of which the first applies have been checked already. */
  function Rest(c: Cache, hashes: seq<Hash>, now: Seconds, keep: seq<bool>): (Cache, seq<bool>) {
    (CheckAll(c, hashes, now).0, keep + CheckAll(c, hashes, now).1)
  }

  lemma {:induction false} RestStep(c: Cache, hashes: seq<Hash>, now: Seconds, keep: seq<bool>)
    requires hashes != []
    ensures var (c1, isNew) := CheckHash(c, hashes[0], now);
            Rest(c, hashes, now, keep) == Rest(c1, hashes[1..], now, keep + [isNew])
  {
    hide CheckHash;
    var (c1, isNew) := CheckHash(c, hashes[0], now);
    assert keep + ([isNew] + CheckAll(c1, hashes[1..], now).1) == keep + [isNew] + CheckAll(c1, hashes[1..], now).1;
  }

  lemma RestStarts(c: Cache, hashes: seq<Hash>, now: Seconds)
    ensures Rest(c, hashes, now, []) == CheckAll(c, hashes, now)
  {
    assert [] + CheckAll(c, hashes, now).1 == CheckAll(c, hashes, now).1;
  }

  lemma RestEnds(c: Cache, now: Seconds, keep: seq<bool>)
    ensures Rest(c, [], now, keep) == (c, keep)
  {
    assert keep + [] == keep;
  }

  // ----- The result of a batch

  type Word = w: seq<bool> | |w| == 64 witness seq(64, _ => false)

  const NO_BITS: Word := seq(64, _ => false)

  function Marks(keep: seq<bool>): nat { if keep == [] then 0 else (if keep[0] then 1 else 0) + Marks(keep[1..]) }

  /** The elements whose mark is set, in order. */
  function Marked<T>(items: seq<T>, keep: seq<bool>): seq<T>
    requires |items| == |keep|
  {
    if items == [] then [] else (if keep[0] then [items[0]] else []) + Marked(items[1..], keep[1..])
  }

  lemma {:induction false} MarksAppend(keep: seq<bool>, k: bool)
    ensures Marks(keep + [k]) == Marks(keep) + (if k then 1 else 0)
    decreases |keep|
  {
    if keep == [] {
      assert keep + [k] == [k] && [k][1..] == [];
    } else {
      assert (keep + [k])[1..] == keep[1..] + [k];
      MarksAppend(keep[1..], k);
    }
  }

  lemma {:induction false} MarkedAppend<T>(items: seq<T>, x: T, keep: seq<bool>, k: bool)
    requires |items| == |keep|
    ensures Marked(items + [x], keep + [k]) == Marked(items, keep) + (if k then [x] else [])
    decreases |items|
  {
    if items == [] {
      assert items + [x] == [x] && keep + [k] == [k] && [x][1..] == [] && [k][1..] == [];
    } else {
      assert (items + [x])[1..] == items[1..] + [x] && (keep + [k])[1..] == keep[1..] + [k];
      MarkedAppend(items[1..], x, keep[1..], k);
    }
  }

  lemma {:induction false} AllMarked<T>(items: seq<T>, keep: seq<bool>)
    requires |items| == |keep|
    ensures Marks(keep) <= |keep|
    ensures Marks(keep) == |keep| ==> Marked(items, keep) == items
  {
    if items != [] {
      AllMarked(items[1..], keep[1..]);
    }
  }

  class DedupResult {
    var small: Word
    var large: seq<Word>
    var count: nat

    predicate IsKept(i: nat)
      reads this
    {
      if large == [] then i < 64 && small[i] else i / 64 < |large| && large[i / 64][i % 64]
    }

    /** The mask stands for the marks `keep`, and is set nowhere else. */
    ghost predicate Holds(keep: seq<bool>)
      reads this
    {
      && count == Marks(keep)
      && forall i: nat :: IsKept(i) <==> i < |keep| && keep[i]
    }

    /** The index has a bit. */
    predicate Fits(i: nat)
      reads this
    {
      if large == [] then i < 64 else i / 64 < |large|
    }

    constructor (len: nat)
      ensures Holds([]) && forall i: nat :: i < len ==> Fits(i)
    {
      small := NO_BITS;
      large := if len > 64 then seq(len / 64 + 1, _ => NO_BITS) else [];
      count := 0;
    }

    /** Marks the next apply of a batch; the marks of those before it stay as they are. */
    method Mark(i: nat, ghost keep: seq<bool>)
      requires Fits(i) && Holds(keep) && i == |keep|
      modifies this
      ensures Holds(keep + [true])
      ensures forall j: nat :: old(Fits(j)) ==> Fits(j)
    {
      if large == [] {
        if i < 64 {
          small := small[i := true];
        }
      } else if i / 64 < |large| {
        large := large[i / 64 := large[i / 64][i % 64 := true]];
        assert forall j: nat :: j != i ==> j / 64 != i / 64 || j % 64 != i % 64;
      }
      count := count + 1;
      assert forall j: nat :: IsKept(j) <==> old(IsKept(j)) || j == i;
      MarksAppend(keep, true);
      assert forall j: nat :: j < |keep + [true]| && (keep + [true])[j] <==> (j < |keep| && keep[j]) || j == i;
    }

    /** Leaving an apply out needs nothing. */
    lemma Skip(keep: seq<bool>)
      requires Holds(keep)
      ensures Holds(keep + [false])
    {
      MarksAppend(keep, false);
      assert forall j: nat :: j < |keep + [false]| && (keep + [false])[j] <==> j < |keep| && keep[j];
    }

    /** For the batch the mask was made for, the marked applies in order; with all of them kept, the batch as it is. */
    method Collect<T>(items: seq<T>, ghost keep: seq<bool>) returns (kept: seq<T>)
      requires |items| == |keep| && Holds(keep)
      ensures kept == Marked(items, keep)
    {
      AllMarked(items, keep);
      if count == |items| {
        return items;
      }
      kept := [];
      var i := 0;
      while i < |items|
        invariant i <= |items| && kept == Marked(items[..i], keep[..i])
      {
        MarkedAppend(items[..i], items[i], keep[..i], keep[i]);
        assert items[..i + 1] == items[..i] + [items[i]] && keep[..i + 1] == keep[..i] + [keep[i]];
        if IsKept(i) {
          kept := kept + [items[i]];
        }
        i := i + 1;
      }
      assert items[..|items|] == items && keep[..|items|] == keep;
    }
  }

  // ----- The cache as it runs

  class ApplyDedup {
    var seen: map<Hash, Seconds>
    const ttl: Seconds
    const maxEntries: nat
    var lastSweep: Seconds
    var total: nat
    var deduped: nat
    var overflow: nat
    var sweeps: nat

    ghost function View(): Cache
      reads this
    {
      Cache(seen, ttl, maxEntries, lastSweep, total, deduped, overflow, sweeps)
    }

    constructor (ttl: Seconds, maxEntries: nat)
      ensures View() == New(ttl, maxEntries)
    {
      this.ttl, this.maxEntries := ttl, maxEntries;
      seen, lastSweep, total, deduped, overflow, sweeps := map[], 0, 0, 0, 0, 0;
    }

    method Check(hash: Hash, now: Seconds) returns (isNew: bool)
      modifies this
      ensures (View(), isNew) == CheckHash(old(View()), hash, now)
    {
      var clamped := Max(now, lastSweep);
      total := Inc(total);
      if hash in seen {
        deduped := Inc(deduped);
        return false;
      }
      if |seen| < maxEntries {
        seen := seen[hash := clamped];
      } else {
        overflow := Inc(overflow);
      }
      isNew := true;
    }

    method FilterDuplicates(hashes: seq<Hash>, now: Seconds) returns (result: DedupResult)
      modifies this
      ensures fresh(result) && View() == CheckAll(old(View()), hashes, now).0
      ensures result.Holds(CheckAll(old(View()), hashes, now).1)
    {
      hide Inc, Rest, CheckAll, Marks;
      result := new DedupResult(|hashes|);
      var clamped := Max(now, lastSweep);
      ghost var start, keep := View(), [];
      RestStarts(start, hashes, now);
      assert hashes[0..] == hashes;
      var i := 0;
      while i < |hashes|
        invariant i == |keep| <= |hashes| && lastSweep == start.lastSweep && fresh(result)
        invariant result.Holds(keep) && forall j: nat :: j < |hashes| ==> result.Fits(j)
        invariant Rest(View(), hashes[i..], now, keep) == CheckAll(start, hashes, now)
      {
        var hash := hashes[i];
        ghost var before, isNew := View(), hash !in seen;
        RestStep(before, hashes[i..], now, keep);
        assert hashes[i..][1..] == hashes[i + 1..];
        result.Skip(keep);
        total := Inc(total);
        if hash in seen {
          deduped := Inc(deduped);
        } else {
          if |seen| < maxEntries {
            seen := seen[hash := clamped];
          } else {
            overflow := Inc(overflow);
          }
          result.Mark(i, keep);
        }
        keep := keep + [isNew];
        i := i + 1;
      }
      assert hashes[i..] == [];
      RestEnds(View(), now, keep);
    }

    method SweepAt(now: Seconds)
      modifies this
      ensures View() == Sweep(old(View()), now)
    {
      if SaturatingSub(now, lastSweep) < SWEEP_MIN_INTERVAL_SECONDS {
        return;
      }
      lastSweep := now;
      sweeps := Inc(sweeps);
      seen := map h | h in seen && SaturatingSub(now, seen[h]) < ttl :: seen[h];
    }
  }
}
