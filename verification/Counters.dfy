/**
 The two containers of counters that telemetry keeps: vectors indexed by bucket or reason, which grow on demand, and
 lists keyed by a label set, which stay sorted. Both are determined by what a lookup returns.
 */
module Counters {
  import opened Wrappers

  const U32: nat := 0x1_0000_0000
  const U64: nat := 0x1_0000_0000_0000_0000

  function Add(a: nat, b: nat, modulus: nat): nat
    requires modulus > 0
  {
    (a + b) % modulus
  }

  /** Reducing a summand first makes no difference to a modular sum. */
  lemma AddReduced(a: nat, b: nat, m: nat)
    requires m > 0
    ensures (a % m + b) % m == (a + b) % m && (a + b % m) % m == (a + b) % m
  {
    var q, r := a / m, b / m;
    assert a + b == (a % m + b) + m * q && a + b == (a + b % m) + m * r;
    DropMultiple(a % m + b, q, m);
    DropMultiple(a + b % m, r, m);
  }

  lemma {:induction false} DropMultiple(a: nat, q: nat, m: nat)
    requires m > 0
    ensures (a + m * q) % m == a % m
  {
    if q > 0 {
      DropMultiple(a, q - 1, m);
      var b := a + m * (q - 1);
      assert a + m * q == b + m;
      DropOne(b, m);
    }
  }

  lemma DropOne(b: nat, m: nat)
    requires m > 0
    ensures (b + m) % m == b % m
  {
    assert b + m == m * (b / m + 1) + b % m;
    var x, y := (b + m) / m, (b + m) % m;
    assert b + m == m * x + y;
    if x > b / m + 1 {
      Scale(x, b / m + 2, m);
    } else if x < b / m + 1 {
      Scale(b / m, x, m);
    }
  }

  lemma Scale(x: nat, y: nat, m: nat)
    requires x >= y
    ensures m * x >= m * y
  {
    assert m * x == m * y + m * (x - y);
  }

  lemma Divided(n: nat, m: nat)
    requires m > 0
    ensures n == n % m + m * (n / m)
  {
  }

  lemma ResidueIs(n: nat, m: nat, q: nat, b: nat)
    requires m > 0 && b < m && n == b + m * q
    ensures n % m == b && (n - b) % m == 0
  {
    DropMultiple(b, q, m);
    DropMultiple(0, q, m);
  }

  lemma ResidueIsCongruent(n: nat, m: nat)
    requires m > 0
    ensures (n - n % m) % m == 0
  {
    Divided(n, m);
    ResidueIs(n, m, n / m, n % m);
  }

  lemma {:induction false} NextResidue(n: nat, m: nat, q: nat, b: nat)
    requires m > 0 && b < m && n == b + m * q
    ensures (n + 1) % m == if b + 1 < m then b + 1 else 0
  {
    if b + 1 < m {
      ResidueIs(n + 1, m, q, b + 1);
    } else {
      OneMore(m, q);
      ResidueIs(n + 1, m, q + 1, 0);
    }
  }

  lemma OneMore(m: nat, q: nat)
    ensures m * (q + 1) == m * q + m
  {
  }

  lemma ResidueTakesTurns(n: nat, m: nat)
    requires m > 0
    ensures (n + 1) % m == if n % m + 1 < m then n % m + 1 else 0
  {
    Divided(n, m);
    NextResidue(n, m, n / m, n % m);
  }

  lemma AddAssociates(a: nat, b: nat, c: nat, m: nat)
    requires m > 0
    ensures Add(a, Add(b, c, m), m) == Add(Add(a, b, m), c, m) == Add(a, b + c, m)
  {
    AddReduced(a, b + c, m);
    AddReduced(a + b, c, m);
  }

  lemma AddZero(a: nat, m: nat)
    requires a < m
    ensures Add(a, 0, m) == a && Add(0, a, m) == a
  {
  }

  lemma AddIsBelow(a: nat, b: nat, m: nat)
    requires m > 0
    ensures Add(a, b, m) < m && (b == 0 && a < m ==> Add(a, b, m) == a)
  {
  }

  lemma AddTells(a: nat, x: nat, y: nat)
    requires a < U64 && x < U64 && y < U64
    ensures Add(a, x, U64) == Add(a, y, U64) <==> x == y
  {
  }

  lemma {:induction false} AddApart(s: nat, x: nat, y: nat)
    requires x < U64 && y < U64
    ensures Add(s, x, U64) == Add(s, y, U64) <==> x == y
  {
    AddReduced(s, x, U64);
    AddReduced(s, y, U64);
    AddTells(s % U64, x, y);
  }

  /** An amount that was first reduced to 32 bits is added whole exactly when it fits them, to within 64 bits. */
  lemma {:induction false} AddSurvives(s: nat, x: nat)
    ensures Add(s, x % U32, U64) == Add(s, x, U64) <==> x % U64 < U32
  {
    var q, r := x / U64, x % U64;
    assert x == r + U32 * (U32 * q);
    DropMultiple(r, U32 * q, U32);
    AddReduced(s, x, U64);
    AddApart(s, x % U32, r);
  }

  // ----- Vectors

  type Vector = seq<nat>

  /** One addition to a counter of a vector: its index and the amount. */
  datatype Bump = Bump(index: nat, amount: nat)

  function Get(v: Vector, i: nat): nat { if i < |v| then v[i] else 0 }

  function Resized(v: Vector, n: nat): Vector { if |v| >= n then v else v + seq(n - |v|, _ => 0) }

  function AddAt(v: Vector, b: Bump): (r: Vector)
    ensures |r| == if |v| > b.index then |v| else b.index + 1
    ensures forall j: nat :: Get(r, j) == if j == b.index then Add(Get(v, j), b.amount, U64) else Get(v, j)
  {
    var grown := Resized(v, b.index + 1);
    grown[b.index := Add(grown[b.index], b.amount, U64)]
  }

  function AddAll(v: Vector, bumps: seq<Bump>): Vector
    decreases |bumps|
  {
    if bumps == [] then v else AddAll(AddAt(v, bumps[0]), bumps[1..])
  }

  function SumAt(bumps: seq<Bump>, i: nat): nat {
    if bumps == [] then 0 else (if bumps[0].index == i then bumps[0].amount else 0) + SumAt(bumps[1..], i)
  }

  /** One past the highest index that is added to. */
  function Reach(bumps: seq<Bump>): nat {
    if bumps == [] then 0
    else var rest := Reach(bumps[1..]); if rest > bumps[0].index then rest else bumps[0].index + 1
  }

  ghost predicate Small(v: Vector) { forall i :: 0 <= i < |v| ==> v[i] < U64 }

  /** What a series of additions leaves: its reach, and in each counter the sum of what was added to it. */
  lemma {:induction false} AddAllSums(v: Vector, bumps: seq<Bump>)
    requires Small(v)
    ensures Small(AddAll(v, bumps))
    ensures |AddAll(v, bumps)| == if |v| > Reach(bumps) then |v| else Reach(bumps)
    ensures forall i: nat :: Get(AddAll(v, bumps), i) == Add(Get(v, i), SumAt(bumps, i), U64)
    decreases |bumps|
  {
    hide Add, AddAt;
    forall i: nat ensures Get(v, i) < U64 && Add(Get(v, i), 0, U64) == Get(v, i) {
      AddZero(Get(v, i), U64);
    }
    if bumps != [] {
      var next := AddAt(v, bumps[0]);
      assert forall i :: 0 <= i < |next| ==> next[i] == Get(next, i);
      AddIsBelow(Get(v, bumps[0].index), bumps[0].amount, U64);
      AddAllSums(next, bumps[1..]);
      forall i: nat ensures Get(AddAll(v, bumps), i) == Add(Get(v, i), SumAt(bumps, i), U64) {
        AddAssociates(Get(v, i), bumps[0].amount, SumAt(bumps[1..], i), U64);
      }
    }
  }

  lemma VectorsEqual(v: Vector, w: Vector)
    requires |v| == |w| && forall i: nat :: Get(v, i) == Get(w, i)
    ensures v == w
  {
    assert forall i :: 0 <= i < |v| ==> v[i] == Get(v, i) && w[i] == Get(w, i);
  }

  lemma {:induction false} SumAtAppend(a: seq<Bump>, b: seq<Bump>, i: nat)
    ensures SumAt(a + b, i) == SumAt(a, i) + SumAt(b, i)
    ensures Reach(a + b) == if Reach(a) > Reach(b) then Reach(a) else Reach(b)
    decreases |a|
  {
    if a == [] {
      assert a + b == b;
    } else {
      assert (a + b)[1..] == a[1..] + b;
      SumAtAppend(a[1..], b, i);
    }
  }

  lemma {:induction false} AddAllAppend(v: Vector, a: seq<Bump>, b: seq<Bump>)
    ensures AddAll(v, a + b) == AddAll(AddAll(v, a), b)
    decreases |a|
  {
    if a == [] {
      assert a + b == b;
    } else {
      assert (a + b)[0] == a[0] && (a + b)[1..] == a[1..] + b;
      AddAllAppend(AddAt(v, a[0]), a[1..], b);
    }
  }

  /** Index-wise addition of two vectors; the wider one decides the width. */
  function AddVectors(v: Vector, w: Vector): (r: Vector)
    ensures |r| == if |v| > |w| then |v| else |w|
    ensures forall i: nat :: Get(r, i) == if i < |w| then Add(Get(v, i), Get(w, i), U64) else Get(v, i)
  {
    var grown := Resized(v, |w|);
    seq(|grown|, i requires 0 <= i < |grown| => if i < |w| then Add(grown[i], w[i], U64) else grown[i])
  }

  /** The loop that adds slot by slot. */
  method AddSlots(v: Vector, w: Vector) returns (r: Vector)
    ensures r == AddVectors(v, w)
  {
    r := Resized(v, |w|);
    var i := 0;
    while i < |w|
      invariant i <= |w| <= |r| == |AddVectors(v, w)|
      invariant r[..i] == AddVectors(v, w)[..i] && r[i..] == Resized(v, |w|)[i..]
    {
      assert r[i] == r[i..][0] == Resized(v, |w|)[i];
      r := r[i := Add(r[i], w[i], U64)];
      assert r[i] == AddVectors(v, w)[i];
      i := i + 1;
    }
    assert r[..i] + r[i..] == r && AddVectors(v, w)[..i] + AddVectors(v, w)[i..] == AddVectors(v, w);
  }

  /** Adding a vector that is itself a sum of additions is making those additions. */
  lemma {:induction false} AddVectorsOfSums(v: Vector, w: Vector, b: Bump)
    requires Small(v) && Small(w)
    ensures AddVectors(v, AddAt(w, b)) == AddAt(AddVectors(v, w), b)
  {
    hide Add, AddAt, AddVectors;
    var left, right := AddVectors(v, AddAt(w, b)), AddAt(AddVectors(v, w), b);
    forall i: nat ensures Get(left, i) == Get(right, i) {
      assert Get(v, i) < U64;
      AddZero(Get(v, i), U64);
      AddAssociates(Get(v, i), Get(w, i), b.amount, U64);
    }
    VectorsEqual(left, right);
  }

  // ----- Keyed lists

  /** A label set written out: the characters of its keys and values in order, each followed by a terminator. */
  type Labels = seq<nat>

  /** The lexicographic order of label sets. */
  predicate Before(a: Labels, b: Labels) {
    b != [] && (a == [] || a[0] < b[0] || (a[0] == b[0] && Before(a[1..], b[1..])))
  }

  lemma {:induction false} BeforeIsTotal(a: Labels, b: Labels)
    ensures !(Before(a, b) && Before(b, a)) && (a == b ==> !Before(a, b))
    ensures a != b ==> Before(a, b) || Before(b, a)
  {
    if a != [] && b != [] {
      assert a == [a[0]] + a[1..] && b == [b[0]] + b[1..];
      BeforeIsTotal(a[1..], b[1..]);
    }
  }

  lemma {:induction false} BeforeIsTransitive(a: Labels, b: Labels, c: Labels)
    requires Before(a, b) && Before(b, c)
    ensures Before(a, c)
  {
    if a != [] && a[0] == b[0] == c[0] {
      BeforeIsTransitive(a[1..], b[1..], c[1..]);
    }
  }

  datatype Entry = Entry(labels: Labels, count: nat)

  type Entries = seq<Entry>

  ghost predicate Sorted(l: Entries) { forall i, j :: 0 <= i < j < |l| ==> Before(l[i].labels, l[j].labels) }

  function Lookup(l: Entries, k: Labels): Option<nat> {
    if l == [] then None else if l[0].labels == k then Some(l[0].count) else Lookup(l[1..], k)
  }

  /** Adds to the entry of a label set where there is one. */
  function Increase(l: Entries, e: Entry, m: nat): Entries
    requires m > 0
  {
    if l == [] then []
    else if l[0].labels == e.labels then [Entry(e.labels, Add(l[0].count, e.count, m))] + l[1..]
    else [l[0]] + Increase(l[1..], e, m)
  }

  /** Inserts before the first entry that is not less. */
  function Insert(l: Entries, e: Entry): Entries {
    if l != [] && Before(l[0].labels, e.labels) then [l[0]] + Insert(l[1..], e) else [e] + l
  }

  function AddEntry(l: Entries, e: Entry, m: nat): Entries
    requires m > 0
  {
    if Lookup(l, e.labels).Some? then Increase(l, e, m) else Insert(l, e)
  }

  function AddEntries(l: Entries, es: seq<Entry>, m: nat): Entries
    requires m > 0
    decreases |es|
  {
    if es == [] then l else AddEntries(AddEntry(l, es[0], m), es[1..], m)
  }

  lemma {:induction false} LookupNeedsEntry(l: Entries, k: Labels)
    ensures Lookup(l, k).Some? <==> exists i :: 0 <= i < |l| && l[i].labels == k
  {
    if l != [] {
      LookupNeedsEntry(l[1..], k);
      assert forall i :: 0 < i < |l| ==> l[i] == l[1..][i - 1];
    }
  }

  lemma {:induction false} IncreaseLooksUp(l: Entries, e: Entry, m: nat, k: Labels)
    requires m > 0
    ensures |Increase(l, e, m)| == |l| && forall i :: 0 <= i < |l| ==> Increase(l, e, m)[i].labels == l[i].labels
    ensures Lookup(Increase(l, e, m), k) ==
            if k == e.labels && Lookup(l, k).Some? then Some(Add(Lookup(l, k).value, e.count, m)) else Lookup(l, k)
  {
    if l != [] && l[0].labels != e.labels {
      IncreaseLooksUp(l[1..], e, m, k);
    }
  }

  lemma {:induction false} InsertLooksUp(l: Entries, e: Entry, k: Labels)
    ensures Lookup(l, e.labels).None? ==> Lookup(Insert(l, e), k) == if k == e.labels then Some(e.count)
        else Lookup(l, k)
    ensures forall x :: x in Insert(l, e) ==> x == e || x in l
  {
    if l != [] && Before(l[0].labels, e.labels) {
      InsertLooksUp(l[1..], e, k);
      assert Insert(l, e)[1..] == Insert(l[1..], e);
    } else {
      assert Insert(l, e)[1..] == l;
    }
  }

  lemma {:induction false} InsertKeepsSorted(l: Entries, e: Entry)
    requires Sorted(l) && Lookup(l, e.labels).None?
    ensures Sorted(Insert(l, e))
  {
    var r := Insert(l, e);
    if l == [] {
    } else if Before(l[0].labels, e.labels) {
      assert Sorted(l[1..]);
      InsertKeepsSorted(l[1..], e);
      InsertLooksUp(l[1..], e, []);
      forall j | 0 < j < |r| ensures Before(r[0].labels, r[j].labels) {
        assert r[j] == r[1..][j - 1] && r[j] in Insert(l[1..], e);
      }
      assert forall i, j :: 0 < i < j < |r| ==> Before(r[i].labels, r[j].labels) by {
        assert forall i :: 0 < i < |r| ==> r[i] == r[1..][i - 1];
      }
    } else {
      BeforeIsTotal(l[0].labels, e.labels);
      forall j | 0 < j < |r| ensures Before(e.labels, r[j].labels) {
        if j > 1 {
          BeforeIsTransitive(e.labels, l[0].labels, l[j - 1].labels);
        }
      }
    }
  }

  /** Adding an entry to a sorted list keeps it sorted, and is an addition under its label set. */
  lemma {:induction false} AddEntryLooksUp(l: Entries, e: Entry, m: nat, k: Labels)
    requires m > 0 && Sorted(l) && e.count < m
    ensures Sorted(AddEntry(l, e, m))
    ensures Lookup(AddEntry(l, e, m), k) ==
            if k == e.labels then Some(Add(if Lookup(l, k).Some? then Lookup(l, k).value else 0, e.count, m))
                else Lookup(l, k)
  {
    IncreaseLooksUp(l, e, m, k);
    InsertLooksUp(l, e, k);
    if Lookup(l, e.labels).None? {
      InsertKeepsSorted(l, e);
    }
  }

  /** A sorted list is determined by its lookups. */
  lemma {:induction false} EntriesEqual(a: Entries, b: Entries)
    requires Sorted(a) && Sorted(b) && forall k :: Lookup(a, k) == Lookup(b, k)
    ensures a == b
  {
    if a == [] {
      if b != [] {
        FirstLooksUp(b);
      }
    } else {
      assert Lookup(b, a[0].labels) == Some(a[0].count);
      FirstIsLeast(a, b);
      FirstIsLeast(b, a);
      BeforeIsTotal(a[0].labels, b[0].labels);
      assert a[0] == b[0];
      forall k ensures Lookup(a[1..], k) == Lookup(b[1..], k) {
        assert Lookup(a, k) == Lookup(b, k);
        if k == a[0].labels {
          AbsentFromRest(a);
          AbsentFromRest(b);
        }
      }
      EntriesEqual(a[1..], b[1..]);
      assert a == [a[0]] + a[1..] && b == [b[0]] + b[1..];
    }
  }

  lemma FirstLooksUp(l: Entries)
    requires l != []
    ensures Lookup(l, l[0].labels) == Some(l[0].count)
  {
  }

  lemma {:induction false} FirstIsLeast(a: Entries, b: Entries)
    requires Sorted(a) && Sorted(b) && a != [] && Lookup(b, a[0].labels).Some?
    ensures b != [] && (b[0].labels == a[0].labels || Before(b[0].labels, a[0].labels))
  {
    LookupNeedsEntry(b, a[0].labels);
  }

  lemma {:induction false} AbsentFromRest(a: Entries)
    requires Sorted(a) && a != []
    ensures Lookup(a[1..], a[0].labels).None? && Sorted(a[1..])
  {
    LookupNeedsEntry(a[1..], a[0].labels);
    BeforeIsTotal(a[0].labels, a[0].labels);
  }

  function SumFor(es: seq<Entry>, k: Labels): nat {
    if es == [] then 0 else (if es[0].labels == k then es[0].count else 0) + SumFor(es[1..], k)
  }

  predicate Mentions(es: seq<Entry>, k: Labels) { exists i :: 0 <= i < |es| && es[i].labels == k }

  function Base(l: Entries, k: Labels): nat { if Lookup(l, k).Some? then Lookup(l, k).value else 0 }

  ghost predicate Below(l: seq<Entry>, m: nat) { forall e :: e in l ==> e.count < m }

  /** What a series of additions leaves under each label set. */
  lemma {:induction false} AddEntriesSums(l: Entries, es: seq<Entry>, m: nat, k: Labels)
    requires m > 0 && Sorted(l) && Below(es, m) && (Lookup(l, k).Some? ==> Lookup(l, k).value < m)
    ensures Sorted(AddEntries(l, es, m))
    ensures Lookup(AddEntries(l, es, m), k) ==
            if Lookup(l, k).None? && !Mentions(es, k) then None else Some(Add(Base(l, k), SumFor(es, k), m))
    decreases |es|
  {
    hide Add, Sorted, AddEntry, Mentions;
    MentionsNone(k);
    AddIsBelow(Base(l, k), if es == [] then 0 else es[0].count, m);
    if es != [] {
      var next := AddEntry(l, es[0], m);
      assert es[0] in es && forall e :: e in es[1..] ==> e in es;
      AddEntryLooksUp(l, es[0], m, k);
      AddEntriesSums(next, es[1..], m, k);
      MentionsSplit(es, k);
      AddAssociates(Base(l, k), es[0].count, SumFor(es[1..], k), m);
    }
  }

  lemma MentionsNone(k: Labels)
    ensures !Mentions([], k)
  {
  }

  lemma {:induction false} MentionsSplit(es: seq<Entry>, k: Labels)
    requires es != []
    ensures Mentions(es, k) <==> es[0].labels == k || Mentions(es[1..], k)
  {
    assert forall i :: 0 < i < |es| ==> es[i] == es[1..][i - 1];
    assert forall i :: 0 <= i < |es| - 1 ==> es[1..][i] == es[i + 1];
  }
}
