/** Materialization records in a key-value store: the key encoding, and what is read after any history of writes. */
module KvStore {
  import opened Wrappers
  import opened Materializations
  import opened Protocol
  import opened Segments
  import opened Flags
  import opened ProtocolLaws
  import SegmentLaws
  import Sticky
  import Strings

  // ----- Keys

  /** `str::replace` of a character. */
  function Replace(s: string, c: char, with: string): string {
    if s == "" then "" else (if s[0] == c then with else [s[0]]) + Replace(s[1..], c, with)
  }

  function EncodeComponent(s: string): string { Replace(Replace(s, '%', "%25"), ':', "%3A") }

  function KvKey(r: Record): string {
    "mat:" + EncodeComponent(r.unit) + ":" + EncodeComponent(r.materialization) + ":" + EncodeComponent(r.rule)
  }

  function KvPrefix(unit: string, materialization: string): string {
    "mat:" + EncodeComponent(unit) + ":" + EncodeComponent(materialization) + ":"
  }

  function Escaped(c: char): string { if c == '%' then "%25" else if c == ':' then "%3A" else [c] }

  /** Reads one component back. */
  function Decode(t: string): string {
    if t == "" then ""
    else if "%25" <= t then "%" + Decode(t[3..])
    else if "%3A" <= t then ":" + Decode(t[3..])
    else [t[0]] + Decode(t[1..])
  }

  lemma {:induction false} ReplaceAppend(a: string, b: string, c: char, with: string)
    ensures Replace(a + b, c, with) == Replace(a, c, with) + Replace(b, c, with)
    decreases |a|
  {
    if a == "" {
      assert a + b == b;
    } else {
      assert (a + b)[0] == a[0] && (a + b)[1..] == a[1..] + b;
      ReplaceAppend(a[1..], b, c, with);
    }
  }

  /** The two passes over a component are one pass that escapes each character on its own. */
  lemma {:induction false} EncodesByCharacter(s: string)
    ensures s == "" ==> EncodeComponent(s) == ""
    ensures s != "" ==> EncodeComponent(s) == Escaped(s[0]) + EncodeComponent(s[1..])
  {
    if s != "" {
      var first, rest := (if s[0] == '%' then "%25" else [s[0]]), Replace(s[1..], '%', "%25");
      ReplaceAppend(first, rest, ':', "%3A");
      ReplaceNone("%25", ':', "%3A");
      if s[0] == ':' {
        assert first[1..] == "";
        assert Replace(first, ':', "%3A") == "%3A" + Replace("", ':', "%3A");
      } else {
        ReplaceNone(first, ':', "%3A");
      }
    }
  }

  lemma {:induction false} ReplaceNone(s: string, c: char, with: string)
    requires c !in s
    ensures Replace(s, c, with) == s
  {
    if s != "" {
      assert s[0] in s && forall x :: x in s[1..] ==> x in s;
      ReplaceNone(s[1..], c, with);
      assert s == [s[0]] + s[1..];
    }
  }

  /** A component is read back as it was, and has no separator in it. */
  lemma {:induction false} ComponentRoundTrip(s: string)
    ensures Decode(EncodeComponent(s)) == s && ':' !in EncodeComponent(s)
  {
    EncodesByCharacter(s);
    if s != "" {
      var rest := EncodeComponent(s[1..]);
      ComponentRoundTrip(s[1..]);
      assert (Escaped(s[0]) + rest)[|Escaped(s[0])|..] == rest;
      assert s == [s[0]] + s[1..];
      if s[0] != '%' {
        assert !("%25" <= Escaped(s[0]) + rest)
            by { assert (Escaped(s[0]) + rest)[0] == '%' ==> s[0] == ':' && (Escaped(s[0]) + rest)[1] == '3'; }
      }
    }
  }

  function Tail(key: string): string { if |key| >= 4 then key[4..] else "" }

  lemma {:induction false} KeySplits(r: Record)
    ensures Strings.Split(Tail(KvKey(r)), ':')
        == [EncodeComponent(r.unit), EncodeComponent(r.materialization), EncodeComponent(r.rule)]
  {
    hide EncodeComponent;
    var u, m, e := EncodeComponent(r.unit), EncodeComponent(r.materialization), EncodeComponent(r.rule);
    ComponentRoundTrip(r.unit);
    ComponentRoundTrip(r.materialization);
    ComponentRoundTrip(r.rule);
    assert Tail(KvKey(r)) == u + ":" + (m + ":" + e);
    Strings.SplitFirst(u, ':', m + ":" + e);
    Strings.SplitFirst(m, ':', e);
    Strings.SplitFirst(e, ':', "");
  }

  /** The key determines unit, materialization and rule. */
  lemma {:induction false} KeysTell(a: Record, b: Record)
    ensures KvKey(a) == KvKey(b) <==> SameKey(a, b)
  {
    hide EncodeComponent;
    if KvKey(a) == KvKey(b) {
      KeySplits(a);
      KeySplits(b);
      ComponentRoundTrip(a.unit);
      ComponentRoundTrip(b.unit);
      ComponentRoundTrip(a.materialization);
      ComponentRoundTrip(b.materialization);
      ComponentRoundTrip(a.rule);
      ComponentRoundTrip(b.rule);
    }
  }

  /** The prefix matches exactly the keys of records of that unit and materialization. */
  lemma {:induction false} PrefixIsExact(unit: string, materialization: string, r: Record)
    ensures KvPrefix(unit, materialization) <= KvKey(r) <==> r.unit == unit && r.materialization == materialization
  {
    hide EncodeComponent;
    var u, m := EncodeComponent(unit), EncodeComponent(materialization);
    var prefix, key := KvPrefix(unit, materialization), KvKey(r);
    assert key == KvPrefix(r.unit, r.materialization) + EncodeComponent(r.rule);
    if prefix <= key {
      var rest := key[|prefix|..];
      assert key == prefix + rest;
      assert Tail(key) == u + ":" + (m + ":" + rest);
      ComponentRoundTrip(unit);
      ComponentRoundTrip(materialization);
      Strings.SplitFirst(u, ':', m + ":" + rest);
      Strings.SplitFirst(m, ':', rest);
      KeySplits(r);
      ComponentRoundTrip(r.unit);
      ComponentRoundTrip(r.materialization);
      assert Strings.Split(Tail(key), ':')[0] == u && Strings.Split(Tail(key), ':')[1] == m;
    }
  }

  // ----- The store

  type Store = map<string, string>

  /** One thing that happens to the store. The writes of a batch run concurrently: their order is the history's. */
  datatype Change = Put(record: Record) | Expire(record: Record)

  function Changed(store: Store, change: Change): Store {
    match change
    case Put(r) => if r.rule == "" then store else store[KvKey(r) := r.variant]
    case Expire(r) => store - {KvKey(r)}
  }

  function Stored(history: seq<Change>): Store {
    if history == [] then map[] else Changed(Stored(history[..|history| - 1]), history[|history| - 1])
  }

  predicate HasPrefix(store: Store, prefix: string) { exists key | key in store :: prefix <= key }

  function ReadOne(store: Store, r: Record): Option<Record> {
    if r.rule == "" then
      if HasPrefix(store, KvPrefix(r.unit, r.materialization)) then Some(Record(r.unit, r.materialization, "", ""))
          else None
    else if KvKey(r) in store then Some(Record(r.unit, r.materialization, r.rule, store[KvKey(r)]))
    else None
  }

  function ReadMaterializations(store: Store, toRead: seq<Record>): seq<Record> {
    if toRead == [] then []
    else
      var found := ReadOne(store, toRead[0]);
      (if found.Some? then [found.value] else []) + ReadMaterializations(store, toRead[1..])
  }

  // ----- The records the history leaves

  function Dropped(records: seq<Record>, key: Record): seq<Record> {
    if records == [] then []
    else (if SameKey(records[0], key) then [] else [records[0]]) + Dropped(records[1..], key)
  }

  /** Last write wins: the records of the history, latest first, without those overwritten or expired. */
  function Latest(history: seq<Change>): seq<Record> {
    if history == [] then []
    else
      var before := Latest(history[..|history| - 1]);
      match history[|history| - 1]
      case Put(r) => if r.rule == "" then before else [r] + Dropped(before, r)
      case Expire(r) => Dropped(before, r)
  }

  lemma {:induction false} DroppedIs(records: seq<Record>, key: Record)
    ensures forall r :: r in Dropped(records, key) <==> r in records && !SameKey(r, key)
  {
    if records != [] {
      DroppedIs(records[1..], key);
      assert forall r :: r in records <==> r == records[0] || r in records[1..];
    }
  }

  /** The store and the records agree: the same keys, each with its variant, and one record a key. */
  ghost predicate Agree(store: Store, records: seq<Record>) {
    && (forall r :: r in records ==> r.rule != "" && KvKey(r) in store && store[KvKey(r)] == r.variant)
    && (forall key :: key in store ==> exists r :: r in records && KvKey(r) == key)
    && (forall r, s :: r in records && s in records && SameKey(r, s) ==> r == s)
  }

  lemma {:induction false} PutKeepsAgreement(store: Store, records: seq<Record>, x: Record)
    requires Agree(store, records) && x.rule != ""
    ensures Agree(store[KvKey(x) := x.variant], [x] + Dropped(records, x))
  {
    hide KvKey, Dropped;
    var changed, after := store[KvKey(x) := x.variant], [x] + Dropped(records, x);
    DroppedIs(records, x);
    assert forall r :: r in after <==> r == x || r in Dropped(records, x);
    forall r | r in records ensures KvKey(r) == KvKey(x) <==> SameKey(r, x) {
      KeysTell(r, x);
    }
    forall key | key in changed ensures exists r :: r in after && KvKey(r) == key {
      if key == KvKey(x) {
        assert x in after;
      } else {
        var r :| r in records && KvKey(r) == key;
        assert r in after;
      }
    }
  }

  lemma {:induction false} ExpiryKeepsAgreement(store: Store, records: seq<Record>, x: Record)
    requires Agree(store, records)
    ensures Agree(store - {KvKey(x)}, Dropped(records, x))
  {
    hide KvKey, Dropped;
    DroppedIs(records, x);
    forall r | r in records ensures KvKey(r) == KvKey(x) <==> SameKey(r, x) {
      KeysTell(r, x);
    }
    forall key | key in store - {KvKey(x)} ensures exists r :: r in Dropped(records, x) && KvKey(r) == key {
      var r :| r in records && KvKey(r) == key;
      assert r in Dropped(records, x);
    }
  }

  lemma {:induction false} HistoryAgrees(history: seq<Change>)
    ensures Agree(Stored(history), Latest(history))
  {
    if history == [] {
    } else {
      hide Agree, KvKey, Dropped;
      var store, records := Stored(history[..|history| - 1]), Latest(history[..|history| - 1]);
      HistoryAgrees(history[..|history| - 1]);
      match history[|history| - 1]
      case Put(r) =>
        if r.rule != "" {
          PutKeepsAgreement(store, records, r);
        }
      case Expire(r) => ExpiryKeepsAgreement(store, records, r);
    }
  }

  // ----- Reads

  lemma {:induction false} ReadIs(store: Store, toRead: seq<Record>, r: Record)
    ensures r in ReadMaterializations(store, toRead) <==> exists key :: key in toRead && ReadOne(store, key) == Some(r)
  {
    if toRead != [] {
      hide ReadOne;
      ReadIs(store, toRead[1..], r);
      assert forall key :: key in toRead <==> key == toRead[0] || key in toRead[1..];
    }
  }

  /** A record that is read says of the store what the record list says. */
  lemma {:induction false} ReadIsTrue(store: Store, records: seq<Record>, key: Record, found: Record)
    requires Agree(store, records) && ReadOne(store, key) == Some(found)
    ensures exists r :: r in records && r.unit == found.unit && r.materialization == found.materialization
    ensures found.rule != "" ==> found in records
  {
    if key.rule == "" {
      var k :| k in store && KvPrefix(key.unit, key.materialization) <= k;
      var r :| r in records && KvKey(r) == k;
      PrefixIsExact(key.unit, key.materialization, r);
    } else {
      var r :| r in records && KvKey(r) == KvKey(key);
      KeysTell(r, key);
      assert r == found;
    }
  }

  /** A record of the list is found by the key that asks for it. */
  lemma {:induction false} ListedIsRead(store: Store, records: seq<Record>, key: Record, r: Record)
    requires Agree(store, records) && r in records && Asks(key).Matches(r)
    ensures ReadOne(store, key) == Some(if key.rule == "" then Record(key.unit, key.materialization, "", "") else r)
  {
    PrefixIsExact(key.unit, key.materialization, r);
    KeysTell(r, key);
    if key.rule == "" {
      assert KvKey(r) in store;
    }
  }

  lemma {:induction false} KeyIsAnswered(store: Store, records: seq<Record>, toRead: seq<Record>, key: Record)
    requires Agree(store, records) && key in toRead
    ensures AnswerTo(Complete(ReadMaterializations(store, toRead)), Asks(key)) == AnswerTo(Complete(records), Asks(key))
  {
    hide ReadOne, KvKey, KvPrefix, Agree, ReadMaterializations;
    var fetched, q := ReadMaterializations(store, toRead), Asks(key);
    var f, g := First(fetched, q), First(records, q);
    if f.Some? {
      ReadIs(store, toRead, f.value);
      var k :| k in toRead && ReadOne(store, k) == Some(f.value);
      ReadIsTrue(store, records, k, f.value);
      assert exists r :: r in records && q.Matches(r);
    }
    if g.Some? {
      ListedIsRead(store, records, key, g.value);
      ReadIs(store, toRead, if key.rule == "" then Record(key.unit, key.materialization, "", "") else g.value);
      assert exists r :: r in fetched && q.Matches(r);
      if key.rule != "" {
        OnePerKey(store, records, f.value, g.value);
      }
    }
  }

  lemma OnePerKey(store: Store, records: seq<Record>, r: Record, s: Record)
    requires Agree(store, records) && r in records && s in records && SameKey(r, s)
    ensures r == s
  {
  }

  /** After any history, what is read answers every key asked for as the latest records do. */
  lemma {:induction false} ReadsAnswer(history: seq<Change>, toRead: seq<Record>)
    ensures Answers(ReadMaterializations(Stored(history), toRead), Latest(history), toRead)
  {
    HistoryAgrees(history);
    forall key | key in toRead
      ensures AnswerTo(Complete(ReadMaterializations(Stored(history), toRead)), Asks(key))
          == AnswerTo(Complete(Latest(history)), Asks(key))
    {
      KeyIsAnswered(Stored(history), Latest(history), toRead, key);
    }
  }

  // ----- Resolving against the store

  /** Deferred, and resumed with what the store has for the keys asked for. */
  function ResolveWithSticky(w: World, catalog: seq<Flag>, names: seq<string>, store: Store): Response {
    var first := Process(w, catalog, Deferred(names));
    if first.Suspended? then Process(w, catalog, Resume(first.state, ReadMaterializations(store, first.toRead)))
        else first
  }

  /**
   Resolving over the store never stays suspended, and is the one run with its latest records exactly as far as
   resuming is.
   */
  lemma {:induction false} StickyOverStore(w: World, catalog: seq<Flag>, names: seq<string>, rank: string -> nat,
      history: seq<Change>)
    requires Wellformed(w, catalog, names, rank)
    ensures var first, whole := Process(w, catalog, Deferred(names)),
        Process(w, catalog, Static(names, Latest(history)));
            var result := ResolveWithSticky(w, catalog, names, Stored(history));
            && !result.Suspended?
            && (first.Suspended? ==> (Same(result, whole) <==>
                NoEarlyWrite(w, Requested(w, catalog, names)) || whole.Rejected?))
            && (first.Rejected? ==> result == first && whole.Rejected?) && (first.Resolved? ==> result == whole)
  {
    hide Process, Wellformed, NoEarlyWrite, Same, Answers;
    var first := Process(w, catalog, Deferred(names));
    if first.Suspended? {
      var fetched := ReadMaterializations(Stored(history), first.toRead);
      ReadsAnswer(history, first.toRead);
      SuspendResume(w, catalog, names, rank, Latest(history), fetched);
      RecordsNeverSuspend(w, catalog, Resume(first.state, fetched));
    } else {
      SuspendResume(w, catalog, names, rank, Latest(history), []);
      ResolvedAtOnce(w, catalog, names, Latest(history));
    }
  }

  // ----- What a resolve writes is there for the next one

  /** The writes of a response, as the store receives them. */
  function Puts(writes: seq<Record>): seq<Change> { seq(|writes|, i requires 0 <= i < |writes| => Put(writes[i])) }

  lemma {:induction false} DroppedAnswers(records: seq<Record>, x: Record, q: Query)
    requires !q.Matches(x)
    ensures First(Dropped(records, x), q) == First(records, q)
  {
    if records != [] {
      DroppedAnswers(records[1..], x, q);
      var rest := Dropped(records[1..], x);
      assert ([records[0]] + rest)[1..] == rest && [] + rest == rest;
    }
  }

  lemma {:induction false} PutAnswers(history: seq<Change>, x: Record, q: Query)
    requires x.rule != ""
    ensures First(Latest(history + [Put(x)]), q) == if q.Matches(x) then Some(x) else First(Latest(history), q)
  {
    var all := history + [Put(x)];
    assert all[..|all| - 1] == history;
    var rest := Dropped(Latest(history), x);
    assert ([x] + rest)[1..] == rest;
    if !q.Matches(x) {
      DroppedAnswers(Latest(history), x, q);
    }
  }

  /** After a response's writes, in any order: its records replace those of their keys, the others are as before. */
  lemma {:induction false} WritesAreStored(history: seq<Change>, writes: seq<Record>)
    requires Distinct(writes) && forall r :: r in writes ==> r.rule != ""
    ensures Sticky.Stored(Latest(history), writes, Latest(history + Puts(writes)))
  {
    forall q: Query | q.RuleRecord?
      ensures AnswerTo(Complete(Latest(history + Puts(writes))), q) ==
              match First(writes, q)
              case Some(r) => Present(r.variant)
              case None => AnswerTo(Complete(Latest(history)), q)
    {
      WritesAnswer(history, writes, q);
    }
  }

  lemma {:induction false} WritesAnswer(history: seq<Change>, writes: seq<Record>, q: Query)
    requires q.RuleRecord? && Distinct(writes) && forall r :: r in writes ==> r.rule != ""
    ensures First(Latest(history + Puts(writes)), q) == if First(writes, q).Some? then First(writes, q)
        else First(Latest(history), q)
    decreases |writes|
  {
    if writes == [] {
      assert history + Puts(writes) == history;
    } else {
      var first, rest := writes[0], writes[1..];
      assert first in writes && forall r :: r in rest ==> r in writes;
      assert forall i, j :: 0 <= i < j < |rest| ==> !SameKey(rest[i], rest[j]) by {
        assert forall i :: 0 <= i < |rest| ==> rest[i] == writes[i + 1];
      }
      assert history + Puts(writes) == history + [Put(first)] + Puts(rest);
      WritesAnswer(history + [Put(first)], rest, q);
      PutAnswers(history, first, q);
      if q.Matches(first) {
        OneMatch(writes, q);
      }
    }
  }

  lemma {:induction false} OneMatch(writes: seq<Record>, q: Query)
    requires q.RuleRecord? && Distinct(writes) && writes != [] && q.Matches(writes[0])
    ensures First(writes[1..], q).None?
  {
    forall r | r in writes[1..] ensures !q.Matches(r) {
      var i :| 0 <= i < |writes| - 1 && writes[1..][i] == r;
      assert writes[i + 1] == r && !SameKey(writes[0], writes[i + 1]);
    }
  }

  /** A response never writes a key twice. */
  lemma {:induction false} WritesAreDistinct(w: World, catalog: seq<Flag>, names: seq<string>, records: seq<Record>)
    ensures var r := Process(w, catalog, Static(names, records)); r.Resolved? ==> Distinct(r.toWrite)
  {
    NothingIsDistinct();
    RunIsItsFlags(w, Complete(records), Requested(w, catalog, names), []);
  }

  /**
   A resolve repeated against the store after its own writes assigns as before, if they change no membership it asked
   for.
   */
  lemma {:induction false} StickyAcrossResolves(w: World, catalog: seq<Flag>, names: seq<string>, rank: string -> nat,
      history: seq<Change>)
    requires SegmentLaws.Acyclic(w, rank) && Sticky.WritersDistinct(AllRules(Requested(w, catalog, names)))
    requires var first := Process(w, catalog, Static(names, Latest(history)));
             && first.Resolved? && (forall r :: r in first.toWrite ==> r.rule != "")
             && Sticky.MembershipKept(Complete(Latest(history)), Complete(Latest(history + Puts(first.toWrite))),
                                      Sticky.Lookups(w, catalog, names, Latest(history)))
    ensures var first := Process(w, catalog, Static(names, Latest(history)));
            var again := Process(w, catalog, Static(names, Latest(history + Puts(first.toWrite))));
            again.Resolved? && again.flags == first.flags && forall r :: r in again.toWrite ==> r in first.toWrite
  {
    hide Process, Sticky.WritersDistinct;
    var first := Process(w, catalog, Static(names, Latest(history)));
    WritesAreDistinct(w, catalog, names, Latest(history));
    WritesAreStored(history, first.toWrite);
    Sticky.StickyFixpoint(w, catalog, names, rank, Latest(history), Latest(history + Puts(first.toWrite)));
  }
}
