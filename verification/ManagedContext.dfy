/**
 A client's managed context, given as scalars under dotted paths, merged into the nested context of a request. Any value
 that is not a struct is a leaf.
 */
module ManagedContext {
  import opened Wrappers
  import Strings

  datatype Value = Leaf(text: string) | Obj(fields: map<string, Value>)

  type Fields = map<string, Value>

  type Path = seq<string>

  const NULL := Leaf("null")

  /** A managed entry; the `BTreeMap` they are kept in orders them by path. */
  datatype Entry = Entry(path: string, value: Value)

  function Parts(path: string): Path { Strings.Split(path, '.') }

  // ----- Building the nested form

  function SetNested(current: Fields, parts: Path, value: Value): Fields
    decreases |parts|
  {
    if parts == [] then current
    else if |parts| == 1 then current[parts[0] := value]
    else
      var nested := if parts[0] in current && current[parts[0]].Obj? then current[parts[0]].fields else map[];
      current[parts[0] := Obj(SetNested(nested, parts[1..], value))]
  }

  function Unflattened(entries: seq<Entry>): Fields {
    if entries == [] then map[]
    else
      var last := |entries| - 1;
      SetNested(Unflattened(entries[..last]), Parts(entries[last].path), entries[last].value)
  }

  // ----- Merging

  function MergedValue(managed: Value, request: Option<Value>): Value
    decreases managed, 1
  {
    if managed.Obj? && request.Some? && request.value.Obj? then Obj(Merged(managed, request.value.fields)) else managed
  }

  function Find(fields: Fields, key: string): Option<Value> { if key in fields then Some(fields[key]) else None }

  function Merged(managed: Value, request: Fields): Fields
    requires managed.Obj?
    decreases managed, 0
  {
    map key | key in managed.fields.Keys + request.Keys ::
      if key in managed.fields then MergedValue(managed.fields[key], Find(request, key)) else request[key]
  }

  function Merge(entries: seq<Entry>, request: Fields): Fields {
    if entries == [] then request else Merged(Obj(Unflattened(entries)), request)
  }

  // ----- As it runs

  method Unflatten(entries: seq<Entry>) returns (root: Fields)
    ensures root == Unflattened(entries)
  {
    root := map[];
    var i := 0;
    assert entries[..|entries|] == entries;
    while i < |entries|
      invariant i <= |entries| && root == Unflattened(entries[..i])
    {
      assert entries[..i + 1][..i] == entries[..i];
      root := SetNested(root, Parts(entries[i].path), entries[i].value);
      i := i + 1;
    }
  }

  /** The merge with the managed keys in `left` still to come. */
  function Partly(managed: Value, request: Fields, left: set<string>): Fields
    requires managed.Obj?
  {
    map key | key in request.Keys + (managed.fields.Keys - left) ::
      if key in managed.fields && key !in left then MergedValue(managed.fields[key], Find(request, key))
          else request[key]
  }

  lemma {:induction false} PartlyOne(managed: Value, request: Fields, left: set<string>, key: string)
    requires managed.Obj? && key in left && left <= managed.fields.Keys
    ensures Partly(managed, request, left - {key})
        == Partly(managed, request, left)[key := MergedValue(managed.fields[key], Find(request, key))]
    ensures Find(Partly(managed, request, left), key) == Find(request, key)
  {
    hide MergedValue;
  }

  lemma {:induction false} PartlyEnds(managed: Value, request: Fields)
    requires managed.Obj?
    ensures Partly(managed, request, managed.fields.Keys) == request
        && Partly(managed, request, {}) == Merged(managed, request)
  {
    hide MergedValue;
  }

  method MergeStructs(managed: Value, request: Fields) returns (result: Fields)
    requires managed.Obj?
    ensures result == Merged(managed, request)
    decreases managed
  {
    hide Partly, Merged;
    PartlyEnds(managed, request);
    result := request;
    var keys := managed.fields.Keys;
    while keys != {}
      invariant keys <= managed.fields.Keys && result == Partly(managed, request, keys)
      decreases |keys|
    {
      var key :| key in keys;
      var value := managed.fields[key];
      PartlyOne(managed, request, keys, key);
      if value.Obj? && key in result && result[key].Obj? {
        var merged := MergeStructs(value, result[key].fields);
        result := result[key := Obj(merged)];
      } else {
        result := result[key := value];
      }
      keys := keys - {key};
    }
  }

  // ----- Lookups

  /** What a path addresses: null where it leads nowhere. */
  function Get(fields: Fields, parts: Path): Value
    decreases |parts|
  {
    if parts == [] || parts[0] !in fields then NULL
    else if |parts| == 1 then fields[parts[0]]
    else if fields[parts[0]].Obj? then Get(fields[parts[0]].fields, parts[1..])
    else NULL
  }

  method GetAttributeValue(context: Fields, fieldPath: string) returns (value: Value)
    ensures value == Get(context, Parts(fieldPath))
  {
    var parts, s, i := Parts(fieldPath), context, 0;
    assert parts[0..] == parts;
    while i < |parts|
      invariant i <= |parts| && Get(s, parts[i..]) == Get(context, parts)
    {
      assert parts[i..][1..] == parts[i + 1..];
      if parts[i] !in s {
        return NULL;
      }
      if i + 1 == |parts| {
        return s[parts[i]];
      }
      if !s[parts[i]].Obj? {
        return NULL;
      }
      s := s[parts[i]].fields;
      i := i + 1;
    }
    value := NULL;
  }

  predicate Incomparable(p: Path, q: Path) { !(p <= q) && !(q <= p) }

  lemma {:induction false} GetSet(f: Fields, p: Path, value: Value)
    requires p != []
    ensures Get(SetNested(f, p, value), p) == value
    decreases |p|
  {
    if |p| > 1 {
      GetSet(if p[0] in f && f[p[0]].Obj? then f[p[0]].fields else map[], p[1..], value);
    }
  }

  lemma {:induction false} PrefixParts(p: Path, q: Path)
    requires p != [] && q != [] && p[0] == q[0]
    ensures p <= q <==> p[1..] <= q[1..]
    ensures p < q <==> p[1..] < q[1..]
  {
    assert p == [p[0]] + p[1..] && q == [q[0]] + q[1..];
    if p[1..] <= q[1..] {
      assert forall i :: 0 < i < |p| ==> p[i] == p[1..][i - 1] == q[1..][i - 1] == q[i];
    }
    if p <= q {
      assert q[1..][..|p| - 1] == q[..|p|][1..] == p[1..];
    }
  }

  lemma {:induction false} GetElsewhere(f: Fields, p: Path, value: Value, q: Path)
    requires Incomparable(p, q)
    ensures Get(SetNested(f, p, value), q) == Get(f, q)
    decreases |p|
  {
    if p[0] == q[0] {
      PrefixParts(p, q);
      PrefixParts(q, p);
      GetElsewhere(if p[0] in f && f[p[0]].Obj? then f[p[0]].fields else map[], p[1..], value, q[1..]);
    }
  }

  /** Setting below a path leaves a struct there. */
  lemma {:induction false} GetAbove(f: Fields, p: Path, value: Value, q: Path)
    requires q != [] && q < p
    ensures Get(SetNested(f, p, value), q).Obj?
    decreases |p|
  {
    if |q| > 1 {
      PrefixParts(q, p);
      GetAbove(if p[0] in f && f[p[0]].Obj? then f[p[0]].fields else map[], p[1..], value, q[1..]);
    }
  }

  /** A path is divided at its dots, and nowhere else. */
  lemma {:induction false} PartsAreDotted(part: string, rest: string)
    requires '.' !in part
    ensures Parts(part) == [part] && Parts(part + "." + rest) == [part] + Parts(rest)
  {
    Strings.SplitFirst(part, '.', rest);
  }

  // ----- The order of the entries

  /** Strings in order, as a sorted map enumerates them. */
  predicate Less(a: string, b: string) { b != "" && (a == "" || a[0] < b[0] || (a[0] == b[0] && Less(a[1..], b[1..]))) }

  ghost predicate Sorted(entries: seq<Entry>) {
    forall i, j :: 0 <= i < j < |entries| ==> Less(entries[i].path, entries[j].path)
  }

  lemma {:induction false} LessIsStrict(a: string, b: string)
    ensures !(Less(a, b) && Less(b, a)) && !Less(a, a)
  {
    if a != "" {
      LessIsStrict(a[1..], if b != "" then b[1..] else "");
    }
  }

  lemma {:induction false} PrefixIsLess(a: string, b: string)
    requires a < b
    ensures Less(a, b)
  {
    if a != "" {
      assert a[1..] == b[..|a|][1..] == b[1..][..|a| - 1];
      PrefixIsLess(a[1..], b[1..]);
    }
  }

  lemma JoinEmpty(rest: seq<string>, sep: char)
    requires |rest| > 0
    ensures Strings.Join([""] + rest, sep) == [sep] + Strings.Join(rest, sep)
  {
    assert ([""] + rest)[1..] == rest;
    assert "" + [sep] == [sep];
  }

  lemma JoinLonger(c: char, parts: seq<string>, sep: char)
    requires |parts| > 0
    ensures Strings.Join([[c] + parts[0]] + parts[1..], sep) == [c] + Strings.Join(parts, sep)
  {
    assert ([[c] + parts[0]] + parts[1..])[1..] == parts[1..];
    if |parts| > 1 {
      var rest := Strings.Join(parts[1..], sep);
      assert [c] + (parts[0] + [sep] + rest) == [c] + parts[0] + [sep] + rest;
    }
  }

  lemma {:induction false} JoinSplit(s: string, sep: char)
    ensures Strings.Join(Strings.Split(s, sep), sep) == s
  {
    hide Strings.Join;
    if s == "" {
      JoinOne(sep);
    } else {
      JoinSplit(s[1..], sep);
      var rest := Strings.Split(s[1..], sep);
      assert s == [s[0]] + s[1..];
      if s[0] == sep {
        JoinEmpty(rest, sep);
      } else {
        JoinLonger(s[0], rest, sep);
      }
    }
  }

  lemma JoinOne(sep: char)
    ensures Strings.Join([""], sep) == ""
  {
  }

  lemma {:induction false} JoinPrefix(p: Path, q: Path, sep: char)
    requires p != [] && p < q
    ensures Strings.Join(p, sep) < Strings.Join(q, sep)
    decreases |p|
  {
    if |p| == 1 {
      assert Strings.Join(q, sep) == Strings.Join(p, sep) + ([sep] + Strings.Join(q[1..], sep));
    } else {
      PrefixParts(p, q);
      JoinPrefix(p[1..], q[1..], sep);
      var head := p[0] + [sep];
      assert Strings.Join(p, sep) == head + Strings.Join(p[1..], sep)
          && Strings.Join(q, sep) == head + Strings.Join(q[1..], sep);
    }
  }

  lemma PrefixCases(p: Path, q: Path)
    ensures p <= q <==> p < q || p == q
  {
  }

  /** In sorted order a path comes before its extensions, and no path comes twice. */
  lemma {:induction false} SortedPutsShorterFirst(entries: seq<Entry>, i: nat, j: nat)
    requires Sorted(entries) && i < j < |entries|
    ensures !(Parts(entries[j].path) <= Parts(entries[i].path))
  {
    var a, b := entries[i].path, entries[j].path;
    JoinSplit(a, '.');
    JoinSplit(b, '.');
    LessIsStrict(a, b);
    LessIsStrict(a, a);
    PrefixCases(Parts(b), Parts(a));
    if Parts(b) < Parts(a) {
      JoinPrefix(Parts(b), Parts(a), '.');
      PrefixIsLess(b, a);
    }
  }

  // ----- What a managed path holds

  ghost predicate Extended(entries: seq<Entry>, p: Path) {
    exists j :: 0 <= j < |entries| && p < Parts(entries[j].path)
  }

  lemma {:induction false} UnflattenedHolds(entries: seq<Entry>, i: nat)
    requires Sorted(entries) && i < |entries|
    ensures Extended(entries, Parts(entries[i].path)) ==> Get(Unflattened(entries), Parts(entries[i].path)).Obj?
    ensures !Extended(entries, Parts(entries[i].path)) ==>
        Get(Unflattened(entries), Parts(entries[i].path)) == entries[i].value
    decreases |entries|
  {
    hide Parts;
    var last, p := |entries| - 1, Parts(entries[i].path);
    var before, q := Unflattened(entries[..last]), Parts(entries[last].path);
    PartsNonempty(entries[i].path);
    if i == last {
      GetSet(before, p, entries[i].value);
      forall j | 0 <= j < |entries| ensures !(p < Parts(entries[j].path)) {
        if j < last {
          SortedPutsShorterFirst(entries, j, last);
        }
      }
    } else {
      SortedPutsShorterFirst(entries, i, last);
      UnflattenedHolds(entries[..last], i);
      if p < q {
        GetAbove(before, q, entries[last].value, p);
      } else {
        GetElsewhere(before, q, entries[last].value, p);
        ExtendedBefore(entries, p);
      }
    }
  }

  lemma PartsNonempty(path: string)
    ensures Parts(path) != []
  {
  }

  lemma ExtendedBefore(entries: seq<Entry>, p: Path)
    requires entries != [] && !(p < Parts(entries[|entries| - 1].path))
    ensures Extended(entries, p) <==> Extended(entries[..|entries| - 1], p)
  {
    hide Parts;
    assert forall j :: 0 <= j < |entries| - 1 ==> entries[..|entries| - 1][j] == entries[j];
  }

  /** The path leads off the struct: a key on the way is missing, and everything before it is a struct. */
  predicate Clear(fields: Fields, q: Path)
    decreases |q|
  {
    q != [] && (q[0] !in fields || (|q| > 1 && fields[q[0]].Obj? && Clear(fields[q[0]].fields, q[1..])))
  }

  lemma {:induction false} SetKeepsClear(f: Fields, p: Path, value: Value, q: Path)
    requires Clear(f, q) && p != [] && Incomparable(p, q)
    ensures Clear(SetNested(f, p, value), q)
    decreases |p|
  {
    if p[0] == q[0] {
      PrefixParts(p, q);
      PrefixParts(q, p);
      SetKeepsClear(if p[0] in f && f[p[0]].Obj? then f[p[0]].fields else map[], p[1..], value, q[1..]);
    }
  }

  lemma {:induction false} UnflattenedIsClear(entries: seq<Entry>, q: Path)
    requires q != [] && forall e :: e in entries ==> Incomparable(Parts(e.path), q)
    ensures Clear(Unflattened(entries), q)
  {
    if entries != [] {
      hide Parts;
      var last := |entries| - 1;
      assert entries[last] in entries && forall e :: e in entries[..last] ==> e in entries;
      PartsNonempty(entries[last].path);
      UnflattenedIsClear(entries[..last], q);
      SetKeepsClear(Unflattened(entries[..last]), Parts(entries[last].path), entries[last].value, q);
    }
  }

  /** The path leads to something. */
  predicate Reaches(fields: Fields, p: Path)
    decreases |p|
  {
    p != [] && p[0] in fields && (|p| == 1 || (fields[p[0]].Obj? && Reaches(fields[p[0]].fields, p[1..])))
  }

  lemma {:induction false} SetReaches(f: Fields, p: Path, value: Value, q: Path)
    requires p != [] && (q == p || (q != [] && Incomparable(p, q) && Reaches(f, q)))
    ensures Reaches(SetNested(f, p, value), q)
    decreases |p|
  {
    if p[0] == q[0] && |p| > 1 {
      PrefixParts(p, q);
      PrefixParts(q, p);
      if q != p {
        assert |q| > 1;
      } else {
        assert q[1..] == p[1..];
      }
      SetReaches(if p[0] in f && f[p[0]].Obj? then f[p[0]].fields else map[], p[1..], value, q[1..]);
    }
  }

  lemma {:induction false} UnflattenedReaches(entries: seq<Entry>, i: nat)
    requires Sorted(entries) && i < |entries| && !Extended(entries, Parts(entries[i].path))
    ensures Reaches(Unflattened(entries), Parts(entries[i].path))
    decreases |entries|
  {
    hide Parts;
    var last, p := |entries| - 1, Parts(entries[i].path);
    var before, q := Unflattened(entries[..last]), Parts(entries[last].path);
    PartsNonempty(entries[i].path);
    PartsNonempty(entries[last].path);
    if i < last {
      SortedPutsShorterFirst(entries, i, last);
      assert !(p < q) && entries[..last][i] == entries[i];
      ExtendedBefore(entries, p);
      UnflattenedReaches(entries[..last], i);
    }
    SetReaches(before, q, entries[last].value, p);
  }

  // ----- What the merge does to lookups

  lemma {:induction false} MergedAt(managed: Value, request: Fields, key: string)
    requires managed.Obj?
    ensures Find(Merged(managed, request), key) ==
            if key in managed.fields then Some(MergedValue(managed.fields[key], Find(request, key)))
                else Find(request, key)
  {
  }

  /** Where the managed struct has a leaf, the merge has it too. */
  lemma {:induction false} LeafWins(managed: Value, request: Fields, p: Path)
    requires managed.Obj? && Reaches(managed.fields, p) && Get(managed.fields, p).Leaf?
    ensures Get(Merged(managed, request), p) == Get(managed.fields, p)
    decreases |p|
  {
    MergedAt(managed, request, p[0]);
    if |p| > 1 && p[0] in request && request[p[0]].Obj? {
      LeafWins(managed.fields[p[0]], request[p[0]].fields, p[1..]);
    }
  }

  /** Where the managed struct has a struct, so has the merge. */
  lemma {:induction false} ObjStays(managed: Value, request: Fields, p: Path)
    requires managed.Obj? && Get(managed.fields, p).Obj?
    ensures Get(Merged(managed, request), p).Obj?
    decreases |p|
  {
    MergedAt(managed, request, p[0]);
    if |p| > 1 && p[0] in request && request[p[0]].Obj? {
      ObjStays(managed.fields[p[0]], request[p[0]].fields, p[1..]);
    }
  }

  /** Where the managed struct leads off, the merge has what the request has. */
  lemma {:induction false} ClearPassesThrough(managed: Value, request: Fields, q: Path)
    requires managed.Obj? && Clear(managed.fields, q)
    ensures Get(Merged(managed, request), q) == Get(request, q)
    decreases |q|
  {
    MergedAt(managed, request, q[0]);
    if q[0] in managed.fields {
      var below := managed.fields[q[0]];
      if q[0] in request && request[q[0]].Obj? {
        ClearPassesThrough(below, request[q[0]].fields, q[1..]);
      } else {
        ClearIsNull(below.fields, q[1..]);
      }
    }
  }

  lemma {:induction false} ClearIsNull(fields: Fields, q: Path)
    requires Clear(fields, q)
    ensures Get(fields, q) == NULL
    decreases |q|
  {
    if q[0] in fields {
      ClearIsNull(fields[q[0]].fields, q[1..]);
    }
  }

  lemma {:induction false} SelfMerge(managed: Value)
    requires managed.Obj?
    ensures Merged(managed, managed.fields) == managed.fields
    decreases managed
  {
    forall key | key in managed.fields ensures MergedValue(managed.fields[key], Some(managed.fields[key]))
        == managed.fields[key] {
      if managed.fields[key].Obj? {
        SelfMerge(managed.fields[key]);
      }
    }
  }

  lemma {:induction false} MergedTwice(managed: Value, request: Fields)
    requires managed.Obj?
    ensures Merged(managed, Merged(managed, request)) == Merged(managed, request)
    decreases managed
  {
    var once := Merged(managed, request);
    forall key | key in managed.fields ensures MergedValue(managed.fields[key], Some(once[key])) == once[key] {
      var below := managed.fields[key];
      MergedAt(managed, request, key);
      if below.Obj? {
        if key in request && request[key].Obj? {
          MergedTwice(below, request[key].fields);
        } else {
          SelfMerge(below);
        }
      }
    }
  }

  // ----- The managed context is authoritative

  /** A managed scalar is what the merged context holds under its path, exactly if no other managed path extends it. */
  lemma {:induction false} ManagedWins(entries: seq<Entry>, request: Fields, i: nat)
    requires Sorted(entries) && i < |entries| && entries[i].value.Leaf?
    ensures Get(Merge(entries, request), Parts(entries[i].path)) == entries[i].value <==>
        !Extended(entries, Parts(entries[i].path))
  {
    hide Parts, Merged, Unflattened, Get;
    var managed, p := Obj(Unflattened(entries)), Parts(entries[i].path);
    UnflattenedHolds(entries, i);
    if Extended(entries, p) {
      ObjStays(managed, request, p);
    } else {
      UnflattenedReaches(entries, i);
      LeafWins(managed, request, p);
    }
  }

  /** A path that no managed path is comparable with is looked up in the request as if there were no managed context. */
  lemma {:induction false} OthersPassThrough(entries: seq<Entry>, request: Fields, q: Path)
    requires q != [] && forall e :: e in entries ==> Incomparable(Parts(e.path), q)
    ensures Get(Merge(entries, request), q) == Get(request, q)
  {
    UnflattenedIsClear(entries, q);
    ClearPassesThrough(Obj(Unflattened(entries)), request, q);
  }

  /** Merging again changes nothing. */
  lemma {:induction false} MergeTwiceIsOnce(entries: seq<Entry>, request: Fields)
    ensures Merge(entries, Merge(entries, request)) == Merge(entries, request)
  {
    MergedTwice(Obj(Unflattened(entries)), request);
  }
}
