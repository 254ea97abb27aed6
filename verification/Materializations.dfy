/** Sticky-assignment records and the context a resolve run reads and writes them through. */
module Materializations {
  import opened Wrappers

  /** Kleene truth values, an `Option<bool>` in Rust. */
  datatype Tribool = Known(value: bool) | Unknown

  /** What evaluation can fail with. A missing record is not among them: only the rule loop of a flag reports it. */
  datatype ResolveError = Internal | MaterializationsUnsupported | UnrecognizedRule

  datatype Record = Record(unit: string, materialization: string, rule: string, variant: string)

  /** One lookup a run makes. Both kinds are stored in `to_read` as a record; a membership lookup has an empty rule. */
  datatype Query =
    | Membership(unit: string, materialization: string)
    | RuleRecord(unit: string, materialization: string, rule: string)
  {
    function Key(): Record {
      match this
      case Membership(u, m) => Record(u, m, "", "")
      case RuleRecord(u, m, r) => Record(u, m, r, "")
    }

    predicate Matches(r: Record) {
      && r.unit == unit && r.materialization == materialization
      && (RuleRecord? ==> r.rule == rule)
    }
  }

  datatype Records = Discovery | Unsupported | Complete(records: seq<Record>)

  /** What the records say about a query. Only a rule's record has a variant that is ever read. */
  datatype Answer = NotFetched | Refused | Absent | Present(variant: string)

  function First(records: seq<Record>, q: Query): (found: Option<Record>)
    ensures found.Some? <==> exists r :: r in records && q.Matches(r)
    ensures found.Some? ==> found.value in records && q.Matches(found.value)
  {
    if records == [] then None
    else if q.Matches(records[0]) then Some(records[0])
    else First(records[1..], q)
  }

  /** The record found is the first of those that match. */
  lemma {:induction false} FoundIsFirst(records: seq<Record>, q: Query)
    requires First(records, q).Some?
    ensures exists i :: 0 <= i < |records| && records[i] == First(records, q).value && q.Matches(records[i])
                        && forall j :: 0 <= j < i ==> !q.Matches(records[j])
  {
    if !q.Matches(records[0]) {
      var rest := records[1..];
      FoundIsFirst(rest, q);
      var i :| 0 <= i < |rest| && rest[i] == First(rest, q).value && forall j :: 0 <= j < i ==> !q.Matches(rest[j]);
      assert records[i + 1] == rest[i] && forall j :: 0 < j < i + 1 ==> records[j] == rest[j - 1];
    }
  }

  function AnswerTo(rs: Records, q: Query): Answer {
    match rs
    case Discovery => NotFetched
    case Unsupported => Refused
    case Complete(records) =>
      match First(records, q)
      case None => Absent
      case Some(r) => Present(if q.RuleRecord? then r.variant else "")
  }

  function Verdict(a: Answer): Result<Tribool, ResolveError> {
    match a
    case NotFetched => Ok(Unknown)
    case Refused => Err(MaterializationsUnsupported)
    case Absent => Ok(Known(false))
    case Present(_) => Ok(Known(true))
  }

  predicate SameKey(a: Record, b: Record) {
    a.unit == b.unit && a.materialization == b.materialization && a.rule == b.rule
  }

  predicate HasKey(records: seq<Record>, key: Record) {
    exists r :: r in records && SameKey(r, key)
  }

  /** `to_read` after the given lookups: discovery records each key once, the other modes record nothing. */
  function Noted(rs: Records, toRead: seq<Record>, lookups: seq<Query>): seq<Record>
    decreases |lookups|
  {
    if !rs.Discovery? || lookups == [] then toRead
    else Noted(rs, WithKey(toRead, lookups[0].Key()), lookups[1..])
  }

  function WithKey(toRead: seq<Record>, key: Record): seq<Record> {
    if HasKey(toRead, key) then toRead else toRead + [key]
  }

  lemma {:induction false} NotedAppend(rs: Records, toRead: seq<Record>, a: seq<Query>, b: seq<Query>)
    ensures Noted(rs, toRead, a + b) == Noted(rs, Noted(rs, toRead, a), b)
    decreases |a|
  {
    if a == [] {
      assert a + b == b;
    } else {
      assert (a + b)[0] == a[0] && (a + b)[1..] == a[1..] + b;
      if rs.Discovery? {
        NotedAppend(rs, WithKey(toRead, a[0].Key()), a[1..], b);
      }
    }
  }

  ghost predicate Distinct(records: seq<Record>) {
    forall i, j :: 0 <= i < j < |records| ==> !SameKey(records[i], records[j])
  }

  ghost predicate Asked(lookups: seq<Query>, r: Record) {
    exists q :: q in lookups && q.Key() == r
  }

  ghost predicate Blank(records: seq<Record>) {
    forall r :: r in records ==> r.variant == ""
  }

  /** Discovery's `to_read` is exactly the set of keys looked up, each once, whatever the order and repeats. */
  lemma {:induction false} NotedIsTheLookups(toRead: seq<Record>, lookups: seq<Query>)
    requires Distinct(toRead) && Blank(toRead)
    ensures var noted := Noted(Discovery, toRead, lookups);
            && Distinct(noted) && Blank(noted) && toRead <= noted
            && (forall r :: r in noted <==> r in toRead || Asked(lookups, r))
    decreases |lookups|
  {
    if lookups != [] {
      var key := lookups[0].Key();
      var next := WithKey(toRead, key);
      assert HasKey(toRead, key) ==> key in toRead;
      assert forall r :: r in next <==> r in toRead || r == key;
      NotedIsTheLookups(next, lookups[1..]);
      forall r ensures Asked(lookups, r) <==> r == key || Asked(lookups[1..], r) {
        assert lookups[0] in lookups;
        assert forall q :: q in lookups <==> q == lookups[0] || q in lookups[1..];
      }
    }
  }

  /** The state a run threads through every flag, rule and criterion. */
  class MaterializationContext {
    var toRead: seq<Record>
    var toWrite: seq<Record>
    const records: Records

    constructor (records: Records)
      ensures this.records == records && toRead == [] && toWrite == []
    {
      this.records := records;
      toRead, toWrite := [], [];
    }

    method RecordMissing(key: Record)
      modifies this`toRead
      ensures toRead == WithKey(old(toRead), key)
    {
      if !HasKey(toRead, key) {
        toRead := toRead + [key];
      }
    }

    method Consult(q: Query) returns (answer: Result<Tribool, ResolveError>)
      modifies this`toRead
      ensures answer == Verdict(AnswerTo(records, q))
      ensures toRead == Noted(records, old(toRead), [q])
    {
      match records {
        case Complete(known) =>
          answer := Ok(Known(First(known, q).Some?));
        case Discovery =>
          RecordMissing(q.Key());
          answer := Ok(Unknown);
        case Unsupported =>
          answer := Err(MaterializationsUnsupported);
      }
    }

    /** A rule writes its record at most once per run: a second write of the same key fails the resolve. */
    method AddToWrite(record: Record) returns (r: Result<(), ResolveError>)
      modifies this`toWrite
      ensures r == Written(records, old(toWrite), record).1
      ensures toWrite == Written(records, old(toWrite), record).0
    {
      if records.Unsupported? {
        return Err(MaterializationsUnsupported);
      }
      if HasKey(toWrite, record) {
        return Err(Internal);
      }
      toWrite := toWrite + [record];
      r := Ok(());
    }
  }

  function Written(rs: Records, toWrite: seq<Record>, record: Record): (seq<Record>, Result<(), ResolveError>) {
    if rs.Unsupported? then (toWrite, Err(MaterializationsUnsupported))
    else if HasKey(toWrite, record) then (toWrite, Err(Internal))
    else (toWrite + [record], Ok(()))
  }
}
