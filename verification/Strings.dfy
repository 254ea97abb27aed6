/** Splitting a string at a separator, as `str::split(char)` does: `n` separators give `n + 1` parts. */
module Strings {
  import opened Wrappers

  function Split(s: string, sep: char): (parts: seq<string>)
    ensures |parts| > 0
  {
    if s == "" then [""]
    else if s[0] == sep then [""] + Split(s[1..], sep)
    else var rest := Split(s[1..], sep); [[s[0]] + rest[0]] + rest[1..]
  }

  function Nth(parts: seq<string>, i: nat): Option<string> {
    if i < |parts| then Some(parts[i]) else None
  }

  function Join(parts: seq<string>, sep: char): string
    requires |parts| > 0
  {
    if |parts| == 1 then parts[0] else parts[0] + [sep] + Join(parts[1..], sep)
  }

  /** A part without separators in front of a separator is the first part. */
  lemma {:induction false} SplitFirst(part: string, sep: char, rest: string)
    requires sep !in part
    ensures Split(part, sep) == [part] && Split(part + [sep] + rest, sep) == [part] + Split(rest, sep)
  {
    var s := part + [sep] + rest;
    if part == "" {
      assert s[1..] == rest;
    } else {
      SplitFirst(part[1..], sep, rest);
      assert s[1..] == part[1..] + [sep] + rest;
      assert [part[0]] + part[1..] == part;
    }
  }

  /** `part` is the second of the parts that `sep` separates: it follows the first separator and ends at the next. */
  ghost predicate SecondPart(s: string, sep: char, part: string) {
    exists first: string, rest: string :: SecondBetween(s, sep, first, part, rest)
  }

  ghost predicate SecondBetween(s: string, sep: char, first: string, part: string, rest: string) {
    && sep !in first && sep !in part && (rest == "" || rest[0] == sep)
    && s == first + [sep] + (part + rest)
  }

  /** The first part ends at the first separator, and the other parts are those of what follows it. */
  lemma {:induction false} FirstPart(s: string, sep: char)
    ensures var parts := Split(s, sep);
            && sep !in parts[0]
            && (|parts| == 1 ==> s == parts[0])
            && (|parts| > 1 ==> exists after :: s == parts[0] + [sep] + after && parts[1..] == Split(after, sep))
  {
    if s != "" {
      FirstPart(s[1..], sep);
      assert s == [s[0]] + s[1..];
      var parts := Split(s, sep);
      if s[0] == sep {
        assert s == parts[0] + [sep] + s[1..];
      } else if |parts| > 1 {
        var rest := Split(s[1..], sep);
        var after :| s[1..] == rest[0] + [sep] + after && rest[1..] == Split(after, sep);
        assert s == parts[0] + [sep] + after;
      }
    }
  }

  lemma {:induction false} SecondIsBetween(s: string, sep: char, first: string, part: string, rest: string)
    requires SecondBetween(s, sep, first, part, rest)
    ensures Nth(Split(s, sep), 1) == Some(part)
  {
    SplitFirst(first, sep, part + rest);
    if rest == "" {
      assert part + rest == part;
      SplitFirst(part, sep, "");
    } else {
      assert part + rest == part + [sep] + rest[1..];
      SplitFirst(part, sep, rest[1..]);
    }
  }

  lemma {:induction false} SecondPartTells(s: string, sep: char, part: string)
    ensures Nth(Split(s, sep), 1) == Some(part) <==> SecondPart(s, sep, part)
  {
    hide Split;
    var parts := Split(s, sep);
    if Nth(parts, 1) == Some(part) {
      FirstPart(s, sep);
      var after :| s == parts[0] + [sep] + after && parts[1..] == Split(after, sep);
      FirstPart(after, sep);
      assert after[..|part|] == part;
      assert after == part + after[|part|..];
      assert SecondBetween(s, sep, parts[0], part, after[|part|..]);
    }
    if SecondPart(s, sep, part) {
      var first: string, rest: string :| SecondBetween(s, sep, first, part, rest);
      SecondIsBetween(s, sep, first, part, rest);
    }
  }
}
