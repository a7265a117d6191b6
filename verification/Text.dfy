/** Splitting text at a separator and joining it again. */
module Text {

  /** The pieces of s between separators; always at least one, the last possibly empty. */
  function Split(s: string, separator: char): (parts: seq<string>)
    ensures |parts| > 0
  {
    if s == [] then [[]]
    else if s[0] == separator then [[]] + Split(s[1..], separator)
    else
      var parts := Split(s[1..], separator);
      [[s[0]] + parts[0]] + parts[1..]
  }

  function Join(parts: seq<string>, separator: char): string
    requires |parts| > 0
  {
    if |parts| == 1 then parts[0] else parts[0] + [separator] + Join(parts[1..], separator)
  }

  /** No part contains the separator. */
  predicate Clean(parts: seq<string>, separator: char) {
    forall i :: 0 <= i < |parts| ==> separator !in parts[i]
  }

  /** Splitting loses nothing, and finds every separator. */
  lemma {:induction false} JoinSplit(s: string, separator: char)
    ensures Join(Split(s, separator), separator) == s && Clean(Split(s, separator), separator)
  {
    if s != [] {
      var rest := Split(s[1..], separator);
      JoinSplit(s[1..], separator);
      assert s == [s[0]] + s[1..];
      if s[0] == separator {
        assert Split(s, separator)[1..] == rest;
      } else {
        assert Split(s, separator)[1..] == rest[1..];
      }
    }
  }

  lemma {:induction false} SplitFront(part: string, rest: string, separator: char)
    requires separator !in part
    ensures Split(part + [separator] + rest, separator) == [part] + Split(rest, separator)
  {
    var s := part + [separator] + rest;
    if part == [] {
      assert s[1..] == rest;
    } else {
      assert s[1..] == part[1..] + [separator] + rest;
      SplitFront(part[1..], rest, separator);
      assert part == [part[0]] + part[1..];
    }
  }

  /** The piece from start up to the next separator comes off the front. */
  lemma SplitPiece(s: string, start: nat, pos: nat, separator: char)
    requires start <= pos < |s| && s[pos] == separator && separator !in s[start..pos]
    ensures Split(s[start..], separator) == [s[start..pos]] + Split(s[pos + 1..], separator)
  {
    hide Split;
    assert s[start..] == s[start..pos] + [separator] + s[pos + 1..];
    SplitFront(s[start..pos], s[pos + 1..], separator);
  }

  lemma {:induction false} SplitNothing(part: string, separator: char)
    requires separator !in part
    ensures Split(part, separator) == [part]
  {
    if part != [] {
      SplitNothing(part[1..], separator);
      assert part == [part[0]] + part[1..];
    }
  }

  /** Joining parts without separators and splitting gives the parts back: the pieces are unique. */
  lemma {:induction false} SplitJoin(parts: seq<string>, separator: char)
    requires |parts| > 0 && Clean(parts, separator)
    ensures Split(Join(parts, separator), separator) == parts
  {
    if |parts| == 1 {
      SplitNothing(parts[0], separator);
    } else {
      assert parts == [parts[0]] + parts[1..];
      SplitJoin(parts[1..], separator);
      SplitFront(parts[0], Join(parts[1..], separator), separator);
    }
  }

  /** Each line followed by a separator, then the leftover. */
  function Stream(lines: seq<string>, leftover: string, separator: char): string {
    if lines == [] then leftover else lines[0] + [separator] + Stream(lines[1..], leftover, separator)
  }

  lemma {:induction false} StreamIsJoin(lines: seq<string>, leftover: string, separator: char)
    ensures Stream(lines, leftover, separator) == Join(lines + [leftover], separator)
  {
    if lines != [] {
      assert (lines + [leftover])[1..] == lines[1..] + [leftover];
      StreamIsJoin(lines[1..], leftover, separator);
    }
  }

  lemma {:induction false} StreamExtends(lines: seq<string>, leftover: string, more: string, separator: char)
    ensures Stream(lines, leftover, separator) + more == Stream(lines, leftover + more, separator)
  {
    if lines != [] {
      StreamExtends(lines[1..], leftover, more, separator);
    }
  }

  lemma {:induction false} SplitStream(lines: seq<string>, rest: string, separator: char)
    requires Clean(lines, separator)
    ensures Split(Stream(lines, rest, separator), separator) == lines + Split(rest, separator)
  {
    hide Split;
    if lines != [] {
      assert forall i :: 0 <= i < |lines[1..]| ==> lines[1..][i] == lines[i + 1];
      SplitStream(lines[1..], rest, separator);
      SplitFront(lines[0], Stream(lines[1..], rest, separator), separator);
      assert lines + Split(rest, separator) == [lines[0]] + (lines[1..] + Split(rest, separator));
    } else {
      assert lines + Split(rest, separator) == Split(rest, separator);
    }
  }

  /** More text only changes the last piece. */
  lemma SplitExtends(s: string, more: string, separator: char)
    ensures var parts := Split(s, separator); var last := |parts| - 1;
      Split(s + more, separator) == parts[..last] + Split(parts[last] + more, separator)
  {
    hide Split, Join, Stream;
    var parts := Split(s, separator);
    var last := |parts| - 1;
    JoinSplit(s, separator);
    assert parts == parts[..last] + [parts[last]];
    StreamIsJoin(parts[..last], parts[last], separator);
    StreamExtends(parts[..last], parts[last], more, separator);
    SplitStream(parts[..last], parts[last] + more, separator);
  }

  /** The position of the first separator at or after start, as std::string::find; |s| if there is none. */
  method Find(s: string, separator: char, start: nat) returns (pos: nat)
    requires start <= |s|
    ensures start <= pos <= |s| && separator !in s[start..pos]
    ensures pos < |s| ==> s[pos] == separator
  {
    pos := start;
    while pos < |s| && s[pos] != separator
      invariant start <= pos <= |s| && separator !in s[start..pos]
    {
      pos := pos + 1;
    }
  }
}
