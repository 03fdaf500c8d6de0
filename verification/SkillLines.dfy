/** What the synchroniser does to the line endings of a text, line by line. */
module SkillLines {
  import opened SkillTree

  datatype Ending = Unix | OldMac | Windows

  datatype Line = Line(text: Bytes, ending: Ending)

  function Mark(e: Ending): Bytes {
    match e
    case Unix => [LF]
    case OldMac => [CR]
    case Windows => [CR, LF]
  }

  /** Lines with their endings, then what follows the last ending. */
  function Written(lines: seq<Line>, last: Bytes): Bytes {
    if lines == [] then last else lines[0].text + Mark(lines[0].ending) + Written(lines[1..], last)
  }

  function UnixWritten(lines: seq<Line>, last: Bytes): Bytes {
    if lines == [] then last else lines[0].text + [LF] + UnixWritten(lines[1..], last)
  }

  predicate Unbroken(text: Bytes) { CR !in text && LF !in text }

  /** Lines as they are told apart: a CR and an LF next to each other are one ending. */
  predicate AreLines(lines: seq<Line>, last: Bytes) {
    && Unbroken(last)
    && (forall i :: 0 <= i < |lines| ==> Unbroken(lines[i].text))
    && (forall i :: 0 <= i < |lines| - 1 && lines[i].ending.OldMac? ==> lines[i + 1].text != [] || !lines[i + 1].ending.Unix?)
  }

  lemma {:induction false} PassesText(text: Bytes, rest: Bytes)
    requires Unbroken(text)
    ensures ReplaceCrLf(text + rest) == text + ReplaceCrLf(rest)
  {
    if text == [] {
      assert text + rest == rest;
    } else {
      assert (text + rest)[1..] == text[1..] + rest;
      PassesText(text[1..], rest);
      assert text == [text[0]] + text[1..];
    }
  }

  lemma {:induction false} PassesBytes(a: Bytes, b: Bytes)
    ensures ReplaceCr(a + b) == ReplaceCr(a) + ReplaceCr(b)
  {
    if a == [] {
      assert a + b == b;
    } else {
      assert (a + b)[1..] == a[1..] + b;
      PassesBytes(a[1..], b);
    }
  }

  lemma EndingReplaced(e: Ending, rest: Bytes)
    requires e.OldMac? && rest != [] ==> rest[0] != LF
    ensures UnixLines(Mark(e) + rest) == [LF] + UnixLines(rest)
  {
    var s := Mark(e) + rest;
    match e
    case Windows => assert s[2..] == rest;
    case _ => assert s[1..] == rest;
    assert ReplaceCrLf(s) == [s[0]] + ReplaceCrLf(rest) || ReplaceCrLf(s) == [LF] + ReplaceCrLf(rest);
    PassesBytes(ReplaceCrLf(s)[..1], ReplaceCrLf(rest));
  }

  lemma LineReplaced(line: Line, rest: Bytes)
    requires Unbroken(line.text) && (line.ending.OldMac? && rest != [] ==> rest[0] != LF)
    ensures UnixLines(line.text + Mark(line.ending) + rest) == line.text + [LF] + UnixLines(rest)
  {
    var tail := Mark(line.ending) + rest;
    assert line.text + Mark(line.ending) + rest == line.text + tail;
    PassesText(line.text, tail);
    PassesBytes(line.text, ReplaceCrLf(tail));
    NothingToReplace(line.text);
    EndingReplaced(line.ending, rest);
  }

  /** Normalising a text keeps every line and what follows the last one, and makes every ending an LF. */
  lemma {:induction false} LinesAreKept(lines: seq<Line>, last: Bytes)
    requires AreLines(lines, last)
    ensures UnixLines(Written(lines, last)) == UnixWritten(lines, last)
  {
    if lines == [] {
      NothingToReplace(last);
    } else {
      var rest := Written(lines[1..], last);
      LinesAreKept(lines[1..], last);
      if lines[0].ending.OldMac? && |lines| > 1 {
        assert rest == lines[1].text + (Mark(lines[1].ending) + Written(lines[1..][1..], last));
      }
      LineReplaced(lines[0], rest);
    }
  }

  /** Every sequence of bytes is lines in that sense, so the previous lemma speaks of every text. */
  lemma {:induction false} EveryTextIsLines(s: Bytes) returns (lines: seq<Line>, last: Bytes)
    ensures AreLines(lines, last) && Written(lines, last) == s
  {
    if s == [] {
      lines, last := [], [];
    } else if |s| >= 2 && s[0] == CR && s[1] == LF {
      lines, last := EveryTextIsLines(s[2..]);
      lines := [Line([], Windows)] + lines;
      assert s == [CR, LF] + s[2..];
    } else {
      var rest, tail := EveryTextIsLines(s[1..]);
      lines, last := Prepended(s[0], rest, tail, s[1..]);
      assert s == [s[0]] + s[1..];
    }
  }

  /** One more byte in front, not the CR of a CRLF: an ending of its own or the start of the first line. */
  lemma Prepended(b: Byte, rest: seq<Line>, tail: Bytes, s: Bytes) returns (lines: seq<Line>, last: Bytes)
    requires AreLines(rest, tail) && Written(rest, tail) == s && (b == CR && s != [] ==> s[0] != LF)
    ensures AreLines(lines, last) && Written(lines, last) == [b] + s
  {
    if b == LF || b == CR {
      lines, last := [Line([], if b == LF then Unix else OldMac)] + rest, tail;
      assert lines[1..] == rest;
    } else if rest == [] {
      lines, last := [], [b] + tail;
    } else {
      lines, last := [Line([b] + rest[0].text, rest[0].ending)] + rest[1..], tail;
      assert lines[1..] == rest[1..];
    }
  }
}
