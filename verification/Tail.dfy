/** Following a growing file line by line (`DiagnosticsTail` in
    `src/benchmark.rs`). */
module Tail {
  import opened Common
  import opened Utf8

  type Bytes = seq<byte>

  const NEWLINE: byte := 0x0A
  const RETURN: byte := 0x0D

  /** The first newline, or the length when there is none. */
  function Position(s: Bytes): (n: nat)
    ensures n <= |s| && NEWLINE !in s[..n]
    ensures n < |s| ==> s[n] == NEWLINE
  {
    if s == [] || s[0] == NEWLINE then 0
    else
      var n := Position(s[1..]);
      assert s[..n + 1] == [s[0]] + s[1..][..n];
      n + 1
  }

  /** The complete lines, newlines included. */
  function CompleteLines(s: Bytes): seq<Bytes>
    decreases |s|
  {
    var n := Position(s);
    if n == |s| then [] else [s[..n + 1]] + CompleteLines(s[n + 1..])
  }

  /** What comes after the last newline. */
  function Unfinished(s: Bytes): Bytes
    decreases |s|
  {
    var n := Position(s);
    if n == |s| then s else Unfinished(s[n + 1..])
  }

  function TrimmedEnd(s: Bytes): Bytes {
    if s != [] && (s[|s| - 1] == NEWLINE || s[|s| - 1] == RETURN) then TrimmedEnd(s[..|s| - 1]) else s
  }

  /** What of one complete line is handed on: its text without the line ending when
      it is valid UTF-8 and anything is left. */
  function Shown(line: Bytes): seq<Bytes> {
    if ValidUtf8(line) && TrimmedEnd(line) != [] then [TrimmedEnd(line)] else []
  }

  function ShownAll(lines: seq<Bytes>): seq<Bytes> {
    if lines == [] then [] else Shown(lines[0]) + ShownAll(lines[1..])
  }

  /** The lines of a byte stream. */
  function LinesOf(s: Bytes): seq<Bytes> {
    ShownAll(CompleteLines(s))
  }

  // -------------------------------------------------------- splitting into lines

  function Joined(lines: seq<Bytes>): Bytes {
    if lines == [] then [] else lines[0] + Joined(lines[1..])
  }

  /** One newline, at the end. */
  ghost predicate IsLine(line: Bytes) {
    line != [] && line[|line| - 1] == NEWLINE && NEWLINE !in line[..|line| - 1]
  }

  /** A split of `s` into lines and a rest without newline. */
  ghost predicate Splits(s: Bytes, lines: seq<Bytes>, rest: Bytes) {
    s == Joined(lines) + rest && (forall line | line in lines :: IsLine(line)) && NEWLINE !in rest
  }

  lemma FirstLine(line: Bytes, rest: Bytes)
    requires IsLine(line)
    ensures Position(line + rest) == |line| - 1
  {
    var s, n := line + rest, |line| - 1;
    var p := Position(s);
    assert s[n] == NEWLINE;
    assert forall k | 0 <= k < n :: s[k] == line[..n][k];
    forall k | 0 <= k < p ensures s[k] != NEWLINE {
      assert s[..p][k] == s[k];
    }
  }

  lemma NoNewline(rest: Bytes)
    requires NEWLINE !in rest
    ensures Position(rest) == |rest|
  {
  }

  /** There is one such split, and it is the one the reader makes. */
  lemma {:induction false} SplitIsUnique(s: Bytes, lines: seq<Bytes>, rest: Bytes)
    requires Splits(s, lines, rest)
    ensures CompleteLines(s) == lines && Unfinished(s) == rest
    decreases |lines|
  {
    hide Position;
    if lines == [] {
      assert s == rest;
      NoNewline(rest);
    } else {
      var tail := Joined(lines[1..]) + rest;
      assert s == lines[0] + tail;
      FirstLine(lines[0], tail);
      assert s[..|lines[0]|] == lines[0] && s[|lines[0]|..] == tail;
      assert Splits(tail, lines[1..], rest);
      SplitIsUnique(tail, lines[1..], rest);
    }
  }

  lemma SplitsMore(line: Bytes, s: Bytes, lines: seq<Bytes>, rest: Bytes)
    requires IsLine(line) && Splits(s, lines, rest)
    ensures Splits(line + s, [line] + lines, rest)
  {
    assert ([line] + lines)[1..] == lines;
    assert line + s == line + Joined(lines) + rest;
  }

  lemma LineCut(s: Bytes, n: nat)
    requires n < |s| && s[n] == NEWLINE && NEWLINE !in s[..n]
    ensures s == s[..n + 1] + s[n + 1..] && IsLine(s[..n + 1])
  {
    assert s[..n + 1][..n] == s[..n];
  }

  lemma OneLine(s: Bytes)
    requires Position(s) < |s|
    ensures s == s[..Position(s) + 1] + s[Position(s) + 1..] && IsLine(s[..Position(s) + 1])
    ensures CompleteLines(s) == [s[..Position(s) + 1]] + CompleteLines(s[Position(s) + 1..])
    ensures Unfinished(s) == Unfinished(s[Position(s) + 1..])
  {
    hide Position, IsLine;
    LineCut(s, Position(s));
  }

  lemma NoLine(s: Bytes)
    requires Position(s) == |s|
    ensures CompleteLines(s) == [] && Unfinished(s) == s && NEWLINE !in s
  {
    hide Position;
    assert s[..|s|] == s;
  }

  lemma {:induction false} ReaderSplits(s: Bytes)
    ensures Splits(s, CompleteLines(s), Unfinished(s))
    decreases |s|
  {
    hide Position, Joined, CompleteLines, Unfinished, IsLine;
    var n := Position(s);
    if n == |s| {
      NoLine(s);
      JoinedNone();
      assert [] + s == s;
    } else {
      OneLine(s);
      hide Splits;
      ReaderSplits(s[n + 1..]);
      SplitsMore(s[..n + 1], s[n + 1..], CompleteLines(s[n + 1..]), Unfinished(s[n + 1..]));
    }
  }

  lemma JoinedNone()
    ensures Joined([]) == []
  {
  }

  lemma {:induction false} JoinedAppend(a: seq<Bytes>, b: seq<Bytes>)
    ensures Joined(a + b) == Joined(a) + Joined(b)
  {
    if a == [] {
      assert a + b == b;
    } else {
      assert (a + b)[1..] == a[1..] + b;
      JoinedAppend(a[1..], b);
    }
  }

  lemma {:induction false} ShownAppend(a: seq<Bytes>, b: seq<Bytes>)
    ensures ShownAll(a + b) == ShownAll(a) + ShownAll(b)
  {
    if a == [] {
      assert a + b == b;
    } else {
      assert (a + b)[1..] == a[1..] + b;
      ShownAppend(a[1..], b);
    }
  }

  /** Reading on from what was left unfinished is reading it all at once. */
  lemma {:induction false} ReadingOn(a: Bytes, b: Bytes)
    ensures CompleteLines(a + b) == CompleteLines(a) + CompleteLines(Unfinished(a) + b)
    ensures Unfinished(a + b) == Unfinished(Unfinished(a) + b)
    ensures LinesOf(a + b) == LinesOf(a) + LinesOf(Unfinished(a) + b)
  {
    hide CompleteLines, Unfinished, IsLine, Shown, ShownAll;
    var rest := Unfinished(a) + b;
    ReaderSplits(a);
    ReaderSplits(rest);
    JoinedAppend(CompleteLines(a), CompleteLines(rest));
    assert a + b == Joined(CompleteLines(a)) + rest;
    SplitIsUnique(a + b, CompleteLines(a) + CompleteLines(rest), Unfinished(rest));
    ShownAppend(CompleteLines(a), CompleteLines(rest));
  }

  lemma NothingRead()
    ensures CompleteLines([]) == [] && Unfinished([]) == [] && LinesOf([]) == []
  {
  }

  // ---------------------------------------------------------------------- polling

  /** What the file gives one poll: whether it can be opened, and the pieces read
      until its present end or an error. */
  datatype Feed = Feed(opens: bool, pieces: seq<Bytes>)

  class DiagnosticsTail {
    var isOpen: bool
    var buf: Bytes
    ghost var consumed: Bytes

    ghost predicate Valid()
      reads this
    {
      buf == Unfinished(consumed) && (!isOpen ==> consumed == [])
    }

    constructor ()
      ensures Valid() && consumed == [] && !isOpen
    {
      isOpen, buf, consumed := false, [], [];
    }

    /** Reads what there is and returns the lines it completes; an unfinished one
        waits in the buffer. */
    method Poll(feed: Feed) returns (lines: seq<Bytes>)
      requires Valid()
      modifies this
      ensures Valid()
      ensures isOpen == (old(isOpen) || feed.opens)
      ensures consumed == old(consumed) + if isOpen then Joined(feed.pieces) else []
      ensures LinesOf(consumed) == LinesOf(old(consumed)) + lines
    {
      hide Unfinished, CompleteLines, Shown, LinesOf, Position;
      if !isOpen {
        isOpen := feed.opens;
      }
      lines := [];
      if !isOpen {
        return;
      }
      ghost var start, held := consumed, buf;
      for i := 0 to |feed.pieces|
        invariant buf == held + Joined(feed.pieces[..i])
        invariant isOpen && consumed == start
      {
        assert feed.pieces[..i + 1] == feed.pieces[..i] + [feed.pieces[i]];
        JoinedAppend(feed.pieces[..i], [feed.pieces[i]]);
        assert Joined([feed.pieces[i]]) == feed.pieces[i];
        buf := buf + feed.pieces[i];
      }
      assert feed.pieces[..|feed.pieces|] == feed.pieces;
      ReadingOn(start, Joined(feed.pieces));
      consumed := start + Joined(feed.pieces);
      lines := Drain();
    }

    method Drain() returns (lines: seq<Bytes>)
      modifies `buf
      ensures buf == Unfinished(old(buf)) && lines == LinesOf(old(buf))
    {
      hide Position, LinesOf, Unfinished, ValidUtf8, TrimmedEnd;
      lines := [];
      var pos := Position(buf);
      while pos < |buf|
        invariant pos == Position(buf)
        invariant Unfinished(buf) == Unfinished(old(buf))
        invariant LinesOf(old(buf)) == lines + LinesOf(buf)
        decreases |buf|
      {
        LineTaken(buf);
        var line := buf[..pos + 1];
        buf := buf[pos + 1..];
        if ValidUtf8(line) {
          var trimmed := TrimmedEnd(line);
          if trimmed != [] {
            lines := lines + [trimmed];
          }
        }
        pos := Position(buf);
      }
      NothingLeft(buf);
    }
  }

  lemma LineTaken(s: Bytes)
    requires Position(s) < |s|
    ensures Unfinished(s) == Unfinished(s[Position(s) + 1..])
    ensures LinesOf(s) == Shown(s[..Position(s) + 1]) + LinesOf(s[Position(s) + 1..])
  {
    hide Position, Shown, CompleteLines, Unfinished;
    OneLine(s);
    ShownFirst(s[..Position(s) + 1], CompleteLines(s[Position(s) + 1..]));
  }

  lemma NothingLeft(s: Bytes)
    requires Position(s) == |s|
    ensures Unfinished(s) == s && LinesOf(s) == []
  {
    hide Position;
    NoLine(s);
  }

  lemma ShownFirst(line: Bytes, lines: seq<Bytes>)
    ensures ShownAll([line] + lines) == Shown(line) + ShownAll(lines)
  {
    assert ([line] + lines)[1..] == lines;
  }

  // -------------------------------------------------------------- what is handed on

  predicate LineEnd(b: byte) { b == NEWLINE || b == RETURN }

  /** Trimming takes the line ending off and nothing else. */
  lemma {:induction false} TrimmedMeans(s: Bytes)
    ensures TrimmedEnd(s) <= s && (TrimmedEnd(s) != [] ==> !LineEnd(TrimmedEnd(s)[|TrimmedEnd(s)| - 1]))
    ensures forall i | |TrimmedEnd(s)| <= i < |s| :: LineEnd(s[i])
  {
    if s != [] && LineEnd(s[|s| - 1]) {
      TrimmedMeans(s[..|s| - 1]);
    }
  }

  /** A line is handed on exactly when some complete line is well-formed text and trims
      to it, with anything left. */
  lemma {:induction false} HandedOn(lines: seq<Bytes>, text: Bytes)
    ensures text in ShownAll(lines) <==> text != [] && exists line :: line in lines && Carries(line, text)
  {
    hide ValidUtf8, TrimmedEnd;
    if lines != [] {
      HandedOn(lines[1..], text);
      assert forall line :: line in lines <==> line == lines[0] || line in lines[1..];
      assert text in Shown(lines[0]) <==> text != [] && Carries(lines[0], text);
      hide Shown, Carries;
    }
  }

  predicate Carries(line: Bytes, text: Bytes) {
    ValidUtf8(line) && TrimmedEnd(line) == text
  }

  /** How many are handed on: none is repeated and none is merged. */
  lemma {:induction false} HandedOnOnce(lines: seq<Bytes>)
    requires forall line | line in lines :: ValidUtf8(line) && TrimmedEnd(line) != []
    ensures |ShownAll(lines)| == |lines| && forall i | 0 <= i < |lines| :: ShownAll(lines)[i] == TrimmedEnd(lines[i])
  {
    hide ValidUtf8, TrimmedEnd;
    if lines != [] {
      HandedOnOnce(lines[1..]);
      assert lines[0] in lines;
    }
  }
}
