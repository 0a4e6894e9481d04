/** The receive-side line framer of `receive_messages`: text read from the
    socket is appended to a carry-over buffer, every complete line (the text
    before a newline) is cut off, blank lines are skipped, lines that do not
    parse are dropped, and every parsed record is handed on in order. */
module Framer {
  import opened Wrappers
  import opened Text
  import opened Json

  /** The complete lines of a text and the unterminated tail after them. */
  datatype Split = Split(lines: seq<string>, rest: string)

  /** Cutting `s.split("\n", 1)` off repeatedly while a newline is left. */
  function SplitLines(s: string): (r: Split)
    ensures |r.lines| + |r.rest| <= |s|
    ensures |r.lines| == 0 ==> r.rest == s
    decreases |s|
  {
    match FindNewline(s)
    case None => Split([], s)
    case Some(i) =>
      var tail := SplitLines(s[i + 1..]);
      Split([s[..i]] + tail.lines, tail.rest)
  }

  /** Each line followed by its newline, concatenated: the text the lines came from. */
  function Terminated(lines: seq<string>): string
  {
    if lines == [] then "" else lines[0] + "\n" + Terminated(lines[1..])
  }

  /** What one line contributes to the dispatched records: nothing when it
      is blank (no parse is attempted) or does not parse, else its record. */
  function Accepted(line: string, decode: Decoder): (r: seq<Json>)
    ensures |r| <= 1
    ensures r != [] <==> !IsBlank(line) && decode(line).Some?
    ensures r != [] ==> decode(line) == Some(r[0])
  {
    if IsBlank(line) then []
    else match decode(line)
      case None => []
      case Some(m) => [m]
  }

  /** The records dispatched for a sequence of lines, in line order. */
  function Records(lines: seq<string>, decode: Decoder): (r: seq<Json>)
    ensures |r| <= |lines|
  {
    if lines == [] then [] else Accepted(lines[0], decode) + Records(lines[1..], decode)
  }

  /** Only the newline at `n` can be the first one when none comes before it. */
  lemma FindNewlineAt(s: string, n: nat)
    requires n < |s| && s[n] == '\n'
    requires NoNewline(s[..n])
    ensures FindNewline(s) == Some(n)
  {
    assert !NoNewline(s);
  }

  /** A text is its part before a newline, the newline, and its part after. */
  lemma CutAt(s: string, i: nat)
    requires i < |s| && s[i] == '\n'
    ensures s == s[..i] + "\n" + s[i + 1..]
  {
  }

  lemma Assoc<T>(a: seq<T>, b: seq<T>, c: seq<T>)
    ensures (a + b) + c == a + (b + c)
  {
  }

  lemma Regroup(a: string, b: string, c: string, d: string)
    ensures (a + b + c) + d == a + b + (c + d)
  {
  }

  /** A single line is written as itself and its newline. */
  lemma TerminatedOne(line: string)
    ensures Terminated([line]) == line + "\n"
  {
    assert [line][1..] == [];
    assert line + "\n" + "" == line + "\n";
  }

  lemma {:induction false} TerminatedAppend(a: seq<string>, b: seq<string>)
    ensures Terminated(a + b) == Terminated(a) + Terminated(b)
  {
    if a != [] {
      assert (a + b)[0] == a[0];
      assert (a + b)[1..] == a[1..] + b;
      TerminatedAppend(a[1..], b);
      calc {
        Terminated(a + b);
        a[0] + "\n" + Terminated(a[1..] + b);
        a[0] + "\n" + (Terminated(a[1..]) + Terminated(b));
        (a[0] + "\n" + Terminated(a[1..])) + Terminated(b);
      }
    } else {
      assert a + b == b;
    }
  }

  /** Nothing is lost, added or reordered: the lines, each with its newline,
      followed by the tail, are exactly the text; no line and not the tail
      holds a newline. */
  lemma {:induction false} SplitLinesSound(s: string)
    ensures Terminated(SplitLines(s).lines) + SplitLines(s).rest == s
    ensures NoNewline(SplitLines(s).rest)
    ensures forall k :: 0 <= k < |SplitLines(s).lines| ==> NoNewline(SplitLines(s).lines[k])
    decreases |s|
  {
    if FindNewline(s).Some? {
      var i := FindNewline(s).value;
      SplitLinesSound(s[i + 1..]);
      var tail := SplitLines(s[i + 1..]);
      var lines := [s[..i]] + tail.lines;
      SplitLinesAt(s, i);
      assert lines[0] == s[..i] && lines[1..] == tail.lines;
      var front := Terminated(tail.lines);
      assert Terminated(lines) == s[..i] + "\n" + front;
      CutAt(s, i);
      Regroup(s[..i], "\n", front, tail.rest);
      forall k | 0 <= k < |lines| ensures NoNewline(lines[k]) {
        if k > 0 {
          assert lines[k] == tail.lines[k - 1];
        }
      }
    } else {
      assert SplitLines(s) == Split([], s);
    }
  }

  /** The converse: lines free of newlines, each terminated, followed by a
      tail free of newlines, split back into exactly those lines and tail. */
  lemma {:induction false} SplitLinesUnique(lines: seq<string>, rest: string)
    requires forall k :: 0 <= k < |lines| ==> NoNewline(lines[k])
    requires NoNewline(rest)
    ensures SplitLines(Terminated(lines) + rest) == Split(lines, rest)
  {
    if lines != [] {
      var s := Terminated(lines) + rest;
      var t := Terminated(lines[1..]) + rest;
      assert s == lines[0] + "\n" + t;
      var n := |lines[0]|;
      assert s[n] == '\n';
      assert s[..n] == lines[0];
      FindNewlineAt(s, n);
      assert s[n + 1..] == t;
      SplitLinesUnique(lines[1..], rest);
      SplitLinesAt(s, n);
      assert [lines[0]] + lines[1..] == lines;
    } else {
      assert Terminated(lines) + rest == rest;
      assert FindNewline(rest).None?;
    }
  }

  /** One step of `SplitLines`: the line before the first newline, then the rest. */
  lemma SplitLinesAt(s: string, i: nat)
    requires FindNewline(s) == Some(i)
    ensures SplitLines(s) == Split([s[..i]] + SplitLines(s[i + 1..]).lines, SplitLines(s[i + 1..]).rest)
  {
  }

  /** Splitting a text read in two parts: the lines of the first part, then
      the lines of its tail joined to the second part. This is what lets the
      buffer carry an incomplete line from one read to the next. */
  lemma SplitLinesAppend(a: string, b: string)
    ensures var first := SplitLines(a);
            var second := SplitLines(first.rest + b);
            SplitLines(a + b) == Split(first.lines + second.lines, second.rest)
  {
    var first := SplitLines(a);
    var second := SplitLines(first.rest + b);
    SplitLinesSound(a);
    SplitLinesSound(first.rest + b);
    var x, y := Terminated(first.lines), Terminated(second.lines);
    TerminatedAppend(first.lines, second.lines);
    calc {
      a + b;
      (x + first.rest) + b;
      { Assoc(x, first.rest, b); }
      x + (first.rest + b);
      x + (y + second.rest);
      { Assoc(x, y, second.rest); }
      (x + y) + second.rest;
      Terminated(first.lines + second.lines) + second.rest;
    }
    var lines := first.lines + second.lines;
    forall k | 0 <= k < |lines| ensures NoNewline(lines[k]) {
      if k >= |first.lines| {
        assert lines[k] == second.lines[k - |first.lines|];
      }
    }
    SplitLinesUnique(lines, second.rest);
  }

  lemma {:induction false} RecordsAppend(a: seq<string>, b: seq<string>, decode: Decoder)
    ensures Records(a + b, decode) == Records(a, decode) + Records(b, decode)
  {
    if a != [] {
      assert (a + b)[0] == a[0];
      assert (a + b)[1..] == a[1..] + b;
      RecordsAppend(a[1..], b, decode);
    } else {
      assert a + b == b;
    }
  }

  /** A record is dispatched exactly when some non-blank line parses to it. */
  lemma {:induction false} RecordsFromLines(lines: seq<string>, decode: Decoder, m: Json)
    ensures m in Records(lines, decode) <==>
            exists k :: 0 <= k < |lines| && !IsBlank(lines[k]) && decode(lines[k]) == Some(m)
  {
    if lines != [] {
      RecordsFromLines(lines[1..], decode, m);
      if m in Records(lines[1..], decode) {
        var k :| 0 <= k < |lines[1..]| && !IsBlank(lines[1..][k]) && decode(lines[1..][k]) == Some(m);
        assert lines[k + 1] == lines[1..][k];
      }
      if exists k :: 0 <= k < |lines| && !IsBlank(lines[k]) && decode(lines[k]) == Some(m) {
        var k :| 0 <= k < |lines| && !IsBlank(lines[k]) && decode(lines[k]) == Some(m);
        if k > 0 {
          assert lines[1..][k - 1] == lines[k];
        }
      }
    }
  }

  /** A blank line is never handed to the parser: two parsers that agree on
      every non-blank line dispatch the same records. */
  lemma {:induction false} BlankLinesNotParsed(lines: seq<string>, d1: Decoder, d2: Decoder)
    requires forall k :: 0 <= k < |lines| && !IsBlank(lines[k]) ==> d1(lines[k]) == d2(lines[k])
    ensures Records(lines, d1) == Records(lines, d2)
  {
    if lines != [] {
      BlankLinesNotParsed(lines[1..], d1, d2);
    }
  }

  /** A line that fails to parse is dropped without ending the pass: the
      lines before it and the lines after it are still dispatched, in order. */
  lemma {:induction false} MalformedLineDropped(lines: seq<string>, k: nat, decode: Decoder)
    requires k < |lines|
    requires IsBlank(lines[k]) || decode(lines[k]).None?
    ensures Records(lines, decode) == Records(lines[..k], decode) + Records(lines[k + 1..], decode)
  {
    assert lines == lines[..k] + ([lines[k]] + lines[k + 1..]);
    RecordsAppend(lines[..k], [lines[k]] + lines[k + 1..], decode);
    RecordsAppend([lines[k]], lines[k + 1..], decode);
  }

  /** A trailing partial line is kept and completed by the next read:
      "A\nB" gives the line "A" and keeps "B"; then "C\n" gives "BC". */
  lemma PartialLineCarried()
    ensures SplitLines("A\nB") == Split(["A"], "B")
    ensures SplitLines("B" + "C\n") == Split(["BC"], "")
  {
    assert Terminated(["A"]) + "B" == "A\nB";
    SplitLinesUnique(["A"], "B");
    assert Terminated(["BC"]) + "" == "B" + "C\n";
    SplitLinesUnique(["BC"], "");
  }

  /** The records of a single line are what that line contributes. */
  lemma RecordsOfLine(line: string, decode: Decoder)
    ensures Records([line], decode) == Accepted(line, decode)
  {
    assert [line][1..] == [];
    assert Accepted(line, decode) + [] == Accepted(line, decode);
  }

  /** The carry-over buffer of one receive loop. */
  class LineFramer {
    var buffer: string

    constructor ()
      ensures buffer == ""
    {
      buffer := "";
    }

    /** Appends one read's text and drains every complete line from the
        buffer, returning the records to dispatch. */
    method Feed(chunk: string, decode: Decoder) returns (records: seq<Json>)
      modifies this
      ensures NoNewline(buffer)
      ensures buffer == SplitLines(old(buffer) + chunk).rest
      ensures records == Records(SplitLines(old(buffer) + chunk).lines, decode)
    {
      buffer := buffer + chunk;
      ghost var lines: seq<string> := [];
      assert [] + SplitLines(buffer).lines == SplitLines(buffer).lines;
      records := [];
      while FindNewline(buffer).Some?
        invariant SplitLines(old(buffer) + chunk) ==
                  Split(lines + SplitLines(buffer).lines, SplitLines(buffer).rest)
        invariant records == Records(lines, decode)
        decreases |buffer|
      {
        var i := FindNewline(buffer).value;
        var line := buffer[..i];
        SplitLinesAt(buffer, i);
        Assoc(lines, [line], SplitLines(buffer[i + 1..]).lines);
        buffer := buffer[i + 1..];
        RecordsAppend(lines, [line], decode);
        RecordsOfLine(line, decode);
        lines := lines + [line];
        if Strip(line) != [] {
          var parsed := decode(line);
          if parsed.None? {
            continue;
          }
          records := records + [parsed.value];
        }
      }
      assert lines + [] == lines;
    }
  }
}
