/**
 What the frame parser makes of any header text: lines that end in CRLF, a blank line, and among
 them, anywhere and in any letter case, a Content-Length line.
 */
module FrameHeaders {
  import opened CText
  import opened Framing

  /** A line of a header: not empty and without a CRLF of its own. */
  ghost predicate HeaderLine(line: string) {
    line != "" && forall j :: 0 <= j < |line| - 1 ==> !(line[j] == '\r' && line[j + 1] == '\n')
  }

  /** Lines, each with its CRLF. */
  function Text(lines: seq<string>): string {
    if lines == [] then "" else lines[0] + "\r\n" + Text(lines[1..])
  }

  /** The field name with its colon, every letter in either case. */
  predicate SpellsField(s: string) {
    |s| == 15 && forall i :: 0 <= i < 15 ==> s[i] == "content-length:"[i] || s[i] == "CONTENT-LENGTH:"[i]
  }

  predicate StartsWithField(line: string) { |line| >= 15 && SpellsField(line[..15]) }

  predicate Blanks(s: string) { forall i :: 0 <= i < |s| ==> s[i] == ' ' || s[i] == '\t' }

  // ---------------------------------------------------------------- texts inside a text

  /** `t` stands in `s` at offset `at`. */
  ghost predicate Stands(s: string, at: nat, t: string) {
    at + |t| <= |s| && forall i :: 0 <= i < |t| ==> s[at + i] == t[i]
  }

  lemma StandsOccurs(s: string, at: nat, t: string)
    ensures Stands(s, at, t) <==> OccursAt(t, s, at)
  {
    if at + |t| <= |s| {
      var part := s[at..at + |t|];
      assert forall i :: 0 <= i < |t| ==> part[i] == s[at + i];
    }
  }

  lemma StandsParts(s: string, at: nat, a: string, b: string)
    ensures Stands(s, at, a + b) <==> Stands(s, at, a) && Stands(s, at + |a|, b)
  {
    if Stands(s, at, a + b) {
      assert forall i :: 0 <= i < |a| ==> (a + b)[i] == a[i];
      assert forall i :: 0 <= i < |b| ==> (a + b)[|a| + i] == b[i];
    }
  }

  lemma PrefixStands(t: string, rest: string)
    ensures Stands(t, 0, t) && Stands(t + rest, 0, t) && (t + rest)[..|t|] == t
  {
  }

  /** A terminated line stands there. */
  ghost predicate LineAt(s: string, at: nat, line: string) {
    Stands(s, at, line) && Stands(s, at + |line|, "\r\n")
  }

  /** Lines and the blank line after them stand there. */
  ghost predicate TextAt(s: string, at: nat, lines: seq<string>) {
    Stands(s, at, Text(lines) + "\r\n")
  }

  lemma NoText(lines: seq<string>)
    requires lines == []
    ensures Text(lines) == ""
  {
  }

  lemma {:induction false} TextAppends(a: seq<string>, b: seq<string>)
    ensures Text(a + b) == Text(a) + Text(b)
  {
    if a == [] {
      assert a + b == b;
    } else {
      TextAppends(a[1..], b);
      assert (a + b)[1..] == a[1..] + b;
      assert a[0] + "\r\n" + (Text(a[1..]) + Text(b)) == a[0] + "\r\n" + Text(a[1..]) + Text(b);
    }
  }

  /** The first line, and the lines after it. */
  lemma FirstLineOf(s: string, at: nat, lines: seq<string>)
    requires lines != [] && TextAt(s, at, lines)
    ensures |Text(lines)| == |lines[0]| + 2 + |Text(lines[1..])|
    ensures LineAt(s, at, lines[0]) && TextAt(s, at + |lines[0]| + 2, lines[1..])
  {
    hide Stands;
    var line, tail := lines[0], Text(lines[1..]) + "\r\n";
    assert Text(lines) + "\r\n" == (line + "\r\n") + tail;
    StandsParts(s, at, line + "\r\n", tail);
    StandsParts(s, at, line, "\r\n");
  }

  // ---------------------------------------------------------------- where the header ends

  lemma {:induction false} SkipTo(pat: string, s: string, i: nat, k: nat)
    requires i <= k <= |s| && forall j :: i <= j < k ==> !OccursAt(pat, s, j)
    ensures FindFrom(pat, s, i) == FindFrom(pat, s, k)
    decreases k - i
  {
    if i < k {
      SkipTo(pat, s, i + 1, k);
    }
  }

  lemma CrlfChars(s: string, j: nat)
    ensures Stands(s, j, "\r\n") <==> j + 2 <= |s| && s[j] == '\r' && s[j + 1] == '\n'
  {
    var t := "\r\n";
    assert t[0] == '\r' && t[1] == '\n';
    if Stands(s, j, t) {
      assert s[j + 0] == t[0] && s[j + 1] == t[1];
    }
  }

  /** A CRLF stands in a terminated line only at its end. */
  lemma CrlfAtEnd(s: string, at: nat, line: string, j: nat)
    requires HeaderLine(line) && LineAt(s, at, line)
    requires at <= j < at + |line| + 2 && j != at + |line|
    ensures !Stands(s, j, "\r\n")
  {
    CrlfChars(s, j);
    CrlfChars(s, at + |line|);
    if j < at + |line| {
      assert s[at + (j - at)] == line[j - at];
      if j + 1 < at + |line| {
        assert s[at + (j + 1 - at)] == line[j + 1 - at];
      }
    }
  }

  lemma SeparatorParts(s: string, j: nat)
    ensures OccursAt(SEPARATOR, s, j) <==> Stands(s, j, "\r\n") && Stands(s, j + 2, "\r\n")
  {
    hide Stands, OccursAt;
    StandsOccurs(s, j, SEPARATOR);
    assert SEPARATOR == "\r\n" + "\r\n";
    StandsParts(s, j, "\r\n", "\r\n");
  }

  /** A search for the blank line stops at the end of a line or goes on after it. */
  lemma PastLine(s: string, at: nat, line: string)
    requires HeaderLine(line) && LineAt(s, at, line)
    ensures var end := at + |line|;
            && end + 2 <= |s|
            && FindFrom(SEPARATOR, s, at) ==
               if Stands(s, end + 2, "\r\n") then Some(end) else FindFrom(SEPARATOR, s, end + 2)
  {
    var end := at + |line|;
    assert end + 2 <= |s| && Stands(s, end, "\r\n");
    hide FindFrom, HeaderLine, OccursAt, Stands, LineAt;
    forall j | at <= j < end + 2 && j != end
      ensures !OccursAt(SEPARATOR, s, j)
    {
      CrlfAtEnd(s, at, line, j);
      SeparatorParts(s, j);
    }
    SeparatorParts(s, end);
    if OccursAt(SEPARATOR, s, end) {
      FoundAt(SEPARATOR, s, at, end);
    } else {
      SkipTo(SEPARATOR, s, at, end + 2);
    }
  }

  /** The blank line comes exactly when no line is left. */
  lemma BreakComes(s: string, at: nat, lines: seq<string>)
    requires TextAt(s, at, lines) && forall l :: l in lines ==> HeaderLine(l)
    ensures Stands(s, at, "\r\n") <==> lines == []
  {
    if lines == [] {
      NoText(lines);
      assert Text(lines) + "\r\n" == "\r\n";
    } else {
      assert lines[0] in lines;
      hide Stands, TextAt, LineAt;
      FirstLineOf(s, at, lines);
      CrlfAtEnd(s, at, lines[0], at);
    }
  }

  /** The blank line is found after the last line, wherever the search starts among the lines. */
  lemma {:induction false} BlankLine(s: string, at: nat, lines: seq<string>)
    requires lines != [] && (forall l :: l in lines ==> HeaderLine(l)) && TextAt(s, at, lines)
    ensures FindFrom(SEPARATOR, s, at) == Some(at + |Text(lines)| - 2)
    decreases |lines|
  {
    hide Text, FindFrom, HeaderLine, TextAt, Stands, LineAt;
    FirstLineOf(s, at, lines);
    PastLine(s, at, lines[0]);
    BreakComes(s, at + |lines[0]| + 2, lines[1..]);
    if |lines| == 1 {
      NoText(lines[1..]);
    } else {
      BlankLine(s, at + |lines[0]| + 2, lines[1..]);
    }
  }

  // ---------------------------------------------------------------- which lines it has

  lemma LinesStep(hdr: string, at: nat, end: nat)
    requires at <= |hdr| && FindFrom(CRLF, hdr, at) == Some(end)
    ensures at <= end <= end + 2 <= |hdr| && Lines(hdr, at) == [hdr[at..end]] + Lines(hdr, end + 2)
  {
    hide FindFrom;
  }

  lemma NoLinesLeft(hdr: string)
    ensures Lines(hdr, |hdr|) == []
  {
  }

  /** The search for a line end finds the end of the line that stands there. */
  lemma LineFound(hdr: string, at: nat, line: string)
    requires HeaderLine(line) && LineAt(hdr, at, line)
    ensures at + |line| + 2 <= |hdr|
    ensures FindFrom(CRLF, hdr, at) == Some(at + |line|) && hdr[at..at + |line|] == line
  {
    var end := at + |line|;
    assert end + 2 <= |hdr| && Stands(hdr, end, "\r\n");
    assert hdr[at..end] == line;
    hide FindFrom, HeaderLine, OccursAt, Stands, LineAt;
    forall j | at <= j < end
      ensures !OccursAt(CRLF, hdr, j)
    {
      CrlfAtEnd(hdr, at, line, j);
      StandsOccurs(hdr, j, CRLF);
    }
    StandsOccurs(hdr, end, CRLF);
    FoundAt(CRLF, hdr, at, end);
  }

  lemma LastBreak(hdr: string, at: nat)
    requires at + 2 == |hdr| && Stands(hdr, at, "\r\n")
    ensures Lines(hdr, at) == [""]
  {
    StandsOccurs(hdr, at, CRLF);
    FoundAt(CRLF, hdr, at, at);
    hide FindFrom, Lines, OccursAt, Stands;
    LinesStep(hdr, at, at);
    NoLinesLeft(hdr);
    assert hdr[at..at] == "";
    assert [""] + [] == [""];
  }

  lemma OnlyBreak(hdr: string, at: nat, lines: seq<string>)
    requires lines == [] && TextAt(hdr, at, lines) && at + |Text(lines)| + 2 == |hdr|
    ensures at <= |hdr| && Lines(hdr, at) == lines + [""]
  {
    hide Lines;
    NoText(lines);
    assert Text(lines) + "\r\n" == "\r\n";
    LastBreak(hdr, at);
    assert lines + [""] == [""];
  }

  lemma {:induction false} LinesOfText(hdr: string, at: nat, lines: seq<string>)
    requires forall l :: l in lines ==> HeaderLine(l)
    requires TextAt(hdr, at, lines) && at + |Text(lines)| + 2 == |hdr|
    ensures at <= |hdr| && Lines(hdr, at) == lines + [""]
    decreases |lines|
  {
    hide Text, FindFrom, Lines, HeaderLine, Stands, TextAt, LineAt;
    if lines == [] {
      OnlyBreak(hdr, at, lines);
    } else {
      FirstLineOf(hdr, at, lines);
      LineFound(hdr, at, lines[0]);
      LinesStep(hdr, at, at + |lines[0]|);
      LinesOfText(hdr, at + |lines[0]| + 2, lines[1..]);
      assert [lines[0]] + (lines[1..] + [""]) == lines + [""];
    }
  }

  lemma FieldChar(c: char, i: nat)
    requires i < 15
    ensures Lower(c) == FIELD[i] <==> c == "content-length:"[i] || c == "CONTENT-LENGTH:"[i]
  {
  }

  lemma FieldCase(s: string)
    ensures SpellsField(s) <==> |s| == 15 && LowerAll(s) == FIELD
  {
    if |s| == 15 {
      var l := LowerAll(s);
      assert l == FIELD <==> forall i :: 0 <= i < 15 ==> l[i] == FIELD[i];
      forall i | 0 <= i < 15
        ensures l[i] == FIELD[i] <==> s[i] == "content-length:"[i] || s[i] == "CONTENT-LENGTH:"[i]
      {
        FieldChar(s[i], i);
      }
    }
  }

  lemma LengthLineMeans(line: string)
    ensures IsLengthLine(line) <==> StartsWithField(line)
  {
    hide LowerAll, SpellsField;
    if |line| >= 15 {
      FieldCase(line[..15]);
    }
  }

  /** The first line that starts with the field decides. */
  lemma {:induction false} FirstFieldLine(before: seq<string>, line: string, after: seq<string>)
    requires forall l :: l in before ==> !StartsWithField(l)
    requires StartsWithField(line)
    ensures IsLengthLine(line) && FirstLength(before + [line] + after) == LengthValue(line)
    decreases |before|
  {
    hide IsLengthLine, StartsWithField, LengthValue;
    LengthLineMeans(line);
    var all := before + [line] + after;
    if before != [] {
      LengthLineMeans(before[0]);
      FirstFieldLine(before[1..], line, after);
      assert all[1..] == before[1..] + [line] + after;
    }
  }

  lemma {:induction false} NoFieldLine(lines: seq<string>)
    requires forall l :: l in lines ==> !StartsWithField(l)
    ensures FirstLength(lines) == None
  {
    hide IsLengthLine, StartsWithField, LengthValue;
    if lines != [] {
      LengthLineMeans(lines[0]);
      NoFieldLine(lines[1..]);
    }
  }

  // ---------------------------------------------------------------- the value of the line

  lemma {:induction false} BlanksSkipped(blanks: string, rest: string)
    requires Blanks(blanks) && (rest == "" || (rest[0] != ' ' && rest[0] != '\t'))
    ensures SkipBlanks(blanks + rest) == rest
  {
    if blanks == "" {
      assert blanks + rest == rest;
    } else {
      assert (blanks + rest)[1..] == blanks[1..] + rest;
      BlanksSkipped(blanks[1..], rest);
    }
  }

  /** The leading digits of a printed number are a printed number. */
  lemma {:induction false} DecimalPrefix(n: nat, k: nat) returns (m: nat)
    requires 0 < k <= |Decimal(n)|
    ensures Decimal(n)[..k] == Decimal(m)
  {
    if k == |Decimal(n)| {
      m := n;
    } else {
      assert Decimal(n)[..k] == Decimal(n / 10)[..k];
      m := DecimalPrefix(n / 10, k);
    }
  }

  /** A number printed in k digits is at least 10^(k - 1), so beyond every message size from 31 on. */
  lemma LongNumber(n: nat, k: nat)
    requires |Decimal(n)| == k >= 31
    ensures n > MAX_MESSAGE_SIZE
  {
    if n < Pow10(8) {
      DecimalLength(n, 8);
    }
    assert Pow10(8) == 100_000_000;
  }

  /** A Content-Length line says its number, saturated as strtoul does. */
  lemma LengthSaid(line: string, field: string, blanks: string, n: nat, rest: string)
    requires line == field + blanks + Decimal(n) + rest && SpellsField(field) && Blanks(blanks)
    requires rest == "" || !IsDigit(rest[0])
    ensures StartsWithField(line) && IsLengthLine(line)
    ensures AcceptableLength(LengthValue(line)) <==> 1 <= n <= MAX_MESSAGE_SIZE
    ensures 1 <= n <= MAX_MESSAGE_SIZE ==> LengthValue(line) == Some(n)
  {
    assert |field| == 15;
    hide Decimal, Value, LeadingDigits, IsLengthLine, SpellsField, SkipBlanks;
    assert line[..15] == field;
    LengthLineMeans(line);
    var d := Decimal(n);
    assert line[15..] == blanks + (d + rest);
    assert IsDigit((d + rest)[0]);
    BlanksSkipped(blanks, d + rest);
    LeadingDigitsOf(d, rest);
    DecimalValue(n);
    if |d| > 31 {
      var m := DecimalPrefix(n, 31);
      DecimalValue(m);
      LongNumber(m, 31);
      LongNumber(n, |d|);
    }
  }

  /** A line without digits after the blanks says nothing, and still decides. */
  lemma NothingSaid(line: string, field: string, blanks: string, rest: string)
    requires line == field + blanks + rest && SpellsField(field) && Blanks(blanks)
    requires rest == "" || (rest[0] != ' ' && rest[0] != '\t' && !IsDigit(rest[0]))
    ensures StartsWithField(line) && IsLengthLine(line) && LengthValue(line) == None
  {
    assert |field| == 15;
    hide IsLengthLine, SpellsField, SkipBlanks;
    assert line[..15] == field;
    LengthLineMeans(line);
    assert line[15..] == blanks + rest;
    BlanksSkipped(blanks, rest);
  }

  // ---------------------------------------------------------------- whole frames

  lemma HeaderOf(lines: seq<string>, rest: string)
    requires lines != [] && forall l :: l in lines ==> HeaderLine(l)
    ensures var h := |Text(lines)| + 2;
            var s := Text(lines) + "\r\n" + rest;
            HeaderEnd(s) == Some(h) && Lines(s[..h], 0) == lines + [""]
  {
    hide FindFrom, Lines, Text, HeaderLine, Stands;
    var t := Text(lines) + "\r\n";
    PrefixStands(t, rest);
    assert TextAt(t + rest, 0, lines) && TextAt(t, 0, lines);
    hide TextAt;
    BlankLine(t + rest, 0, lines);
    LinesOfText(t, 0, lines);
  }

  lemma FrameText(before: seq<string>, line: string, after: seq<string>)
    ensures Text(before + [line] + after) == Text(before) + (line + "\r\n") + Text(after)
  {
    TextAppends(before + [line], after);
    TextAppends(before, [line]);
    assert [line][1..] == [];
    assert Text([line]) == line + "\r\n" + "";
  }

  lemma BodyAfter(header: string, rest: string, n: nat)
    requires n <= |rest|
    ensures (header + rest)[|header|..|header| + n] == rest[..n]
  {
  }

  lemma DecidedByLines(lines: seq<string>, rest: string)
    requires lines != [] && forall l :: l in lines ==> HeaderLine(l)
    ensures var header, n := Text(lines) + "\r\n", FirstLength(lines + [""]);
            NextFrame(header + rest) ==
            if !AcceptableLength(n) then Bad
            else if |rest| < n.value then Incomplete
            else Complete(CString(rest[..n.value]), |header| + n.value)
  {
    hide Text, Lines, HeaderEnd, FirstLength, CString, HeaderLine;
    HeaderOf(lines, rest);
    var header, n := Text(lines) + "\r\n", FirstLength(lines + [""]);
    if AcceptableLength(n) && |rest| >= n.value {
      BodyAfter(header, rest, n.value);
    }
  }

  /**
   A frame with any header lines around its Content-Length line, which may be spelled in any letter
   case, with any blanks before the number and anything but a digit after it. The number decides:
   out of range it makes the frame bad, otherwise it is the length of the body.
   */
  lemma FrameWithLength(before: seq<string>, field: string, blanks: string, n: nat, junk: string,
                        after: seq<string>, rest: string)
    requires forall l :: l in before ==> HeaderLine(l) && !StartsWithField(l)
    requires forall l :: l in after ==> HeaderLine(l)
    requires SpellsField(field) && Blanks(blanks) && (junk == "" || !IsDigit(junk[0]))
    requires HeaderLine(field + blanks + Decimal(n) + junk)
    ensures var header := Text(before) + (field + blanks + Decimal(n) + junk + "\r\n") + Text(after) + "\r\n";
            NextFrame(header + rest) ==
            if n < 1 || n > 10 * 1024 * 1024 then Bad
            else if |rest| < n then Incomplete
            else Complete(CString(rest[..n]), |header| + n)
  {
    hide Decimal, Text, LengthValue, IsLengthLine, CString, StartsWithField, HeaderLine, NextFrame, FirstLength,
         SpellsField;
    var line := field + blanks + Decimal(n) + junk;
    var lines := before + [line] + after;
    FrameText(before, line, after);
    DecidedByLines(lines, rest);
    LengthSaid(line, field, blanks, n, junk);
    FirstFieldLine(before, line, after + [""]);
    assert lines + [""] == before + [line] + (after + [""]);
  }

  /** A header without such a line is bad, whatever follows it. */
  lemma FrameWithoutLength(lines: seq<string>, rest: string)
    requires lines != [] && forall l :: l in lines ==> HeaderLine(l) && !StartsWithField(l)
    ensures NextFrame(Text(lines) + "\r\n" + rest) == Bad
  {
    hide Text, HeaderLine, NextFrame, FirstLength;
    DecidedByLines(lines, rest);
    assert forall l :: l in lines + [""] ==> !StartsWithField(l);
    hide StartsWithField;
    NoFieldLine(lines + [""]);
  }

  /** So is one whose first such line has no number, even if a later one has. */
  lemma FrameWithoutNumber(before: seq<string>, field: string, blanks: string, junk: string,
                           after: seq<string>, rest: string)
    requires forall l :: l in before ==> HeaderLine(l) && !StartsWithField(l)
    requires forall l :: l in after ==> HeaderLine(l)
    requires SpellsField(field) && Blanks(blanks)
    requires junk == "" || (junk[0] != ' ' && junk[0] != '\t' && !IsDigit(junk[0]))
    requires HeaderLine(field + blanks + junk)
    ensures NextFrame(Text(before) + (field + blanks + junk + "\r\n") + Text(after) + "\r\n" + rest) == Bad
  {
    hide Text, LengthValue, IsLengthLine, StartsWithField, HeaderLine, NextFrame, FirstLength, SpellsField;
    var line := field + blanks + junk;
    var lines := before + [line] + after;
    FrameText(before, line, after);
    DecidedByLines(lines, rest);
    NothingSaid(line, field, blanks, junk);
    FirstFieldLine(before, line, after + [""]);
    assert lines + [""] == before + [line] + (after + [""]);
  }
}
