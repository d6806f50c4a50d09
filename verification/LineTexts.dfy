/** Lines and the text of a file that holds them, as .NET reads and the launcher writes it. */
module LineTexts {

  type Lines = seq<string>

  /** `Environment.NewLine` of the platform. */
  datatype NewLine = Windows | Unix
  {
    function Text(): string {
      match this
      case Windows => "\r\n"
      case Unix => "\n"
    }
  }

  predicate IsBreak(c: char) {
    c == '\r' || c == '\n'
  }

  predicate IsOneLine(s: string) {
    forall c | c in s :: !IsBreak(c)
  }

  predicate AreLines(lines: Lines) {
    forall line | line in lines :: IsOneLine(line)
  }

  function BreakAt(text: string): (i: nat)
    ensures i <= |text|
    ensures i < |text| ==> IsBreak(text[i])
    ensures IsOneLine(text[..i])
  {
    if text == "" || IsBreak(text[0]) then 0 else 1 + BreakAt(text[1..])
  }

  /** `File.ReadAllLines`: a line ends at a carriage return, a line feed, or one followed by the
      other, and the end of the text ends no empty line. */
  function ReadLines(text: string): (lines: Lines)
    ensures AreLines(lines)
  {
    if text == "" then []
    else
      var i := BreakAt(text);
      if i == |text| then [text]
      else if text[i] == '\r' && i + 1 < |text| && text[i + 1] == '\n' then [text[..i]] + ReadLines(text[i + 2..])
      else [text[..i]] + ReadLines(text[i + 1..])
  }

  function Joined(lines: Lines, newLine: NewLine): string {
    if lines == [] then ""
    else if |lines| == 1 then lines[0]
    else lines[0] + newLine.Text() + Joined(lines[1..], newLine)
  }

  /** `WriteLines`: the lines, joined and closed by the platform's line break. */
  function WrittenText(lines: Lines, newLine: NewLine): string {
    Joined(lines, newLine) + newLine.Text()
  }

  lemma {:induction false} BreakComesFirst(line: string, rest: string)
    requires IsOneLine(line) && rest != "" && IsBreak(rest[0])
    ensures BreakAt(line + rest) == |line|
  {
    if line == "" {
      assert line + rest == rest;
    } else {
      assert (line + rest)[0] == line[0] && line[0] in line && (line + rest)[1..] == line[1..] + rest;
      assert forall c | c in line[1..] :: c in line;
      BreakComesFirst(line[1..], rest);
    }
  }

  lemma ReadsOneLine(line: string, newLine: NewLine, rest: string)
    requires IsOneLine(line)
    ensures ReadLines(line + newLine.Text() + rest) == [line] + ReadLines(rest)
  {
    var text := line + newLine.Text() + rest;
    assert text == line + (newLine.Text() + rest);
    BreakComesFirst(line, newLine.Text() + rest);
    assert text[..|line|] == line && text[|line|] == newLine.Text()[0];
    assert text[|line| + |newLine.Text()|..] == rest;
  }

  lemma {:induction false} WrittenReadsBack(lines: Lines, newLine: NewLine)
    requires lines != [] && AreLines(lines)
    ensures ReadLines(WrittenText(lines, newLine)) == lines
  {
    assert lines[0] in lines;
    if |lines| == 1 {
      ReadsOneLine(lines[0], newLine, "");
      assert lines[0] + newLine.Text() + "" == WrittenText(lines, newLine);
    } else {
      assert forall line | line in lines[1..] :: line in lines;
      WrittenReadsBack(lines[1..], newLine);
      ReadsOneLine(lines[0], newLine, WrittenText(lines[1..], newLine));
      assert WrittenText(lines, newLine) == lines[0] + newLine.Text() + WrittenText(lines[1..], newLine);
    }
  }

  /** Lines that are written come back as they were, on either platform, if and only if there are
      any and none holds a line break. */
  lemma ReadsBackExactly(lines: Lines, newLine: NewLine)
    ensures ReadLines(WrittenText(lines, newLine)) == lines <==> lines != [] && AreLines(lines)
  {
    if lines == [] {
      ReadsOneLine("", newLine, "");
      assert WrittenText(lines, newLine) == "" + newLine.Text() + "";
    } else if AreLines(lines) {
      WrittenReadsBack(lines, newLine);
    }
  }
}
