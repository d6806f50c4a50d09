/** The text level of the launcher's TOML editor: comments, quoting and unquoting. */
module TomlText {
  import opened Wrappers
  import opened Texts

  // ---- Comments ----

  /** Where the scanner stands: inside which quotes, and whether a backslash has just been read. */
  datatype Scan = Scan(inSingle: bool, inDouble: bool, escaped: bool)
  {
    predicate Outside() { !inSingle && !inDouble }

    function After(c: char): Scan {
      if inDouble && c == '\\' && !escaped then this.(escaped := true)
      else if c == '\'' && !inDouble then Scan(!inSingle, inDouble, false)
      else if c == '\"' && !inSingle && !escaped then Scan(inSingle, !inDouble, false)
      else this.(escaped := false)
    }

    function AfterAll(text: string): Scan
      decreases |text|
    {
      if text == "" then this else After(text[0]).AfterAll(text[1..])
    }
  }

  const START := Scan(false, false, false)

  /** The position of the first `#` outside quotes, or the length of the text. */
  function CommentAt(scan: Scan, text: string): (i: nat)
    ensures i <= |text|
    decreases |text|
  {
    if text == "" || (text[0] == '#' && scan.Outside()) then 0
    else 1 + CommentAt(scan.After(text[0]), text[1..])
  }

  function WithoutComment(line: string): string {
    line[..CommentAt(START, line)]
  }

  lemma {:induction false} AfterAllConcat(scan: Scan, a: string, b: string)
    ensures scan.AfterAll(a + b) == scan.AfterAll(a).AfterAll(b)
    decreases |a|
  {
    if a == "" {
      assert a + b == b;
    } else {
      assert (a + b)[0] == a[0] && (a + b)[1..] == a[1..] + b;
      AfterAllConcat(scan.After(a[0]), a[1..], b);
    }
  }

  method RemoveComment(line: string) returns (r: string)
    ensures r == WithoutComment(line)
  {
    var scan := START;
    var index := 0;
    while index < |line|
      invariant 0 <= index <= |line|
      invariant CommentAt(START, line) == index + CommentAt(scan, line[index..])
    {
      var character := line[index];
      if character == '#' && scan.Outside() {
        return line[..index];
      }
      scan := scan.After(character);
      assert line[index..][1..] == line[index + 1..];
      index := index + 1;
    }
    r := line;
  }

  /** What is cut off begins with a `#` outside quotes, and nothing that is kept does. */
  lemma {:induction false} CommentIsFirstHash(scan: Scan, text: string, k: nat)
    requires k <= |text|
    ensures k < CommentAt(scan, text) ==> !(text[k] == '#' && scan.AfterAll(text[..k]).Outside())
    ensures k == CommentAt(scan, text) < |text| ==> text[k] == '#' && scan.AfterAll(text[..k]).Outside()
    decreases |text|
  {
    if k > 0 {
      assert text[..k][0] == text[0] && text[..k][1..] == text[1..][..k - 1];
      CommentIsFirstHash(scan.After(text[0]), text[1..], k - 1);
    }
  }

  lemma {:induction false} CommentAtPrefix(scan: Scan, text: string, k: nat)
    requires k <= CommentAt(scan, text)
    ensures CommentAt(scan, text[..k]) == k
    decreases |text|
  {
    if k > 0 {
      assert text[..k][0] == text[0] && text[..k][1..] == text[1..][..k - 1];
      CommentAtPrefix(scan.After(text[0]), text[1..], k - 1);
    }
  }

  lemma RemoveCommentIsIdempotent(line: string)
    ensures WithoutComment(WithoutComment(line)) == WithoutComment(line)
  {
    CommentAtPrefix(START, line, CommentAt(START, line));
  }

  lemma {:induction false} CommentAtConcat(scan: Scan, a: string, b: string)
    requires CommentAt(scan, a) == |a|
    ensures CommentAt(scan, a + b) == |a| + CommentAt(scan.AfterAll(a), b)
    decreases |a|
  {
    if a == "" {
      assert a + b == b;
    } else {
      assert (a + b)[0] == a[0] && (a + b)[1..] == a[1..] + b;
      CommentAtConcat(scan.After(a[0]), a[1..], b);
    }
  }

  lemma {:induction false} PlainHoldsNoComment(scan: Scan, text: string)
    requires !scan.inDouble && !scan.escaped && forall c | c in text :: c != '\'' && (scan.inSingle || (c != '\"' && c != '#'))
    ensures CommentAt(scan, text) == |text| && scan.AfterAll(text) == scan
  {
    if text != "" {
      assert text[0] in text && forall c | c in text[1..] :: c in text;
      PlainHoldsNoComment(scan, text[1..]);
    }
  }

  /** Text without quotes and hashes opens nothing, and neither does a literal between single quotes,
      whatever backslashes, double quotes and hashes it holds. */
  lemma LiteralHoldsNoComment(plain: string, body: string)
    ensures (forall c | c in plain :: c != '\'' && c != '\"' && c != '#') ==>
              CommentAt(START, plain) == |plain| && START.AfterAll(plain) == START
    ensures '\'' !in body ==>
              && CommentAt(START, "\'" + body + "\'") == |body| + 2
              && START.AfterAll("\'" + body + "\'") == START
  {
    if forall c | c in plain :: c != '\'' && c != '\"' && c != '#' { PlainHoldsNoComment(START, plain); }
    if '\'' !in body {
      var inside := Scan(true, false, false);
      PlainHoldsNoComment(inside, body);
      assert CommentAt(START, "\'") == 1 && START.AfterAll("\'") == inside by { assert "\'"[1..] == ""; }
      assert CommentAt(inside, "\'") == 1 && inside.AfterAll("\'") == START by { assert "\'"[1..] == ""; }
      CommentAtConcat(START, "\'", body);
      AfterAllConcat(START, "\'", body);
      CommentAtConcat(START, "\'" + body, "\'");
      AfterAllConcat(START, "\'" + body, "\'");
    }
  }

  // ---- Trimming ----

  function TrimStart(s: string): string {
    if s != "" && IsWhiteSpace(s[0]) then TrimStart(s[1..]) else s
  }

  function TrimEnd(s: string): string {
    if s != "" && IsWhiteSpace(s[|s| - 1]) then TrimEnd(s[..|s| - 1]) else s
  }

  function Trim(s: string): string {
    TrimEnd(TrimStart(s))
  }

  // ---- Quoting ----

  function Replaced(s: string, c: char, with: string): string {
    if s == "" then "" else (if s[0] == c then with else [s[0]]) + Replaced(s[1..], c, with)
  }

  function QuoteToml(value: string): string {
    "\"" + Replaced(Replaced(value, '\\', "\\\\"), '\"', "\\\"") + "\""
  }

  function EscapedCharacter(c: char): string {
    if c == '\\' || c == '\"' then ['\\', c] else [c]
  }

  function Escaped(value: string): string {
    if value == "" then "" else EscapedCharacter(value[0]) + Escaped(value[1..])
  }

  lemma {:induction false} ReplacedConcat(a: string, b: string, c: char, with: string)
    ensures Replaced(a + b, c, with) == Replaced(a, c, with) + Replaced(b, c, with)
  {
    if a == "" {
      assert a + b == b;
    } else {
      assert (a + b)[0] == a[0] && (a + b)[1..] == a[1..] + b;
      ReplacedConcat(a[1..], b, c, with);
    }
  }

  /** Replacing backslashes first and quotes second escapes every character once. */
  lemma {:induction false} TwoPassesEscapeOnce(value: string)
    ensures Replaced(Replaced(value, '\\', "\\\\"), '\"', "\\\"") == Escaped(value)
  {
    if value != "" {
      var first := if value[0] == '\\' then "\\\\" else [value[0]];
      var rest := Replaced(value[1..], '\\', "\\\\");
      ReplacedConcat(first, rest, '\"', "\\\"");
      TwoPassesEscapeOnce(value[1..]);
      assert first[1..] == if value[0] == '\\' then "\\" else "";
      assert Replaced(first, '\"', "\\\"") == EscapedCharacter(value[0]);
    }
  }

  function Unescaped(body: string): string {
    if body == "" then ""
    else if body[0] == '\\' && |body| > 1 then [body[1]] + Unescaped(body[2..])
    else [body[0]] + Unescaped(body[1..])
  }

  /** The text of a TOML string literal, or nothing for any other literal. */
  function Unquoted(value: string): Option<string> {
    if |value| < 2 then None
    else if value[0] == '\'' && value[|value| - 1] == '\'' then Some(value[1..|value| - 1])
    else if value[0] != '\"' || value[|value| - 1] != '\"' then None
    else Some(Unescaped(value[1..|value| - 1]))
  }

  /** One round of the loop of `TryUnquoteToml`, which never reads the closing quote. */
  lemma UnescapedFrom(value: string, index: nat)
    requires index < |value| - 1
    ensures var pair := value[index] == '\\' && index + 1 < |value| - 1;
            var next := if pair then index + 1 else index;
            Unescaped(value[index..|value| - 1]) == [value[next]] + Unescaped(value[next + 1..|value| - 1])
  {
  }

  lemma NothingUnescaped()
    ensures Unescaped("") == ""
  {
  }

  method TryUnquoteToml(value: string) returns (r: Option<string>)
    ensures r == Unquoted(value)
  {
    hide Unescaped;
    if |value| < 2 { return None; }
    if value[0] == '\'' && value[|value| - 1] == '\'' { return Some(value[1..|value| - 1]); }
    if value[0] != '\"' || value[|value| - 1] != '\"' { return None; }
    var builder := "";
    var index := 1;
    while index < |value| - 1
      invariant 1 <= index <= |value| - 1
      invariant Unescaped(value[1..|value| - 1]) == builder + Unescaped(value[index..|value| - 1])
    {
      UnescapedFrom(value, index);
      if value[index] == '\\' && index + 1 < |value| - 1 {
        index := index + 1;
      }
      builder := builder + [value[index]];
      index := index + 1;
    }
    assert value[index..|value| - 1] == "" && builder + "" == builder;
    NothingUnescaped();
    return Some(builder);
  }

  lemma {:induction false} UnescapedEscaped(value: string)
    ensures Unescaped(Escaped(value)) == value
  {
    if value != "" {
      var head, tail := EscapedCharacter(value[0]), Escaped(value[1..]);
      UnescapedEscaped(value[1..]);
      assert (head + tail)[0] == head[0] && (head + tail)[|head|..] == tail;
    }
  }

  /** Quoting loses nothing, whatever quotes, backslashes and hashes the value holds. */
  lemma UnquotedQuoted(value: string)
    ensures Unquoted(QuoteToml(value)) == Some(value)
  {
    TwoPassesEscapeOnce(value);
    UnescapedEscaped(value);
    var quoted := QuoteToml(value);
    assert quoted[1..|quoted| - 1] == Escaped(value);
  }

  lemma {:induction false} UnescapedVerbatim(body: string)
    requires '\\' !in body
    ensures Unescaped(body) == body
  {
    if body != "" {
      UnescapedVerbatim(body[1..]);
    }
  }

  /** What is read as a string: text between two single quotes, which comes back as it stands, or
      between two double quotes, where only a backslash changes anything. Nothing else is. */
  lemma LiteralStrings(text: string, value: string)
    ensures Unquoted("\'" + text + "\'") == Some(text)
    ensures '\\' !in text ==> Unquoted("\"" + text + "\"") == Some(text)
    ensures Unquoted(value).Some? <==>
            |value| >= 2 && value[0] == value[|value| - 1] && (value[0] == '\'' || value[0] == '\"')
  {
    var single, double := "\'" + text + "\'", "\"" + text + "\"";
    assert single[1..|single| - 1] == text && double[1..|double| - 1] == text;
    if '\\' !in text { UnescapedVerbatim(text); }
  }

  lemma {:induction false} EscapedStaysInside(value: string)
    ensures var inside := Scan(false, true, false);
            CommentAt(inside, Escaped(value)) == |Escaped(value)| && inside.AfterAll(Escaped(value)) == inside
  {
    if value != "" {
      var inside := Scan(false, true, false);
      var head, tail := EscapedCharacter(value[0]), Escaped(value[1..]);
      EscapedStaysInside(value[1..]);
      EscapedCharacterStaysInside(value[0]);
      CommentAtConcat(inside, head, tail);
      AfterAllConcat(inside, head, tail);
    }
  }

  lemma EscapedCharacterStaysInside(c: char)
    ensures var inside := Scan(false, true, false);
            CommentAt(inside, EscapedCharacter(c)) == |EscapedCharacter(c)|
            && inside.AfterAll(EscapedCharacter(c)) == inside
  {
    var inside := Scan(false, true, false);
    if c == '\\' || c == '\"' {
      var open := Scan(false, true, true);
      assert EscapedCharacter(c)[1..] == [c] && [c][1..] == "";
      assert inside.After('\\') == open && open.AfterAll([c]) == inside && CommentAt(open, [c]) == 1;
    } else {
      assert [c][1..] == "";
    }
  }

  /** A quoted value never opens a comment, and leaves the scanner outside every quote. */
  lemma QuotedHoldsNoComment(value: string)
    ensures CommentAt(START, QuoteToml(value)) == |QuoteToml(value)|
    ensures START.AfterAll(QuoteToml(value)) == START
  {
    TwoPassesEscapeOnce(value);
    EscapedStaysInside(value);
    var inside := Scan(false, true, false);
    assert CommentAt(START, "\"") == 1 && START.AfterAll("\"") == inside by { assert "\""[1..] == ""; }
    assert CommentAt(inside, "\"") == 1 && inside.AfterAll("\"") == START by { assert "\""[1..] == ""; }
    CommentAtConcat(START, "\"", Escaped(value));
    AfterAllConcat(START, "\"", Escaped(value));
    CommentAtConcat(START, "\"" + Escaped(value), "\"");
    AfterAllConcat(START, "\"" + Escaped(value), "\"");
  }
}
