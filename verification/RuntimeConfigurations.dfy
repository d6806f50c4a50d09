/** The line-preserving editor of `Config.toml`, on the lines of the file. */
module RuntimeConfigurations {
  import opened LineTexts
  import opened Texts
  import opened TomlText
  import opened Wrappers

  // ---- One line ----

  /** A name that TOML lets stand without quotes. Every section and key the launcher edits is one. */
  predicate IsBareName(s: string) {
    s != "" && forall c | c in s :: 'a' <= c <= 'z' || 'A' <= c <= 'Z' || '0' <= c <= '9' || c == '_' || c == '-'
  }

  type Name = s: string | IsBareName(s) witness "paths"

  function Content(line: string): string {
    Trim(WithoutComment(line))
  }

  predicate IsSection(content: string) {
    |content| >= 2 && content[0] == '[' && content[|content| - 1] == ']'
  }

  function Header(section: string): string {
    "[" + section + "]"
  }

  function Setting(key: string, value: string): string {
    key + " = " + value
  }

  function EqualsAt(s: string): (i: nat)
    ensures i <= |s|
    ensures i < |s| ==> s[i] == '='
    ensures forall k | 0 <= k < i :: s[k] != '='
  {
    if s == "" || s[0] == '=' then 0 else 1 + EqualsAt(s[1..])
  }

  predicate IsHeader(line: string) {
    IsSection(Content(line))
  }

  predicate IsHeaderOf(line: string, section: string) {
    Content(line) == Header(section)
  }

  /** The line assigns `key`, whatever section it is in. */
  predicate Assigns(line: string, key: string) {
    var content := Content(line);
    EqualsAt(content) < |content| && Trim(content[..EqualsAt(content)]) == key
  }

  function ValueOf(line: string): string
    requires EqualsAt(Content(line)) < |Content(line)|
  {
    Trim(Content(line)[EqualsAt(Content(line)) + 1..])
  }

  // ---- Reading ----

  predicate InSectionAfter(lines: Lines, section: string, inSection: bool) {
    if lines == [] then inSection
    else InSectionAfter(lines[1..], section, if IsHeader(lines[0]) then IsHeaderOf(lines[0], section) else inSection)
  }

  /** The line that decides `key` of `section`: the first that assigns it in any block of the
      section. The number of lines when there is none. */
  function Deciding(lines: Lines, section: string, key: string, inSection: bool): (i: nat)
    ensures i <= |lines|
    ensures i < |lines| ==> Assigns(lines[i], key) && !IsHeader(lines[i])
  {
    if lines == [] then 0
    else if IsHeader(lines[0]) then 1 + Deciding(lines[1..], section, key, IsHeaderOf(lines[0], section))
    else if inSection && Assigns(lines[0], key) then 0
    else 1 + Deciding(lines[1..], section, key, inSection)
  }

  function RawValue(lines: Lines, section: string, key: string): Option<string> {
    var i := Deciding(lines, section, key, false);
    if i < |lines| then Some(ValueOf(lines[i])) else None
  }

  // ---- Writing ----

  function FirstHeaderOf(lines: Lines, section: string, from: nat): (i: nat)
    requires from <= |lines|
    ensures from <= i <= |lines|
    ensures i < |lines| ==> IsHeaderOf(lines[i], section)
    ensures forall k | from <= k < i :: !IsHeaderOf(lines[k], section)
    decreases |lines| - from
  {
    if from == |lines| || IsHeaderOf(lines[from], section) then from else FirstHeaderOf(lines, section, from + 1)
  }

  function FirstHeader(lines: Lines, from: nat): (i: nat)
    requires from <= |lines|
    ensures from <= i <= |lines|
    ensures i < |lines| ==> IsHeader(lines[i])
    ensures forall k | from <= k < i :: !IsHeader(lines[k])
    decreases |lines| - from
  {
    if from == |lines| || IsHeader(lines[from]) then from else FirstHeader(lines, from + 1)
  }

  function FirstAssignment(lines: Lines, key: string, from: nat, end: nat): (i: nat)
    requires from <= end <= |lines|
    ensures from <= i <= end
    ensures i < end ==> Assigns(lines[i], key)
    ensures forall k | from <= k < i :: !Assigns(lines[k], key)
    decreases end - from
  {
    if from == end || Assigns(lines[from], key) then from else FirstAssignment(lines, key, from + 1, end)
  }

  /** The end of a block without the blank lines that separate it from the next header. */
  function ContentEnd(lines: Lines, start: nat, end: nat): (i: nat)
    requires start <= end <= |lines|
    ensures start <= i <= end
  {
    if start < end && Trim(lines[end - 1]) == "" then ContentEnd(lines, start, end - 1) else end
  }

  /** The block that an edit of `section` touches: its first header and the end of that block. */
  function FirstBlock(lines: Lines, section: string): (block: Option<(nat, nat)>)
    ensures block.Some? ==> block.value.0 < block.value.1 <= |lines|
  {
    var start := FirstHeaderOf(lines, section, 0);
    if start == |lines| then None else Some((start, FirstHeader(lines, start + 1)))
  }

  function WithNewSection(lines: Lines, section: string, key: string, value: string): Lines {
    lines + (if lines != [] && lines[|lines| - 1] != "" then [""] else []) + [Header(section), Setting(key, value)]
  }

  /** `line` in place of the `removed` lines from `i` on. */
  function Spliced(lines: Lines, i: nat, removed: nat, line: string): Lines
    requires i + removed <= |lines|
  {
    lines[..i] + [line] + lines[i + removed..]
  }

  predicate BlockAssigns(lines: Lines, block: (nat, nat), key: string)
    requires block.0 < block.1 <= |lines|
  {
    FirstAssignment(lines, key, block.0 + 1, block.1) < block.1
  }

  /** The place of an edit inside a block: the first assignment of the key, else the block's end. */
  function EditAt(lines: Lines, block: (nat, nat), key: string): (i: nat)
    requires block.0 < block.1 <= |lines|
    ensures block.0 < i <= block.1
    ensures BlockAssigns(lines, block, key) ==> i < block.1
  {
    if BlockAssigns(lines, block, key) then FirstAssignment(lines, key, block.0 + 1, block.1)
    else ContentEnd(lines, block.0 + 1, block.1)
  }

  /** How many lines the edit replaces. */
  function CutCount(lines: Lines, block: (nat, nat), key: string): (n: nat)
    requires block.0 < block.1 <= |lines|
    ensures EditAt(lines, block, key) + n <= |lines|
  {
    if BlockAssigns(lines, block, key) then 1 else 0
  }

  function WithSetting(lines: Lines, section: string, key: string, value: string): Lines {
    var block := FirstBlock(lines, section);
    if block.None? then WithNewSection(lines, section, key, value)
    else Spliced(lines, EditAt(lines, block.value, key), CutCount(lines, block.value, key), Setting(key, value))
  }

  const PATHS := "paths"

  /** `owns` decides by the path that the stored text resolves to. */
  function WithoutOwned(lines: Lines, key: string, owns: string -> bool): Lines {
    var i := Deciding(lines, PATHS, key, false);
    if i < |lines| && Unquoted(ValueOf(lines[i])).Some? && owns(Unquoted(ValueOf(lines[i])).value)
    then lines[..i] + lines[i + 1..]
    else lines
  }

  const DEFAULT_LINES: Lines := ["# WiiCompiled user configuration", "", "[paths]"]

  // ---- The file ----

  /** The scan that reading and removing share. */
  method FindDeciding(all: Lines, section: string, key: string) returns (index: nat)
    ensures index == Deciding(all, section, key, false)
  {
    var inSection := false;
    index := 0;
    while index < |all|
      invariant 0 <= index <= |all|
      invariant Deciding(all, section, key, false) == index + Deciding(all[index..], section, key, inSection)
    {
      assert all[index..][0] == all[index] && all[index..][1..] == all[index + 1..];
      var uncommented := RemoveComment(all[index]);
      var trimmed := Trim(uncommented);
      if IsSection(trimmed) {
        inSection := trimmed == Header(section);
      } else if inSection && trimmed != "" {
        var at := EqualsAt(trimmed);
        if at < |trimmed| && Trim(trimmed[..at]) == key { return; }
      }
      index := index + 1;
    }
  }

  /** The first block of a section; `start` is -1 when there is none. */
  method FindBlock(all: Lines, section: string) returns (start: int, end: nat)
    ensures if start < 0 then FirstBlock(all, section).None? else FirstBlock(all, section) == Some((start, end))
  {
    var header := Header(section);
    var index := 0;
    start, end := -1, |all|;
    while index < |all|
      invariant 0 <= index <= |all| && -1 <= start < index && end == |all|
      invariant start < 0 ==> FirstHeaderOf(all, section, 0) == FirstHeaderOf(all, section, index)
      invariant start >= 0 ==> start == FirstHeaderOf(all, section, 0) && FirstHeader(all, start + 1) == FirstHeader(all, index)
    {
      var uncommented := RemoveComment(all[index]);
      var trimmed := Trim(uncommented);
      if IsSection(trimmed) {
        if start >= 0 {
          end := index;
          return;
        }
        if trimmed == header { start := index; }
      }
      index := index + 1;
    }
  }

  method FindAssignment(all: Lines, key: string, start: nat, end: nat) returns (index: nat)
    requires start <= end <= |all|
    ensures index == FirstAssignment(all, key, start, end)
  {
    index := start;
    while index < end
      invariant start <= index <= end
      invariant FirstAssignment(all, key, start, end) == FirstAssignment(all, key, index, end)
    {
      var uncommented := RemoveComment(all[index]);
      var trimmed := Trim(uncommented);
      var at := EqualsAt(trimmed);
      if at < |trimmed| && Trim(trimmed[..at]) == key { return; }
      index := index + 1;
    }
  }

  /** Appends after the section's last real line, not after the blank line before the next header. */
  method FindContentEnd(all: Lines, start: nat, end: nat) returns (insertAt: nat)
    requires start <= end <= |all|
    ensures insertAt == ContentEnd(all, start, end)
  {
    insertAt := end;
    while insertAt > start && Trim(all[insertAt - 1]) == ""
      invariant start <= insertAt <= end
      invariant ContentEnd(all, start, end) == ContentEnd(all, start, insertAt)
    {
      insertAt := insertAt - 1;
    }
  }

  method SetInBlock(all: Lines, block: (nat, nat), key: string, value: string) returns (r: Lines)
    requires block.0 < block.1 <= |all|
    ensures r == Spliced(all, EditAt(all, block, key), CutCount(all, block, key), Setting(key, value))
  {
    hide Content, Assigns, Setting, FirstAssignment, ContentEnd;
    var index := FindAssignment(all, key, block.0 + 1, block.1);
    if index < block.1 {
      r := all[index := Setting(key, value)];
      assert r == Spliced(all, index, 1, Setting(key, value));
    } else {
      var insertAt := FindContentEnd(all, block.0 + 1, block.1);
      r := all[..insertAt] + [Setting(key, value)] + all[insertAt..];
    }
  }

  /** Replaces or adds one setting. */
  method SetSectionValue(lines: Lines, section: string, key: string, value: string) returns (r: Lines)
    ensures r == WithSetting(lines, section, key, value)
  {
    var start, end := FindBlock(lines, section);
    if start < 0 {
      var separator := if lines != [] && lines[|lines| - 1] != "" then [""] else [];
      return lines + separator + [Header(section), Setting(key, value)];
    }
    r := SetInBlock(lines, (start, end), key, value);
  }

  // ---- The line that is written ----

  lemma TrimKeeps(s: string)
    requires s == "" || (!IsWhiteSpace(s[0]) && !IsWhiteSpace(s[|s| - 1]))
    ensures Trim(s) == s
  {
  }

  lemma {:induction false} PlainTextHoldsNoComment(text: string)
    requires forall c | c in text :: c != '#' && c != '\'' && c != '\"' && c != '\\'
    ensures CommentAt(START, text) == |text| && START.AfterAll(text) == START
  {
    if text != "" {
      assert text[0] in text && forall c | c in text[1..] :: c in text;
      assert START.After(text[0]) == START;
      PlainTextHoldsNoComment(text[1..]);
    }
  }

  lemma NameHoldsNothingSpecial(key: Name)
    ensures forall c | c in key :: !IsWhiteSpace(c) && c != '#' && c != '\'' && c != '\"' && c != '\\' && c != '=' && c != '['
  {
  }

  lemma SettingContent(key: Name, text: string)
    ensures var line := Setting(key, QuoteToml(text)); Content(line) == line && !IsHeader(line)
  {
    var quoted := QuoteToml(text);
    var line := Setting(key, quoted);
    NameHoldsNothingSpecial(key);
    PlainTextHoldsNoComment(key + " = ");
    QuotedHoldsNoComment(text);
    CommentAtConcat(START, key + " = ", quoted);
    assert key[0] in key && line[0] == key[0];
    assert line[|line| - 1] == '\"';
    TrimKeeps(line);
  }

  lemma {:induction false} EqualsAfter(key: string, rest: string)
    requires forall c | c in key :: c != '='
    ensures EqualsAt(key + "=" + rest) == |key|
  {
    var s := key + "=" + rest;
    if key != "" {
      assert key[0] in key && forall c | c in key[1..] :: c in key;
      assert s[0] == key[0] && s[1..] == key[1..] + "=" + rest;
      EqualsAfter(key[1..], rest);
    }
  }

  /** The line written for a key assigns that key and no other, and reads back as the literal. */
  lemma SettingReadsBack(key: Name, text: string, other: string)
    ensures var line := Setting(key, QuoteToml(text));
            && !IsHeader(line)
            && (Assigns(line, other) <==> other == key)
            && EqualsAt(Content(line)) < |Content(line)| && ValueOf(line) == QuoteToml(text)
  {
    hide Trim;
    var quoted := QuoteToml(text);
    var line := Setting(key, quoted);
    SettingContent(key, text);
    NameHoldsNothingSpecial(key);
    assert line == (key + " ") + "=" + (" " + quoted);
    EqualsAfter(key + " ", " " + quoted);
    var at := EqualsAt(line);
    assert line[..at] == key + " " && line[at + 1..] == " " + quoted;
    KeyTrims(key);
    QuotedTrims(text);
  }

  lemma KeyTrims(key: Name)
    ensures Trim(key + " ") == key
  {
    NameHoldsNothingSpecial(key);
    assert key[0] in key && key[|key| - 1] in key;
    assert TrimEnd(key + " ") == TrimEnd(key) by { assert (key + " ")[..|key|] == key; }
    TrimKeeps(key);
  }

  lemma QuotedTrims(text: string)
    ensures Trim(" " + QuoteToml(text)) == QuoteToml(text)
  {
    assert (" " + QuoteToml(text))[1..] == QuoteToml(text);
    TrimKeeps(QuoteToml(text));
  }

  // ---- Reading around an edit ----

  lemma {:induction false} DecidingConcat(a: Lines, b: Lines, section: string, key: string, inSection: bool)
    ensures InSectionAfter(a + b, section, inSection) == InSectionAfter(b, section, InSectionAfter(a, section, inSection))
    ensures Deciding(a + b, section, key, inSection) ==
            (if Deciding(a, section, key, inSection) < |a| then Deciding(a, section, key, inSection)
             else |a| + Deciding(b, section, key, InSectionAfter(a, section, inSection)))
  {
    if a == [] {
      assert a + b == b;
    } else {
      assert (a + b)[0] == a[0] && (a + b)[1..] == a[1..] + b;
      DecidingConcat(a[1..], b, section, key, if IsHeader(a[0]) then IsHeaderOf(a[0], section) else inSection);
    }
  }

  predicate NoHeaders(lines: Lines) {
    forall line | line in lines :: !IsHeader(line)
  }

  predicate NoAssignments(lines: Lines, key: string) {
    forall line | line in lines :: !Assigns(line, key)
  }

  lemma {:induction false} SkipsHeaderless(lines: Lines, section: string, key: string, inSection: bool)
    requires NoHeaders(lines)
    ensures InSectionAfter(lines, section, inSection) == inSection
    ensures !inSection || NoAssignments(lines, key) ==> Deciding(lines, section, key, inSection) == |lines|
  {
    if lines != [] {
      assert lines[0] in lines && forall line | line in lines[1..] :: line in lines;
      SkipsHeaderless(lines[1..], section, key, inSection);
    }
  }

  lemma {:induction false} SkipsOtherSections(lines: Lines, section: string, key: string)
    requires forall line | line in lines :: !IsHeaderOf(line, section)
    ensures !InSectionAfter(lines, section, false)
    ensures Deciding(lines, section, key, false) == |lines|
  {
    if lines != [] {
      assert lines[0] in lines && forall line | line in lines[1..] :: line in lines;
      SkipsOtherSections(lines[1..], section, key);
    }
  }

  lemma LookupAround(before: Lines, mid: Lines, after: Lines, section: string, key: string)
    requires NoHeaders(mid) && (InSectionAfter(before, section, false) ==> NoAssignments(mid, key))
    ensures Deciding(before + mid + after, section, key, false) ==
            (if Deciding(before, section, key, false) < |before| then Deciding(before, section, key, false)
             else |before| + |mid| + Deciding(after, section, key, InSectionAfter(before, section, false)))
  {
    hide Content;
    DecidingConcat(before, mid, section, key, false);
    SkipsHeaderless(mid, section, key, InSectionAfter(before, section, false));
    DecidingConcat(before + mid, after, section, key, false);
  }

  /** Replacing some header-free lines by others changes no lookup that neither decides. */
  lemma EditKeepsLookup(before: Lines, cut: Lines, put: Lines, after: Lines, section: string, key: string)
    requires NoHeaders(cut) && NoHeaders(put)
    requires InSectionAfter(before, section, false) ==> NoAssignments(cut, key) && NoAssignments(put, key)
    ensures RawValue(before + put + after, section, key) == RawValue(before + cut + after, section, key)
  {
    hide Content;
    LookupAround(before, cut, after, section, key);
    LookupAround(before, put, after, section, key);
  }

  // ---- Setting a value ----

  lemma SectionsDiffer(a: string, b: string)
    ensures Header(a) == Header(b) <==> a == b
  {
    assert Header(a)[1..|Header(a)| - 1] == a && Header(b)[1..|Header(b)| - 1] == b;
  }

  lemma AfterHeader(head: Lines, header: string, body: Lines, section: string, key: string, other: string)
    requires (forall line | line in head :: !IsHeaderOf(line, section)) && IsHeaderOf(header, section)
    requires NoHeaders(body) && NoAssignments(body, key)
    ensures var before := head + ([header] + body);
            && (InSectionAfter(before, other, false) <==> other == section)
            && Deciding(before, section, key, false) == |before|
  {
    hide Content;
    SkipsOtherSections(head, section, key);
    SectionsDiffer(section, other);
    DecidingConcat(head, [header] + body, section, key, false);
    DecidingConcat(head, [header] + body, other, key, false);
    assert ([header] + body)[1..] == body;
    SkipsHeaderless(body, section, key, true);
    SkipsHeaderless(body, other, key, other == section);
  }

  lemma BlockBody(lines: Lines, section: string, key: string)
    requires FirstBlock(lines, section).Some?
    ensures var block := FirstBlock(lines, section).value;
            var body := lines[block.0 + 1..EditAt(lines, block, key)];
            && (forall line | line in lines[..block.0] :: !IsHeaderOf(line, section))
            && IsHeaderOf(lines[block.0], section)
            && NoHeaders(body) && NoAssignments(body, key)
  {
    hide Content;
    var block := FirstBlock(lines, section).value;
    var body := lines[block.0 + 1..EditAt(lines, block, key)];
    forall k | 0 <= k < |body|
      ensures !IsHeader(body[k]) && !Assigns(body[k], key)
    {
      assert body[k] == lines[block.0 + 1 + k];
    }
  }

  lemma SplitsAt(lines: Lines, a: nat, i: nat)
    requires a < i <= |lines|
    ensures lines[..i] == lines[..a] + ([lines[a]] + lines[a + 1..i])
  {
  }

  /** Everything from the header of the first block to the edit belongs to the section and does
      not assign the key. */
  lemma BeforeEdit(lines: Lines, section: string, key: string, other: string)
    requires FirstBlock(lines, section).Some?
    ensures var before := lines[..EditAt(lines, FirstBlock(lines, section).value, key)];
            && (InSectionAfter(before, other, false) <==> other == section)
            && Deciding(before, section, key, false) == |before|
  {
    hide Content;
    var block := FirstBlock(lines, section).value;
    var i := EditAt(lines, block, key);
    var head, body := lines[..block.0], lines[block.0 + 1..i];
    SplitsAt(lines, block.0, i);
    BlockBody(lines, section, key);
    AfterHeader(head, lines[block.0], body, section, key, other);
  }

  lemma DecidedByLine(before: Lines, line: string, after: Lines, section: string, key: string)
    requires InSectionAfter(before, section, false) && Deciding(before, section, key, false) == |before|
    requires !IsHeader(line) && Assigns(line, key)
    ensures Deciding(before + [line] + after, section, key, false) == |before|
  {
    hide Content, Assigns, IsHeader;
    assert before + [line] + after == before + ([line] + after);
    DecidingConcat(before, [line] + after, section, key, false);
  }

  lemma EditSplits(lines: Lines, block: (nat, nat), key: string)
    requires block.0 < block.1 <= |lines| && forall k | block.0 < k < block.1 :: !IsHeader(lines[k])
    ensures var i, n := EditAt(lines, block, key), CutCount(lines, block, key);
            lines == lines[..i] + lines[i..i + n] + lines[i + n..] && NoHeaders(lines[i..i + n])
    ensures BlockAssigns(lines, block, key) ==>
              lines[EditAt(lines, block, key)..EditAt(lines, block, key) + CutCount(lines, block, key)]
              == [lines[EditAt(lines, block, key)]]
  {
    hide Content;
  }

  /** A value that was set is the value that is read, even when the section has several headers. */
  lemma SetThenGet(lines: Lines, section: Name, key: Name, text: string)
    ensures RawValue(WithSetting(lines, section, key, QuoteToml(text)), section, key) == Some(QuoteToml(text))
  {
    hide Content, Setting, QuoteToml, Assigns, IsHeader, ValueOf, FirstBlock, EditAt, CutCount, BlockAssigns;
    var quoted := QuoteToml(text);
    var line := Setting(key, quoted);
    SettingReadsBack(key, text, key);
    if FirstBlock(lines, section).Some? {
      var block := FirstBlock(lines, section).value;
      var i, n := EditAt(lines, block, key), CutCount(lines, block, key);
      BeforeEdit(lines, section, key, section);
      DecidedByLine(lines[..i], line, lines[i + n..], section, key);
    } else {
      AppendedSection(lines, section, key, text);
    }
  }

  lemma HeaderContent(section: Name)
    ensures Content(Header(section)) == Header(section)
  {
    NameHoldsNothingSpecial(section);
    PlainTextHoldsNoComment(Header(section));
    TrimKeeps(Header(section));
  }

  function Separator(lines: Lines): Lines {
    if lines != [] && lines[|lines| - 1] != "" then [""] else []
  }

  lemma SeparatorSaysNothing(lines: Lines, key: string)
    ensures NoHeaders(Separator(lines)) && NoAssignments(Separator(lines), key)
  {
    assert Content("") == "";
  }

  lemma AppendedSection(lines: Lines, section: Name, key: Name, text: string)
    requires FirstBlock(lines, section).None?
    ensures var result := WithSetting(lines, section, key, QuoteToml(text));
            Deciding(result, section, key, false) == |result| - 1
            && RawValue(result, section, key) == Some(QuoteToml(text))
  {
    var line, header := Setting(key, QuoteToml(text)), Header(section);
    var before := lines + Separator(lines);
    SettingReadsBack(key, text, key);
    HeaderContent(section);
    SeparatorSaysNothing(lines, key);
    SkipsOtherSections(before, section, key);
    DecidingConcat(before, [header, line], section, key, false);
    assert [header, line][1..] == [line];
  }

  /** Every other lookup answers as before, in the same section or another. */
  lemma SetKeepsOthers(lines: Lines, section: Name, key: Name, text: string, otherSection: string, otherKey: string)
    requires (otherSection, otherKey) != (section, key)
    ensures RawValue(WithSetting(lines, section, key, QuoteToml(text)), otherSection, otherKey)
            == RawValue(lines, otherSection, otherKey)
  {
    hide Content;
    var line := Setting(key, QuoteToml(text));
    SettingReadsBack(key, text, otherKey);
    if FirstBlock(lines, section).Some? {
      var block := FirstBlock(lines, section).value;
      var i, n := EditAt(lines, block, key), CutCount(lines, block, key);
      EditSplits(lines, block, key);
      BeforeEdit(lines, section, key, otherSection);
      EditKeepsLookup(lines[..i], lines[i..i + n], [line], lines[i + n..], otherSection, otherKey);
    } else {
      AppendKeepsOthers(lines, section, key, text, otherSection, otherKey);
    }
  }

  lemma NewSectionHoldsOneKey(section: Name, key: Name, text: string, otherSection: string, otherKey: string, inSection: bool)
    requires (otherSection, otherKey) != (section, key)
    ensures Deciding([Header(section), Setting(key, QuoteToml(text))], otherSection, otherKey, inSection) == 2
  {
    var line, header := Setting(key, QuoteToml(text)), Header(section);
    SettingReadsBack(key, text, otherKey);
    HeaderContent(section);
    SectionsDiffer(section, otherSection);
    assert [header, line][1..] == [line] && [line][1..] == [];
  }

  lemma AppendKeepsOthers(lines: Lines, section: Name, key: Name, text: string, otherSection: string, otherKey: string)
    requires (otherSection, otherKey) != (section, key) && FirstBlock(lines, section).None?
    ensures RawValue(WithSetting(lines, section, key, QuoteToml(text)), otherSection, otherKey)
            == RawValue(lines, otherSection, otherKey)
  {
    var added := [Header(section), Setting(key, QuoteToml(text))];
    SeparatorSaysNothing(lines, otherKey);
    LookupAround(lines, Separator(lines), added, otherSection, otherKey);
    NewSectionHoldsOneKey(section, key, text, otherSection, otherKey, InSectionAfter(lines, otherSection, false));
  }

  lemma SetThenDecides(lines: Lines, section: Name, key: Name, text: string)
    requires FirstBlock(lines, section).Some?
    ensures Deciding(WithSetting(lines, section, key, QuoteToml(text)), section, key, false)
            == EditAt(lines, FirstBlock(lines, section).value, key)
  {
    hide Content;
    var block := FirstBlock(lines, section).value;
    var i, n := EditAt(lines, block, key), CutCount(lines, block, key);
    SettingReadsBack(key, text, key);
    BeforeEdit(lines, section, key, section);
    DecidedByLine(lines[..i], Setting(key, QuoteToml(text)), lines[i + n..], section, key);
  }

  lemma OwnedIsRemoved(lines: Lines, key: Name, text: string, owns: string -> bool)
    requires RawValue(lines, PATHS, key) == Some(QuoteToml(text)) && owns(text)
    ensures var i := Deciding(lines, PATHS, key, false);
            i < |lines| && WithoutOwned(lines, key, owns) == lines[..i] + lines[i + 1..]
  {
    hide Content;
    UnquotedQuoted(text);
  }

  lemma SplicedThenCut(lines: Lines, i: nat, n: nat, line: string)
    requires i + n <= |lines|
    ensures var result := Spliced(lines, i, n, line);
            result[..i] + result[i + 1..] == lines[..i] + lines[i + n..]
    ensures |lines[..i] + lines[i + n..]| == |lines| - n
    ensures n == 0 ==> lines[..i] + lines[i + n..] == lines
  {
  }

  lemma RemovalUndoesEdit(lines: Lines, key: Name, text: string, owns: string -> bool)
    requires owns(text) && FirstBlock(lines, PATHS).Some?
    ensures var i := EditAt(lines, FirstBlock(lines, PATHS).value, key);
            var n := CutCount(lines, FirstBlock(lines, PATHS).value, key);
            WithoutOwned(WithSetting(lines, PATHS, key, QuoteToml(text)), key, owns) == lines[..i] + lines[i + n..]
  {
    hide Content;
    var block := FirstBlock(lines, PATHS).value;
    SetThenGet(lines, PATHS, key, text);
    OwnedIsRemoved(WithSetting(lines, PATHS, key, QuoteToml(text)), key, text, owns);
    SetThenDecides(lines, PATHS, key, text);
    SplicedThenCut(lines, EditAt(lines, block, key), CutCount(lines, block, key), Setting(key, QuoteToml(text)));
  }

  /** Setting a path and then removing it as its owner gives back the exact lines, if and only if
      the section exists and its first block did not hold the key. */
  lemma SetThenRemove(lines: Lines, key: Name, text: string, owns: string -> bool)
    requires owns(text)
    ensures WithoutOwned(WithSetting(lines, PATHS, key, QuoteToml(text)), key, owns) == lines
            <==> FirstBlock(lines, PATHS).Some? && !BlockAssigns(lines, FirstBlock(lines, PATHS).value, key)
  {
    if FirstBlock(lines, PATHS).Some? {
      var block := FirstBlock(lines, PATHS).value;
      RemovalUndoesEdit(lines, key, text, owns);
      SplicedThenCut(lines, EditAt(lines, block, key), CutCount(lines, block, key), Setting(key, QuoteToml(text)));
    } else {
      var result := WithSetting(lines, PATHS, key, QuoteToml(text));
      SetThenGet(lines, PATHS, key, text);
      OwnedIsRemoved(result, key, text, owns);
      assert |result| >= |lines| + 2;
    }
  }

  lemma CutKeepsOthers(before: Lines, line: string, after: Lines, section: string, key: string,
                       otherSection: string, otherKey: string)
    requires (otherSection, otherKey) != (section, key) && Assigns(line, key) && !IsHeader(line)
    requires InSectionAfter(before, otherSection, false) ==> otherSection == section
    ensures RawValue(before + after, otherSection, otherKey) == RawValue(before + [line] + after, otherSection, otherKey)
  {
    hide Content, RawValue;
    EditKeepsLookup(before, [line], [], after, otherSection, otherKey);
    assert before + [] == before;
  }

  lemma RemovalKeepsOthers(lines: Lines, section: string, key: string, otherSection: string, otherKey: string)
    requires (otherSection, otherKey) != (section, key) && Deciding(lines, section, key, false) < |lines|
    ensures var i := Deciding(lines, section, key, false);
            RawValue(lines[..i] + lines[i + 1..], otherSection, otherKey) == RawValue(lines, otherSection, otherKey)
  {
    hide Content, Deciding, InSectionAfter, RawValue, Assigns, IsHeader;
    var i := Deciding(lines, section, key, false);
    DecidingLineIsInSection(lines, section, key, otherSection);
    CutKeepsOthers(lines[..i], lines[i], lines[i + 1..], section, key, otherSection, otherKey);
    assert lines[..i] + [lines[i]] + lines[i + 1..] == lines;
  }

  /** A removal changes no other lookup, and is made only for a value its caller owns. */
  lemma RemovalIsOwned(lines: Lines, key: string, owns: string -> bool, otherSection: string, otherKey: string)
    requires WithoutOwned(lines, key, owns) != lines
    ensures RawValue(lines, PATHS, key).Some? && Unquoted(RawValue(lines, PATHS, key).value).Some?
    ensures owns(Unquoted(RawValue(lines, PATHS, key).value).value)
    ensures (otherSection, otherKey) != (PATHS, key) ==>
              RawValue(WithoutOwned(lines, key, owns), otherSection, otherKey) == RawValue(lines, otherSection, otherKey)
  {
    if (otherSection, otherKey) != (PATHS, key) {
      RemovalKeepsOthers(lines, PATHS, key, otherSection, otherKey);
    }
  }

  lemma DecidingLineIsInSection(lines: Lines, section: string, key: string, other: string)
    requires Deciding(lines, section, key, false) < |lines|
    ensures InSectionAfter(lines[..Deciding(lines, section, key, false)], other, false) ==> other == section
  {
    hide Content;
    DecidingWithin(lines, section, key, false, other, false);
  }

  lemma {:induction false} DecidingWithin(lines: Lines, section: string, key: string, inSection: bool,
                                          other: string, inOther: bool)
    requires Deciding(lines, section, key, inSection) < |lines|
    requires other != section ==> !(inSection && inOther)
    ensures other != section ==> !InSectionAfter(lines[..Deciding(lines, section, key, inSection)], other, inOther)
  {
    var i := Deciding(lines, section, key, inSection);
    if i > 0 {
      assert lines[..i][0] == lines[0] && lines[..i][1..] == lines[1..][..i - 1];
      SectionsDiffer(section, other);
      if IsHeader(lines[0]) {
        DecidingWithin(lines[1..], section, key, IsHeaderOf(lines[0], section), other, IsHeaderOf(lines[0], other));
      } else {
        DecidingWithin(lines[1..], section, key, inSection, other, inOther);
      }
    }
  }

  lemma SplicedTwice(lines: Lines, i: nat, n: nat, a: string, b: string)
    requires i + n <= |lines|
    ensures Spliced(Spliced(lines, i, n, a), i, 1, b) == Spliced(lines, i, n, b)
  {
  }

  /** Setting a key twice leaves exactly what setting it once to the last value would. */
  lemma LastSetWins(lines: Lines, section: Name, key: Name, first: string, last: string)
    ensures WithSetting(WithSetting(lines, section, key, QuoteToml(first)), section, key, QuoteToml(last))
            == WithSetting(lines, section, key, QuoteToml(last))
  {
    hide Content;
    var once := WithSetting(lines, section, key, QuoteToml(first));
    if FirstBlock(lines, section).Some? {
      var block := FirstBlock(lines, section).value;
      EditedBlock(lines, section, key, first);
      SplicedTwice(lines, EditAt(lines, block, key), CutCount(lines, block, key), Setting(key, QuoteToml(first)),
                   Setting(key, QuoteToml(last)));
    } else {
      AppendedBlock(lines, section, key, first);
    }
  }

  lemma EditedLines(lines: Lines, section: Name, key: Name, text: string)
    requires FirstBlock(lines, section).Some?
    ensures var block := FirstBlock(lines, section).value; var i := EditAt(lines, block, key);
            var once := WithSetting(lines, section, key, QuoteToml(text));
            && i < |once| && once[i] == Setting(key, QuoteToml(text)) && once[block.0] == lines[block.0]
            && (forall k | 0 <= k < block.0 :: !IsHeaderOf(once[k], section))
            && (forall k | block.0 < k < i :: !IsHeader(once[k]) && !Assigns(once[k], key))
  {
    hide Content;
    var block := FirstBlock(lines, section).value;
    var i := EditAt(lines, block, key);
    var once := WithSetting(lines, section, key, QuoteToml(text));
    BlockBody(lines, section, key);
    assert forall k | 0 <= k < i :: once[k] == lines[k];
    assert forall k | 0 <= k < block.0 :: lines[k] == lines[..block.0][k];
    assert forall k | block.0 < k < i :: lines[k] == lines[block.0 + 1..i][k - block.0 - 1];
  }

  /** After an edit, the key's line is the first assignment in the first block. */
  lemma EditedBlock(lines: Lines, section: Name, key: Name, text: string)
    requires FirstBlock(lines, section).Some?
    ensures var once := WithSetting(lines, section, key, QuoteToml(text));
            && FirstBlock(once, section).Some?
            && BlockAssigns(once, FirstBlock(once, section).value, key)
            && EditAt(once, FirstBlock(once, section).value, key) == EditAt(lines, FirstBlock(lines, section).value, key)
  {
    hide Content;
    var block := FirstBlock(lines, section).value;
    var i := EditAt(lines, block, key);
    var once := WithSetting(lines, section, key, QuoteToml(text));
    EditedLines(lines, section, key, text);
    SettingReadsBack(key, text, key);
    assert FirstHeaderOf(once, section, 0) == block.0;
    assert FirstHeader(once, block.0 + 1) > i;
  }

  lemma AppendedBlock(lines: Lines, section: Name, key: Name, text: string)
    requires FirstBlock(lines, section).None?
    ensures var once := WithSetting(lines, section, key, QuoteToml(text));
            && FirstBlock(once, section) == Some((|once| - 2, |once|))
            && FirstAssignment(once, key, |once| - 1, |once|) == |once| - 1
  {
    var once := WithSetting(lines, section, key, QuoteToml(text));
    SettingReadsBack(key, text, key);
    HeaderContent(section);
    assert Content("") == "";
    assert once[|once| - 1] == Setting(key, QuoteToml(text)) && once[|once| - 2] == Header(section);
    assert forall k | 0 <= k < |once| - 2 :: once[k] == if k < |lines| then lines[k] else "";
    assert FirstHeaderOf(once, section, 0) == |once| - 2;
  }
}
