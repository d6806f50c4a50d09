/** `Config.toml` as a file: what is read back from the text that was written. */
module ConfigFiles {
  import ConfigPaths
  import opened LineTexts
  import opened RuntimeConfigurations
  import opened Texts
  import opened TomlText
  import opened Wrappers

  /** The lines an edit starts from; a missing file starts from the default lines. */
  function StartingLines(text: Option<string>): (lines: Lines)
    ensures AreLines(lines)
  {
    if text.Some? then ReadLines(text.value) else DEFAULT_LINES
  }

  function RawValueIn(text: Option<string>, section: string, key: string): Option<string> {
    if text.Some? then RawValue(ReadLines(text.value), section, key) else None
  }

  function PathIn(text: Option<string>, key: string): Option<string> {
    var raw := RawValueIn(text, PATHS, key);
    if raw.Some? then Unquoted(raw.value) else None
  }

  function WithPath(text: Option<string>, key: Name, value: string, newLine: NewLine): string {
    WrittenText(WithSetting(StartingLines(text), PATHS, key, QuoteToml(value)), newLine)
  }

  function WithoutPath(text: string, key: string, owns: string -> bool, newLine: NewLine): string {
    var lines := ReadLines(text);
    if WithoutOwned(lines, key, owns) == lines then text else WrittenText(WithoutOwned(lines, key, owns), newLine)
  }

  type FullPath = ConfigPaths.FullPath

  /** Whether a stored path is the one that a caller means. */
  function OwnedBy(directory: FullPath, expected: FullPath): string -> bool {
    stored => ConfigPaths.SamePath(ConfigPaths.Resolve(directory, stored), expected)
  }

  /** `GetResolvedPath`: a path as the runtime will use it. */
  function ResolvedIn(text: Option<string>, key: string, directory: FullPath): Option<seq<string>> {
    var stored := PathIn(text, key);
    if stored.None? || Blank(stored.value) then None else Some(ConfigPaths.Resolve(directory, stored.value))
  }

  /** One configuration file: its text, or nothing while it does not exist, the directory it is in,
      and the portable root around it, if there is one. */
  class ConfigFile {
    const newLine: NewLine
    const directory: FullPath
    const root: Option<FullPath>
    var text: Option<string>

    constructor (newLine: NewLine, directory: FullPath, root: Option<FullPath>)
      ensures text == None && this.newLine == newLine && this.directory == directory && this.root == root
    {
      text, this.newLine, this.directory, this.root := None, newLine, directory, root;
    }

    method GetRawValue(section: string, key: string) returns (r: Option<string>)
      ensures r == RawValueIn(text, section, key)
    {
      if text.None? { return None; }
      var lines := ReadLines(text.value);
      var index := FindDeciding(lines, section, key);
      return if index < |lines| then Some(ValueOf(lines[index])) else None;
    }

    method GetPath(key: string) returns (r: Option<string>)
      ensures r == PathIn(text, key)
    {
      var raw := GetRawValue(PATHS, key);
      r := TryUnquoteToml(if raw.Some? then raw.value else "");
    }

    method GetResolvedPath(key: string) returns (r: Option<seq<string>>)
      ensures r == ResolvedIn(text, key, directory)
    {
      var stored := GetPath(key);
      if stored.None? || Blank(stored.value) { return None; }
      return Some(ConfigPaths.Resolve(directory, stored.value));
    }

    /** The path reads back as it is stored if and only if it holds no line break, and then it
        resolves to the path that was meant and no other setting reads differently. */
    method SetPath(key: Name, full: FullPath)
      modifies this`text
      ensures text == Some(WithPath(old(text), key, ConfigPaths.Formatted(directory, root, full), newLine))
      ensures var stored := ConfigPaths.Formatted(directory, root, full);
              && (PathIn(text, key) == Some(stored) <==> IsOneLine(stored))
              && (IsOneLine(stored) ==>
                    ResolvedIn(text, key, directory).Some?
                    && ConfigPaths.SamePath(ResolvedIn(text, key, directory).value, full))
      ensures IsOneLine(ConfigPaths.Formatted(directory, root, full)) ==>
                forall section: string, other: string | (section, other) != (PATHS, key) ::
                  RawValueIn(text, section, other) == RawValueIn(old(text), section, other)
    {
      hide PathIn, RawValueIn, WithSetting, WrittenText, IsOneLine, ConfigPaths.Formatted, ConfigPaths.Resolve, ConfigPaths.SamePath, Blank;
      ghost var before := text;
      var stored := ConfigPaths.Formatted(directory, root, full);
      var lines := if text.Some? then ReadLines(text.value) else DEFAULT_LINES;
      lines := SetSectionValue(lines, PATHS, key, QuoteToml(stored));
      text := Some(WrittenText(lines, newLine));
      PathReadsBack(before, key, stored, newLine);
      ConfigPaths.StoredPathResolves(directory, root, full);
      ConfigPaths.FormattedIsNotBlank(directory, root, full);
      if IsOneLine(stored) {
        forall section: string, other: string | (section, other) != (PATHS, key)
          ensures RawValueIn(text, section, other) == RawValueIn(before, section, other)
        {
          OthersReadBack(before, key, stored, newLine, section, other);
        }
      }
    }

    /** Removes a path that resolves to the caller's. */
    method RemovePathIfOwned(key: string, expected: FullPath)
      modifies this`text
      ensures text == if old(text).Some? then Some(WithoutPath(old(text).value, key, OwnedBy(directory, expected), newLine)) else None
    {
      hide ReadLines, Content, Deciding, Unquoted, WrittenText, ConfigPaths.Resolve, ConfigPaths.SamePath;
      if text.None? { return; }
      var lines := ReadLines(text.value);
      var index := FindDeciding(lines, PATHS, key);
      if index == |lines| { return; }
      var configured := TryUnquoteToml(ValueOf(lines[index]));
      if configured.None? || !ConfigPaths.SamePath(ConfigPaths.Resolve(directory, configured.value), expected) { return; }
      assert |lines[..index] + lines[index + 1..]| < |lines|;
      text := Some(WrittenText(lines[..index] + lines[index + 1..], newLine));
    }
  }

  // ---- Values are parts of lines ----

  lemma {:induction false} TrimStartKeepsOneLine(s: string)
    requires IsOneLine(s)
    ensures IsOneLine(TrimStart(s))
  {
    if s != "" && IsWhiteSpace(s[0]) {
      TrimStartKeepsOneLine(s[1..]);
    }
  }

  lemma {:induction false} TrimEndKeepsOneLine(s: string)
    requires IsOneLine(s)
    ensures IsOneLine(TrimEnd(s))
  {
    if s != "" && IsWhiteSpace(s[|s| - 1]) {
      TrimEndKeepsOneLine(s[..|s| - 1]);
    }
  }

  lemma TrimKeepsOneLine(s: string)
    requires IsOneLine(s)
    ensures IsOneLine(Trim(s))
  {
    TrimStartKeepsOneLine(s);
    TrimEndKeepsOneLine(TrimStart(s));
  }

  lemma ValueIsOneLine(line: string)
    requires IsOneLine(line) && EqualsAt(Content(line)) < |Content(line)|
    ensures IsOneLine(ValueOf(line))
  {
    hide Trim;
    TrimKeepsOneLine(WithoutComment(line));
    var content := Content(line);
    TrimKeepsOneLine(content[EqualsAt(content) + 1..]);
  }

  lemma {:induction false} UnescapedIsOneLine(body: string)
    requires IsOneLine(body)
    ensures IsOneLine(Unescaped(body))
  {
    if body == "" {
    } else if body[0] == '\\' && |body| > 1 {
      UnescapedIsOneLine(body[2..]);
    } else {
      UnescapedIsOneLine(body[1..]);
    }
  }

  lemma RawValueIsOneLine(lines: Lines, section: string, key: string)
    requires AreLines(lines) && RawValue(lines, section, key).Some?
    ensures IsOneLine(RawValue(lines, section, key).value)
  {
    hide Content, Deciding;
    var i := Deciding(lines, section, key, false);
    assert lines[i] in lines;
    ValueIsOneLine(lines[i]);
  }

  lemma {:induction false} ReplacedIsOneLine(s: string, c: char, with: string)
    requires IsOneLine(with) && !IsBreak(c)
    ensures IsOneLine(Replaced(s, c, with)) <==> IsOneLine(s)
  {
    if s != "" {
      ReplacedIsOneLine(s[1..], c, with);
      assert s == [s[0]] + s[1..];
    }
  }

  lemma SettingIsOneLine(key: Name, value: string)
    ensures IsOneLine(Setting(key, QuoteToml(value))) <==> IsOneLine(value)
  {
    var once := Replaced(value, '\\', "\\\\");
    ReplacedIsOneLine(value, '\\', "\\\\");
    ReplacedIsOneLine(once, '\"', "\\\"");
    var quoted := Replaced(once, '\"', "\\\"");
    assert Setting(key, QuoteToml(value)) == key + " = \"" + quoted + "\"";
  }

  lemma EditIsLines(lines: Lines, key: Name, value: string)
    requires AreLines(lines)
    ensures var edited := WithSetting(lines, PATHS, key, QuoteToml(value));
            edited != [] && (AreLines(edited) <==> IsOneLine(value))
  {
    hide Content, Setting, FirstHeaderOf, IsOneLine;
    SettingIsOneLine(key, value);
    var line, edited := Setting(key, QuoteToml(value)), WithSetting(lines, PATHS, key, QuoteToml(value));
    assert line in edited;
    assert IsOneLine("") && IsOneLine(Header(PATHS)) by { PathsHeaderIsOneLine(); }
    assert forall other | other in edited :: other == line || other == "" || other == Header(PATHS) || other in lines;
  }

  lemma PathsHeaderIsOneLine()
    ensures IsOneLine("") && IsOneLine(Header(PATHS))
  {
  }

  // ---- What a file answers after an edit ----

  /** A path that was set is the path that is read, if and only if it holds no line break. */
  lemma PathReadsBack(text: Option<string>, key: Name, value: string, newLine: NewLine)
    ensures PathIn(Some(WithPath(text, key, value, newLine)), key) == Some(value) <==> IsOneLine(value)
  {
    hide Content, WithSetting, RawValue, IsOneLine;
    var lines := StartingLines(text);
    var edited := WithSetting(lines, PATHS, key, QuoteToml(value));
    EditIsLines(lines, key, value);
    if IsOneLine(value) {
      ReadsBackExactly(edited, newLine);
      SetThenGet(lines, PATHS, key, value);
      UnquotedQuoted(value);
    } else {
      PathIsOneLine(WithPath(text, key, value, newLine), key);
    }
  }

  lemma PathIsOneLine(text: string, key: string)
    ensures PathIn(Some(text), key).Some? ==> IsOneLine(PathIn(Some(text), key).value)
  {
    var raw := RawValue(ReadLines(text), PATHS, key);
    if raw.Some? && Unquoted(raw.value).Some? {
      RawValueIsOneLine(ReadLines(text), PATHS, key);
      UnescapedIsOneLine(raw.value[1..|raw.value| - 1]);
    }
  }

  lemma CommentLine(line: string, key: string)
    requires line != "" && line[0] == '#'
    ensures !Assigns(line, key) && !Assigns("", key)
  {
    assert Content(line) == "" && Content("") == "";
  }

  lemma PathsHeaderLine()
    ensures IsHeader("[paths]")
  {
    HeaderContent(PATHS);
    assert "[paths]" == Header(PATHS);
  }

  lemma DefaultsSetNothing(section: string, key: string)
    ensures RawValue(DEFAULT_LINES, section, key) == None
  {
    CommentLine(DEFAULT_LINES[0], key);
    PathsHeaderLine();
    hide Content, Deciding, Assigns, IsHeader;
    var i := Deciding(DEFAULT_LINES, section, key, false);
    assert i < 3 ==> i == 0 || i == 1 || i == 2;
  }

  lemma OthersReadBack(text: Option<string>, key: Name, value: string, newLine: NewLine, section: string, other: string)
    requires IsOneLine(value) && (section, other) != (PATHS, key)
    ensures RawValueIn(Some(WithPath(text, key, value, newLine)), section, other) == RawValueIn(text, section, other)
  {
    hide Content, WithSetting, RawValue, IsOneLine;
    var lines := StartingLines(text);
    DefaultsSetNothing(section, other);
    EditIsLines(lines, key, value);
    ReadsBackExactly(WithSetting(lines, PATHS, key, QuoteToml(value)), newLine);
    SetKeepsOthers(lines, PATHS, key, value, section, other);
  }

  /** Setting a path twice writes the very text that setting it once to the last value does. */
  lemma LastPathWins(text: Option<string>, key: Name, first: string, last: string, newLine: NewLine)
    requires IsOneLine(first)
    ensures WithPath(Some(WithPath(text, key, first, newLine)), key, last, newLine) == WithPath(text, key, last, newLine)
  {
    hide Content, WithSetting, IsOneLine;
    var lines := StartingLines(text);
    EditIsLines(lines, key, first);
    ReadsBackExactly(WithSetting(lines, PATHS, key, QuoteToml(first)), newLine);
    LastSetWins(lines, PATHS, key, first, last);
  }

  lemma RemovalIsLines(lines: Lines, key: string, owns: string -> bool)
    requires AreLines(lines) && WithoutOwned(lines, key, owns) != lines
    ensures WithoutOwned(lines, key, owns) != [] && AreLines(WithoutOwned(lines, key, owns))
  {
    hide Content;
    var i := Deciding(lines, PATHS, key, false);
    assert i > 0;
  }

  /** A removal, if any, leaves every other setting as it reads. */
  lemma RemovalReadsBack(text: string, key: string, owns: string -> bool, newLine: NewLine, section: string, other: string)
    requires (section, other) != (PATHS, key)
    ensures RawValueIn(Some(WithoutPath(text, key, owns, newLine)), section, other) == RawValueIn(Some(text), section, other)
  {
    hide Content, RawValue, WithoutOwned;
    var lines := ReadLines(text);
    if WithoutOwned(lines, key, owns) != lines {
      RemovalIsLines(lines, key, owns);
      ReadsBackExactly(WithoutOwned(lines, key, owns), newLine);
      RemovalIsOwned(lines, key, owns, section, other);
    }
  }

  /** Setting a path and removing it as its owner leaves the lines of the file as they were, if and
      only if the file had the section and no such key in its first block. */
  lemma SetThenRemoveFile(text: string, key: Name, value: string, owns: string -> bool, newLine: NewLine)
    requires IsOneLine(value) && owns(value)
    ensures ReadLines(WithoutPath(WithPath(Some(text), key, value, newLine), key, owns, newLine)) == ReadLines(text)
            <==> var block := FirstBlock(ReadLines(text), PATHS);
                 block.Some? && !BlockAssigns(ReadLines(text), block.value, key)
  {
    hide Content, WithSetting, WithoutOwned, FirstBlock, BlockAssigns, IsOneLine;
    var lines := ReadLines(text);
    var edited := WithSetting(lines, PATHS, key, QuoteToml(value));
    EditIsLines(lines, key, value);
    ReadsBackExactly(edited, newLine);
    SetThenRemove(lines, key, value, owns);
    if WithoutOwned(edited, key, owns) != edited {
      RemovalIsLines(edited, key, owns);
      ReadsBackExactly(WithoutOwned(edited, key, owns), newLine);
    }
  }

  lemma OwnedValueIsRemoved(lines: Lines, key: Name, value: string, owns: string -> bool)
    requires RawValue(lines, PATHS, key) == Some(QuoteToml(value))
    ensures WithoutOwned(lines, key, owns) != lines <==> owns(value)
  {
    hide Content, Deciding, QuoteToml, Unquoted;
    UnquotedQuoted(value);
    var i := Deciding(lines, PATHS, key, false);
    assert |lines[..i] + lines[i + 1..]| < |lines|;
  }

  /** A path that was set for one folder is removed for another if and only if the two are one and
      the same, however the path is stored. */
  lemma RemovedForItsOwner(text: Option<string>, key: Name, directory: FullPath, root: Option<FullPath>, full: FullPath,
                           expected: FullPath, newLine: NewLine)
    requires IsOneLine(ConfigPaths.Formatted(directory, root, full))
    ensures var written := WithPath(text, key, ConfigPaths.Formatted(directory, root, full), newLine);
            WithoutPath(written, key, OwnedBy(directory, expected), newLine) != written
            <==> ConfigPaths.SamePath(full, expected)
  {
    hide Content, WithSetting, WithoutOwned, IsOneLine, ConfigPaths.Formatted, ConfigPaths.Resolve, ConfigPaths.SamePath;
    var stored, owns := ConfigPaths.Formatted(directory, root, full), OwnedBy(directory, expected);
    var lines := StartingLines(text);
    var edited := WithSetting(lines, PATHS, key, QuoteToml(stored));
    EditIsLines(lines, key, stored);
    ReadsBackExactly(edited, newLine);
    SetThenGet(lines, PATHS, key, stored);
    OwnedValueIsRemoved(edited, key, stored, owns);
    ConfigPaths.StoredPathResolves(directory, root, full);
    ConfigPaths.SamePathIsEquivalence(ConfigPaths.Resolve(directory, stored), full, expected);
    if WithoutOwned(edited, key, owns) != edited {
      RemovalIsLines(edited, key, owns);
      ReadsBackExactly(WithoutOwned(edited, key, owns), newLine);
    }
  }
}
