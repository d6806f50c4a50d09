/** The paths in `Config.toml`: stored relative to its directory inside a portable root, else in full,
    and resolved against that directory when they are read. */
module ConfigPaths {
  import opened Texts
  import opened Wrappers

  predicate IsSeparator(c: char) {
    c == '\\' || c == '/'
  }

  /** A file or directory name, as Windows allows it. */
  predicate IsName(s: string) {
    !Blank(s) && s != "." && s != ".." && forall c | c in s :: !IsSeparator(c) && c != ':'
  }

  predicate IsVolume(s: string) {
    |s| == 2 && s[1] == ':' && !IsSeparator(s[0])
  }

  predicate IsFull(p: seq<string>) {
    p != [] && IsVolume(p[0]) && forall k | 1 <= k < |p| :: IsName(p[k])
  }

  /** A normalized absolute path, volume first. */
  type FullPath = p: seq<string> | IsFull(p) witness ["C:"]

  /** Equality of paths under `StringComparison.OrdinalIgnoreCase`. */
  predicate SamePath(a: seq<string>, b: seq<string>) {
    |a| == |b| && forall k | 0 <= k < |a| :: Same(a[k], b[k])
  }

  // ---- Resolving ----

  function SeparatorAt(text: string): (i: nat)
    ensures i <= |text|
    ensures i < |text| ==> IsSeparator(text[i])
  {
    if text == "" || IsSeparator(text[0]) then 0 else 1 + SeparatorAt(text[1..])
  }

  function Segments(text: string): (segments: seq<string>)
    ensures segments != []
  {
    var i := SeparatorAt(text);
    if i == |text| then [text] else [text[..i]] + Segments(text[i + 1..])
  }

  /** One step from a directory. Nothing is above a volume. */
  function Entered(directory: seq<string>, segment: string): seq<string> {
    if segment == "" || segment == "." then directory
    else if segment == ".." then (if |directory| > 1 then directory[..|directory| - 1] else directory)
    else directory + [segment]
  }

  function EnteredAll(directory: seq<string>, segments: seq<string>): seq<string>
    decreases |segments|
  {
    if segments == [] then directory else EnteredAll(Entered(directory, segments[0]), segments[1..])
  }

  /** `Path.GetFullPath(value, directory)`. */
  function Resolve(directory: FullPath, value: string): seq<string> {
    var segments := Segments(value);
    if IsVolume(segments[0]) then EnteredAll([segments[0]], segments[1..])
    else if |segments| > 1 && segments[0] == "" then EnteredAll([directory[0]], segments[1..])
    else EnteredAll(directory, segments)
  }

  lemma {:induction false} NeverAboveVolume(directory: seq<string>, segments: seq<string>)
    requires directory != []
    ensures EnteredAll(directory, segments) != [] && EnteredAll(directory, segments)[0] == directory[0]
    decreases |segments|
  {
    if segments != [] {
      NeverAboveVolume(Entered(directory, segments[0]), segments[1..]);
    }
  }

  /** Whatever the text, resolving it never leaves the volume: its own, or else the directory's. */
  lemma ResolveStaysOnVolume(directory: FullPath, value: string)
    ensures var resolved, first := Resolve(directory, value), Segments(value)[0];
            resolved != [] && resolved[0] == if IsVolume(first) then first else directory[0]
  {
    var segments := Segments(value);
    NeverAboveVolume([segments[0]], segments[1..]);
    NeverAboveVolume([directory[0]], segments[1..]);
    NeverAboveVolume(directory, segments);
  }

  /** No text is the directory itself, a name is in it, and a name after a separator is on its volume. */
  lemma ResolvedNames(directory: FullPath, name: string)
    requires IsName(name) && !IsVolume(name)
    ensures Resolve(directory, "") == directory
    ensures Resolve(directory, name) == directory + [name]
    ensures Resolve(directory, "\\" + name) == [directory[0], name]
  {
    NoSeparator(name, "");
    assert name + "" == name && ("\\" + name)[0] == '\\' && ("\\" + name)[1..] == name;
    assert Segments("") == [""] && Segments(name) == [name] && Segments("\\" + name) == ["", name];
    NamesAreEntered(directory, [name]);
    NamesAreEntered([directory[0]], [name]);
    assert EnteredAll(directory, [""]) == directory by { assert [""][1..] == []; }
  }

  // ---- Storing ----

  function Joined(segments: seq<string>, separator: char): string
    requires segments != []
  {
    if |segments| == 1 then segments[0] else segments[0] + [separator] + Joined(segments[1..], separator)
  }

  function CommonLength(a: seq<string>, b: seq<string>): (n: nat)
    ensures n <= |a| && n <= |b| && SamePath(a[..n], b[..n])
  {
    if a == [] || b == [] || !Same(a[0], b[0]) then 0
    else
      var n := 1 + CommonLength(a[1..], b[1..]);
      assert a[..n] == [a[0]] + a[1..][..n - 1] && b[..n] == [b[0]] + b[1..][..n - 1];
      n
  }

  /** `Path.GetRelativePath` with forward slashes. */
  function Relative(directory: FullPath, full: FullPath): string {
    var n := CommonLength(directory, full);
    var segments := seq(|directory| - n, _ => "..") + full[n..];
    if segments == [] then "." else Joined(segments, '/')
  }

  predicate IsUnder(root: seq<string>, p: seq<string>) {
    |root| <= |p| && SamePath(root, p[..|root|])
  }

  /** `FormatPathValue`, with the portable root that holds the configuration, if there is one. */
  function Formatted(directory: FullPath, root: Option<FullPath>, full: FullPath): string {
    if root.Some? && IsUnder(root.value, directory) && IsUnder(root.value, full) then Relative(directory, full)
    else if |full| == 1 then full[0] + "\\"
    else Joined(full, '\\')
  }

  /** A path in the portable root that holds the configuration, the root itself included, is stored
      relative; without a portable root it is stored in full. */
  lemma PortableIsRelative(directory: FullPath, root: FullPath, full: FullPath)
    ensures root <= directory && root <= full ==> Formatted(directory, Some(root), full) == Relative(directory, full)
    ensures Formatted(directory, None, full) == if |full| == 1 then full[0] + "\\" else Joined(full, '\\')
  {
    hide Relative, Joined, IsFull, Same;
    if root <= directory && root <= full {
      assert directory[..|root|] == root && full[..|root|] == root;
      SameAsBefore(root);
    }
  }

  lemma SameAsBefore(p: seq<string>)
    ensures SamePath(p, p)
  {
  }

  // ---- What is stored resolves to what was meant ----

  lemma {:induction false} NoSeparator(segment: string, rest: string)
    requires (forall c | c in segment :: !IsSeparator(c)) && (rest == "" || IsSeparator(rest[0]))
    ensures SeparatorAt(segment + rest) == |segment|
  {
    if segment == "" {
      assert segment + rest == rest;
    } else {
      assert (segment + rest)[0] == segment[0] && (segment + rest)[1..] == segment[1..] + rest;
      assert segment[0] in segment && forall c | c in segment[1..] :: c in segment;
      NoSeparator(segment[1..], rest);
    }
  }

  lemma {:induction false} SegmentsOfJoined(segments: seq<string>, separator: char)
    requires segments != [] && IsSeparator(separator)
    requires forall k | 0 <= k < |segments| :: forall c | c in segments[k] :: !IsSeparator(c)
    ensures Segments(Joined(segments, separator)) == segments
  {
    hide IsSeparator, SeparatorAt;
    var text := Joined(segments, separator);
    if |segments| == 1 {
      NoSeparator(segments[0], "");
      assert text + "" == text;
    } else {
      var rest := Joined(segments[1..], separator);
      NoSeparator(segments[0], [separator] + rest);
      assert text == segments[0] + ([separator] + rest);
      SegmentsOfJoined(segments[1..], separator);
    }
  }

  lemma {:induction false} NamesAreEntered(directory: seq<string>, names: seq<string>)
    requires forall k | 0 <= k < |names| :: IsName(names[k])
    ensures EnteredAll(directory, names) == directory + names
    decreases |names|
  {
    if names != [] {
      EmptyIsBlank();
      assert IsName(names[0]);
      NamesAreEntered(directory + [names[0]], names[1..]);
      assert directory + [names[0]] + names[1..] == directory + names;
    } else {
      assert directory + names == directory;
    }
  }

  lemma EmptyIsBlank()
    ensures Blank("")
  {
  }

  lemma {:induction false} DotsLeave(directory: seq<string>, n: nat, rest: seq<string>)
    requires n < |directory|
    ensures EnteredAll(directory, seq(n, _ => "..") + rest) == EnteredAll(directory[..|directory| - n], rest)
  {
    var dots := seq(n, _ => "..");
    if n == 0 {
      assert dots + rest == rest && directory[..|directory|] == directory;
    } else {
      assert (dots + rest)[0] == ".." && (dots + rest)[1..] == seq(n - 1, _ => "..") + rest;
      DotsLeave(directory[..|directory| - 1], n - 1, rest);
      assert directory[..|directory| - 1][..|directory| - n] == directory[..|directory| - n];
    }
  }

  lemma SameAtStart(root: FullPath, a: FullPath, b: FullPath)
    requires IsUnder(root, a) && IsUnder(root, b)
    ensures CommonLength(a, b) > 0
  {
    assert Same(root[0], a[..|root|][0]) && Same(root[0], b[..|root|][0]);
  }

  lemma NameIsPlain(s: string)
    requires s == ".." || IsName(s)
    ensures s != "" && !IsVolume(s) && forall c | c in s :: !IsSeparator(c)
  {
    EmptyIsBlank();
    if |s| == 2 { assert s[1] in s; }
  }

  lemma ClimbedResolves(directory: FullPath, full: FullPath, n: nat, segments: seq<string>)
    requires 0 < n <= |directory| && n <= |full|
    requires segments == seq(|directory| - n, _ => "..") + full[n..] && segments != []
    ensures Resolve(directory, Joined(segments, '/')) == directory[..n] + full[n..]
  {
    hide IsName, IsVolume, IsSeparator, Segments, Joined, EnteredAll;
    forall k | 0 <= k < |segments|
      ensures segments[k] != "" && !IsVolume(segments[k]) && forall c | c in segments[k] :: !IsSeparator(c)
    {
      if k >= |directory| - n { assert segments[k] == full[n + (k - (|directory| - n))]; }
      NameIsPlain(segments[k]);
    }
    SlashIsSeparator();
    SegmentsOfJoined(segments, '/');
    DotsLeave(directory, |directory| - n, full[n..]);
    NamesAreEntered(directory[..n], full[n..]);
  }

  lemma SlashIsSeparator()
    ensures IsSeparator('/') && IsSeparator('\\')
  {
  }

  lemma DotResolves(directory: FullPath)
    ensures Resolve(directory, ".") == directory
  {
    assert SeparatorAt(".") == 1;
    assert EnteredAll(directory, ["."]) == EnteredAll(directory, []);
  }

  lemma RelativeResolves(directory: FullPath, root: FullPath, full: FullPath)
    requires IsUnder(root, directory) && IsUnder(root, full)
    ensures SamePath(Resolve(directory, Relative(directory, full)), full)
  {
    hide Resolve, Same, IsFull, Joined;
    SameAtStart(root, directory, full);
    var n := CommonLength(directory, full);
    var segments := seq(|directory| - n, _ => "..") + full[n..];
    if segments == [] {
      DotResolves(directory);
      assert directory == directory[..n] && full == full[..n];
    } else {
      ClimbedResolves(directory, full, n, segments);
      SameStart(directory, full, n);
    }
  }

  lemma SameStart(directory: seq<string>, full: seq<string>, n: nat)
    requires n <= |directory| && n <= |full| && SamePath(directory[..n], full[..n])
    ensures SamePath(directory[..n] + full[n..], full)
  {
    forall k | 0 <= k < |full|
      ensures Same((directory[..n] + full[n..])[k], full[k])
    {
      if k < n { assert Same(directory[..n][k], full[..n][k]); }
    }
  }

  lemma VolumeResolves(directory: FullPath, volume: string)
    requires IsVolume(volume)
    ensures Resolve(directory, volume + "\\") == [volume]
  {
    var text := volume + "\\";
    assert forall c | c in volume :: c == volume[0] || c == volume[1];
    NoSeparator(volume, "\\");
    assert text[..2] == volume && text[3..] == "";
    assert Segments(text) == [volume, ""];
    assert EnteredAll([volume], [""]) == EnteredAll([volume], []);
  }

  lemma FullResolves(directory: FullPath, full: FullPath)
    requires |full| > 1
    ensures Resolve(directory, Joined(full, '\\')) == full
  {
    hide IsSeparator, IsName, Segments, Joined, EnteredAll;
    forall k | 0 <= k < |full|
      ensures forall c | c in full[k] :: !IsSeparator(c)
    {
      if k == 0 { VolumeIsPlain(full[0]); } else { NameIsPlain(full[k]); }
    }
    SlashIsSeparator();
    SegmentsOfJoined(full, '\\');
    NamesAreEntered([full[0]], full[1..]);
    assert [full[0]] + full[1..] == full;
  }

  lemma VolumeIsPlain(s: string)
    requires IsVolume(s)
    ensures forall c | c in s :: !IsSeparator(c)
  {
    assert forall c | c in s :: c == s[0] || c == s[1];
  }

  /** Whatever is stored, inside a portable root or outside, resolves to the path that was meant. */
  lemma StoredPathResolves(directory: FullPath, root: Option<FullPath>, full: FullPath)
    ensures SamePath(Resolve(directory, Formatted(directory, root, full)), full)
  {
    if root.Some? && IsUnder(root.value, directory) && IsUnder(root.value, full) {
      RelativeResolves(directory, root.value, full);
    } else if |full| == 1 {
      VolumeResolves(directory, full[0]);
      assert full == [full[0]];
    } else {
      FullResolves(directory, full);
    }
  }

  lemma SamePathIsEquivalence(a: seq<string>, b: seq<string>, c: seq<string>)
    requires SamePath(a, b)
    ensures SamePath(b, a) && (SamePath(a, c) <==> SamePath(b, c))
  {
  }

  lemma JoinedStarts(segments: seq<string>, separator: char)
    requires segments != []
    ensures segments[0] <= Joined(segments, separator)
  {
  }

  lemma PrefixIsNotBlank(a: string, b: string)
    requires a <= b && !Blank(a)
    ensures !Blank(b)
  {
    var c :| c in a && !IsWhiteSpace(c);
    assert c in b;
  }

  lemma DotsAndVolumesAreNotBlank(volume: string)
    requires IsVolume(volume)
    ensures !Blank(".") && !Blank("..") && !Blank(volume)
  {
    assert '.' in "." && '.' in ".." && volume[1] in volume;
  }

  /** What is stored is never blank, so it is always resolved. */
  lemma FormattedIsNotBlank(directory: FullPath, root: Option<FullPath>, full: FullPath)
    ensures !Blank(Formatted(directory, root, full))
  {
    hide Blank, Joined;
    DotsAndVolumesAreNotBlank(full[0]);
    if root.Some? && IsUnder(root.value, directory) && IsUnder(root.value, full) {
      SameAtStart(root.value, directory, full);
      var n := CommonLength(directory, full);
      var segments := seq(|directory| - n, _ => "..") + full[n..];
      if segments != [] {
        JoinedStarts(segments, '/');
        assert segments[0] == ".." || (n < |full| && segments[0] == full[n]);
        PrefixIsNotBlank(segments[0], Joined(segments, '/'));
      }
    } else if |full| == 1 {
      PrefixIsNotBlank(full[0], full[0] + "\\");
    } else {
      JoinedStarts(full, '\\');
      PrefixIsNotBlank(full[0], Joined(full, '\\'));
    }
  }
}
