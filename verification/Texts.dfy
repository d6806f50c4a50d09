/** The text comparisons of .NET that the installer relies on. */
module Texts {

  function FoldCharacter(c: char): char {
    if 'a' <= c <= 'z' then (c as int - 'a' as int + 'A' as int) as char else c
  }

  function Folded(s: string): string {
    seq(|s|, i requires 0 <= i < |s| => FoldCharacter(s[i]))
  }

  /** Equality under `StringComparison.OrdinalIgnoreCase`. */
  predicate Same(a: string, b: string) {
    Folded(a) == Folded(b)
  }

  /** The case of an ASCII letter makes no difference wherever it stands, and everything else does. */
  lemma SameSpelling(before: string, letter: nat, after: string, a: string, b: string)
    requires letter < 26
    ensures Same(before + [(0x41 + letter) as char] + after, before + [(0x61 + letter) as char] + after)
    ensures (forall c | c in a + b :: !('a' <= c <= 'z')) ==> (Same(a, b) <==> a == b)
  {
    var upper, lower := before + [(0x41 + letter) as char] + after, before + [(0x61 + letter) as char] + after;
    assert forall i | 0 <= i < |upper| :: FoldCharacter(upper[i]) == FoldCharacter(lower[i]);
    if forall c | c in a + b :: !('a' <= c <= 'z') {
      assert forall c | c in a || c in b :: c in a + b;
      AlreadyFolded(a);
      AlreadyFolded(b);
    }
  }

  lemma AlreadyFolded(s: string)
    requires forall c | c in s :: !('a' <= c <= 'z')
    ensures Folded(s) == s
  {
    assert forall i | 0 <= i < |s| :: s[i] in s;
  }

  predicate IsWhiteSpace(c: char) {
    || c == ' ' || '\t' <= c <= '\r'
    || c == 0x85 as char || c == 0xA0 as char || c == 0x1680 as char
    || 0x2000 as char <= c <= 0x200A as char
    || c == 0x2028 as char || c == 0x2029 as char || c == 0x202F as char || c == 0x205F as char || c == 0x3000 as char
  }

  /** `string.IsNullOrWhiteSpace`, with null as the empty string. */
  predicate Blank(s: string) {
    forall c | c in s :: IsWhiteSpace(c)
  }

  /** A hash as `Sha256File` spells it: lower-case hexadecimal. */
  type Sha = s: string | s != "" && forall c | c in s :: c in "0123456789abcdef" witness "0"

  lemma ShaIsNotBlank(s: Sha)
    ensures !Blank(s)
  {
    assert s[0] in s;
  }
}
