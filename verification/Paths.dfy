/** Normalized absolute paths and the containment tests of FileSystemUtilities.

    The program compares paths with `StringComparison.OrdinalIgnoreCase`, which folds each
    character on its own. Components here are spelled in folded form, so that comparison is
    equality of strings. A path lists its volume first: `C:\Games` is `["C:", "GAMES"]`. */
module Paths {

  const SEPARATOR: char := '\\'

  /** A file, directory or volume name. */
  type Component = s: string | s != "" && SEPARATOR !in s witness "C:"

  type Path = p: seq<Component> | p != [] witness ["C:"]

  function Joined(p: Path): string {
    if |p| == 1 then p[0] else p[0] + [SEPARATOR] + Joined(p[1..])
  }

  /** The text of a normalized path. Only the root of a volume keeps its trailing separator. */
  function Spelled(p: Path): string {
    if |p| == 1 then p[0] + [SEPARATOR] else Joined(p)
  }

  /** The prefix test of `PathContains`, on the text the program compares. */
  predicate PathContains(container: Path, candidate: Path) {
    || Spelled(candidate) == Spelled(container)
    || Spelled(container) + [SEPARATOR] <= Spelled(candidate)
  }

  predicate PathsOverlap(left: Path, right: Path) {
    PathContains(left, right) || PathContains(right, left)
  }

  /** The root of a volume, which has no parent directory. */
  predicate IsVolumeRoot(p: Path) {
    |p| == 1
  }

  function Parent(p: Path): Path
    requires !IsVolumeRoot(p)
  {
    p[..|p| - 1]
  }

  /** Neither path is inside the other: their subtrees share no location. */
  predicate Disjoint(a: Path, b: Path) {
    !(a <= b) && !(b <= a)
  }

  lemma DifferAt(p: Path, q: Path, k: nat)
    requires k < |p| && k < |q| && p[k] != q[k]
    ensures Disjoint(p, q) && Disjoint(q, p)
  {
  }

  lemma ComponentsSplit(c: Component, x: string, d: Component, y: string)
    ensures c + [SEPARATOR] + x <= d + [SEPARATOR] + y <==> c == d && x <= y
    ensures c + [SEPARATOR] + x == d + [SEPARATOR] + y <==> c == d && x == y
  {
    var left, right := c + [SEPARATOR] + x, d + [SEPARATOR] + y;
    assert forall k | 0 <= k < |c| :: c[k] in c && c[k] != SEPARATOR;
    assert forall k | 0 <= k < |d| :: d[k] in d && d[k] != SEPARATOR;
    assert left[|c|] == SEPARATOR && right[|d|] == SEPARATOR;
    assert left <= right ==> forall k | 0 <= k < |left| :: left[k] == right[k];
    assert left <= right ==> |c| == |d|;
    assert left[..|c|] == c && right[..|d|] == d && left[|c| + 1..] == x && right[|d| + 1..] == y;
    if left <= right {
      assert left == right[..|left|];
    }
  }

  lemma SeparatorNotInComponent(c: Component, x: string, d: Component)
    ensures !(c + [SEPARATOR] + x <= d)
  {
    assert forall k | 0 <= k < |d| :: d[k] in d && d[k] != SEPARATOR;
    assert (c + [SEPARATOR] + x)[|c|] == SEPARATOR;
  }

  lemma {:induction false} JoinedPrefix(a: Path, b: Path)
    ensures Joined(a) + [SEPARATOR] <= Joined(b) <==> a < b
    ensures Joined(a) == Joined(b) <==> a == b
  {
    var restA := if |a| == 1 then "" else Joined(a[1..]) + [SEPARATOR];
    var restB := if |b| == 1 then "" else Joined(b[1..]);
    assert Joined(a) + [SEPARATOR] == a[0] + [SEPARATOR] + restA;
    assert |b| > 1 ==> Joined(b) == b[0] + [SEPARATOR] + restB;
    ComponentsSplit(a[0], restA, b[0], restB);
    SeparatorNotInComponent(a[0], restA, b[0]);
    SeparatorNotInComponent(b[0], restB, a[0]);
    assert a == [a[0]] + a[1..] && b == [b[0]] + b[1..];
    if |a| > 1 {
      SeparatorNotInComponent(a[0], Joined(a[1..]), b[0]);
      ComponentsSplit(a[0], Joined(a[1..]), b[0], restB);
    }
    if |a| > 1 && |b| > 1 {
      JoinedPrefix(a[1..], b[1..]);
      assert a < b <==> a[0] == b[0] && a[1..] < b[1..];
    } else if |a| == 1 && |b| > 1 {
      assert a < b <==> a[0] == b[0];
    }
  }

  lemma JoinedStartsInComponent(p: Path)
    ensures Joined(p) != "" && Joined(p)[0] != SEPARATOR
  {
  }

  /** The text test answers "is inside or equal" exactly when the container is not the root of
      a volume: the root's own trailing separator makes the tested prefix end in two. */
  lemma ContainsIsPrefix(container: Path, candidate: Path)
    ensures PathContains(container, candidate) <==>
            container <= candidate && (IsVolumeRoot(container) ==> IsVolumeRoot(candidate))
  {
    JoinedPrefix(container, candidate);
    var restA := if |container| == 1 then "" else Joined(container[1..]);
    var restB := if |candidate| == 1 then "" else Joined(candidate[1..]);
    assert Spelled(container) == container[0] + [SEPARATOR] + restA;
    assert Spelled(container) + [SEPARATOR] == container[0] + [SEPARATOR] + (restA + [SEPARATOR]);
    assert Spelled(candidate) == candidate[0] + [SEPARATOR] + restB;
    ComponentsSplit(container[0], restA, candidate[0], restB);
    ComponentsSplit(candidate[0], restB, container[0], restA);
    ComponentsSplit(container[0], restA + [SEPARATOR], candidate[0], restB);
    if |container| > 1 { JoinedStartsInComponent(container[1..]); }
    if |candidate| > 1 { JoinedStartsInComponent(candidate[1..]); }
    assert |container| == 1 ==> container == [container[0]];
    assert |candidate| == 1 ==> candidate == [candidate[0]];
    assert container <= candidate ==> container[0] == candidate[0];
  }

  /** The overlap test refuses exactly the pairs whose subtrees intersect, unless the outer of
      the two is the root of a volume and the inner is not. */
  lemma OverlapIsIntersection(a: Path, b: Path)
    ensures PathsOverlap(a, b) <==>
            !Disjoint(a, b) && (IsVolumeRoot(a) <==> IsVolumeRoot(b))
  {
    ContainsIsPrefix(a, b);
    ContainsIsPrefix(b, a);
  }
}
