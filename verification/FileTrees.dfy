/** Files and directories as a map from paths, with the three operations an install transaction
    performs on them: creating parents, renaming a subtree, and a delete that may stop halfway. */
module FileTrees {
  import opened Paths

  type Contents = string

  datatype Node = Directory | File(contents: Contents)

  /** What a transaction entry replaces: a whole directory or a single file. */
  datatype Kind = DirectoryKind | FileKind

  type Files = map<Path, Node>

  type Relative = seq<Component>

  /** Everything at one location: `[]` is the location itself. */
  type Tree = map<Relative, Node>

  predicate IsOfKind(node: Node, kind: Kind) {
    node.Directory? <==> kind.DirectoryKind?
  }

  predicate Exists(files: Files, p: Path, kind: Kind) {
    p in files && IsOfKind(files[p], kind)
  }

  predicate ExistsAsOtherKind(files: Files, p: Path, kind: Kind) {
    p in files && !IsOfKind(files[p], kind)
  }

  function Under(files: Files, p: Path): set<Path> {
    set q | q in files && p <= q
  }

  function RelativesAt(files: Files, p: Path): set<Relative> {
    set q | q in files && p <= q :: q[|p|..]
  }

  function TreeAt(files: Files, p: Path): Tree {
    map r | r in RelativesAt(files, p) && p + r in files :: files[p + r]
  }

  /** What a copy of the part over the whole leaves. */
  predicate Includes(whole: Tree, part: Tree) {
    forall r | r in part :: r in whole && whole[r] == part[r]
  }

  /** A tree a transaction entry of this kind can hold: nothing, or something rooted in a node
      of the kind. */
  predicate HoldsKind(t: Tree, kind: Kind) {
    t == map[] || ([] in t && IsOfKind(t[[]], kind))
  }

  function StrictAncestors(p: Path): set<Path> {
    set k | 1 <= k < |p| :: p[..k]
  }

  /** Nothing above `p` is a file, so its parent directory can be made. */
  predicate ParentsAreDirectories(files: Files, p: Path) {
    forall q | q in StrictAncestors(p) :: q in files ==> files[q] == Directory
  }

  /** Every node but a volume has its parent directory. */
  predicate WellFormed(files: Files) {
    forall p | p in files && !IsVolumeRoot(p) :: Exists(files, Parent(p), DirectoryKind)
  }

  /** `Directory.CreateDirectory` makes what is missing of `places` from the top down, each below a
      directory; `made` are those it got to. */
  predicate CanMakeAll(files: Files, made: set<Path>, places: set<Path>) {
    && made <= places && made !! files.Keys
    && forall q | q in made && !IsVolumeRoot(q) :: Parent(q) in made || Exists(files, Parent(q), DirectoryKind)
  }

  /** Making the parent directory of `p`. */
  predicate CanMake(files: Files, made: set<Path>, p: Path) {
    CanMakeAll(files, made, StrictAncestors(p))
  }

  /** The missing ones of some places, down to a depth, that no file stands above. */
  function Makeable(files: Files, places: set<Path>, depth: int): set<Path> {
    set q | q in places && q !in files && |q| <= depth && ParentsAreDirectories(files, q)
  }

  lemma MakeableCanBeMade(files: Files, p: Path, places: set<Path>, depth: int)
    requires places == StrictAncestors(p) || places == StrictAncestors(p) + {p}
    ensures CanMakeAll(files, Makeable(files, places, depth), places)
    ensures ParentsAreDirectories(files, p) && depth >= |p| ==> Makeable(files, places, depth) == places - files.Keys
  {
    forall q | q in places
      ensures StrictAncestors(q) <= StrictAncestors(p) && |q| <= |p|
      ensures !IsVolumeRoot(q) ==> Parent(q) in places && Parent(q) in StrictAncestors(q)
      ensures !IsVolumeRoot(q) ==> StrictAncestors(Parent(q)) <= StrictAncestors(q)
    {
      AncestorOfAncestor(p, q);
    }
  }

  lemma AncestorOfAncestor(p: Path, q: Path)
    requires q == p || q in StrictAncestors(p)
    ensures StrictAncestors(q) <= StrictAncestors(p) && |q| <= |p|
    ensures !IsVolumeRoot(q) ==> Parent(q) in StrictAncestors(p) && Parent(q) in StrictAncestors(q)
    ensures !IsVolumeRoot(q) ==> StrictAncestors(Parent(q)) <= StrictAncestors(q)
  {
    assert forall k | 1 <= k < |q| :: q[..k] == p[..k];
    if !IsVolumeRoot(q) {
      assert Parent(q) == q[..|q| - 1] == p[..|q| - 1];
      assert forall k | 1 <= k < |q| - 1 :: Parent(q)[..k] == q[..k];
    }
  }

  function WithDirectories(files: Files, made: set<Path>): Files {
    files + map q | q in made :: Directory
  }

  function Moved(files: Files, source: Path, destination: Path): Files {
    map q | q in (files.Keys - Under(files, source)) + (set r | r in RelativesAt(files, source) :: destination + r)
      :: if destination <= q && source + q[|destination|..] in files then files[source + q[|destination|..]]
         else if q in files then files[q] else Directory
  }

  /** A recursive delete removes a directory after everything in it. */
  predicate CanDelete(files: Files, doomed: set<Path>, p: Path) {
    doomed <= Under(files, p) && forall q, x | q in doomed && x in files :: q <= x ==> x in doomed
  }

  lemma MakingKeepsWellFormed(files: Files, made: set<Path>, places: set<Path>)
    requires WellFormed(files) && CanMakeAll(files, made, places)
    ensures WellFormed(WithDirectories(files, made))
  {
  }

  lemma DeletingKeepsWellFormed(files: Files, doomed: set<Path>, p: Path)
    requires WellFormed(files) && CanDelete(files, doomed, p)
    ensures WellFormed(files - doomed)
  {
    forall q | q in files - doomed && !IsVolumeRoot(q)
      ensures Exists(files - doomed, Parent(q), DirectoryKind)
    {
      assert Exists(files, Parent(q), DirectoryKind) && Parent(q) <= q;
    }
  }

  /** Only what is at or below `p` differs, apart from parent directories made for it. */
  predicate OnlyBelow(files: Files, files': Files, p: Path) {
    && (WellFormed(files) ==> WellFormed(files'))
    && (forall q | q in files && !(p <= q) :: q in files' && files'[q] == files[q])
    && (forall q | q in files' && !(p <= q) && q !in files :: q < p && files'[q] == Directory)
  }

  /** A tree that a location can hold: every node but the top one lies in a directory. */
  predicate IsTree(t: Tree) {
    forall r | r in t && r != [] :: r[..|r| - 1] in t && t[r[..|r| - 1]] == Directory
  }

  predicate CanWrite(files: Files, p: Path, t: Tree) {
    IsTree(t) && ParentsAreDirectories(files, p)
  }

  /** Files with the tree at `p` in place of what was there, and the directories above it. */
  function Placed(files: Files, p: Path, t: Tree): Files {
    map q | q in (files.Keys - Under(files, p)) + StrictAncestors(p) + (set r | r in t :: p + r)
      :: if p <= q && q[|p|..] in t then t[q[|p|..]] else if q in files then files[q] else Directory
  }

  /** What a copy or a build leaves. Where a file stands in the way it leaves nothing. */
  function Written(files: Files, p: Path, t: Tree): Files {
    if CanWrite(files, p, t) then Placed(files, p, t) else files
  }

  lemma TreeAtMembers(files: Files, p: Path, r: Relative)
    ensures r in TreeAt(files, p) <==> p + r in files
    ensures r in TreeAt(files, p) ==> TreeAt(files, p)[r] == files[p + r]
  {
  }

  lemma TreeAtExtensional(files: Files, p: Path, files': Files, p': Path)
    requires forall r: Relative :: p + r in files <==> p' + r in files'
    requires forall r: Relative :: p + r in files ==> files[p + r] == files'[p' + r]
    ensures TreeAt(files, p) == TreeAt(files', p')
  {
  }

  lemma EmptyTree(files: Files, p: Path)
    ensures TreeAt(files, p) == map[] <==> Under(files, p) == {}
  {
    if TreeAt(files, p) != map[] {
      var r :| r in TreeAt(files, p);
      TreeAtMembers(files, p, r);
      assert p + r in Under(files, p);
    }
    if Under(files, p) != {} {
      var q :| q in Under(files, p);
      TreeAtMembers(files, p, q[|p|..]);
      assert p + q[|p|..] == q;
    }
  }

  /** Where the tree has the entry's kind, the program's existence test sees all of it. */
  lemma ExistsIsNonEmpty(files: Files, p: Path, kind: Kind)
    requires HoldsKind(TreeAt(files, p), kind)
    ensures Exists(files, p, kind) <==> TreeAt(files, p) != map[]
  {
    TreeAtMembers(files, p, []);
    assert p + [] == p;
  }

  /** Creating parents of `p` changes no tree disjoint from `p`. */
  lemma MakingParents(files: Files, made: set<Path>, p: Path, q: Path)
    requires CanMake(files, made, p)
    requires !(q <= p) || q == p
    ensures TreeAt(WithDirectories(files, made), q) == TreeAt(files, q)
  {
    forall r: Relative
      ensures q + r !in made
    {
      assert q <= q + r;
      assert q + r in StrictAncestors(p) ==> q + r < p;
    }
    TreeAtExtensional(files, q, WithDirectories(files, made), q);
  }

  /** A rename carries the whole subtree and leaves every disjoint subtree as it was. */
  lemma MoveEffect(files: Files, source: Path, destination: Path)
    requires Disjoint(source, destination)
    requires Under(files, destination) == {}
    ensures TreeAt(Moved(files, source, destination), destination) == TreeAt(files, source)
    ensures TreeAt(Moved(files, source, destination), source) == map[]
    ensures forall q: Path | Disjoint(q, source) && Disjoint(q, destination) ::
              TreeAt(Moved(files, source, destination), q) == TreeAt(files, q)
    ensures forall q: Path | !(source <= q) && !(destination <= q) ::
              (q in Moved(files, source, destination) <==> q in files) &&
              (q in files ==> Moved(files, source, destination)[q] == files[q])
  {
    hide Moved, TreeAt;
    var files' := Moved(files, source, destination);
    MovedMembers(files, source, destination);
    TreeAtExtensional(files, source, files', destination);
    EmptyTree(files', source);
    forall q: Path | Disjoint(q, source) && Disjoint(q, destination)
      ensures TreeAt(files', q) == TreeAt(files, q)
    {
      ChangedElsewhere(files, files', source, destination, q);
    }
  }

  lemma ChangedElsewhere(files: Files, files': Files, source: Path, destination: Path, q: Path)
    requires forall x: Path | !(source <= x) && !(destination <= x) ::
               (x in files' <==> x in files) && (x in files ==> files'[x] == files[x])
    requires Disjoint(q, source) && Disjoint(q, destination)
    ensures TreeAt(files', q) == TreeAt(files, q)
  {
    hide TreeAt;
    forall r: Relative
      ensures !(source <= q + r) && !(destination <= q + r)
    {
      assert q <= q + r;
      PrefixesCompare(q, source, q + r);
      PrefixesCompare(q, destination, q + r);
    }
    TreeAtExtensional(files, q, files', q);
  }

  lemma MovedMembers(files: Files, source: Path, destination: Path)
    requires Disjoint(source, destination)
    requires Under(files, destination) == {}
    ensures forall r: Relative ::
              var q := destination + r;
              (source + r in files <==> q in Moved(files, source, destination)) &&
              (source + r in files ==> files[source + r] == Moved(files, source, destination)[q])
    ensures forall q: Path | source <= q :: q !in Moved(files, source, destination)
    ensures forall q: Path | !(source <= q) && !(destination <= q) ::
              (q in Moved(files, source, destination) <==> q in files) &&
              (q in files ==> Moved(files, source, destination)[q] == files[q])
  {
    var files' := Moved(files, source, destination);
    forall r: Relative
      ensures source + r in files <==> destination + r in files'
      ensures source + r in files ==> files[source + r] == files'[destination + r]
    {
      var q := destination + r;
      assert destination <= q && q[|destination|..] == r;
      assert q !in Under(files, destination);
      if source + r in files {
        assert source <= source + r && (source + r)[|source|..] == r;
        assert r in RelativesAt(files, source);
      }
      if q in files' {
        assert q !in files;
        var r' :| r' in RelativesAt(files, source) && q == destination + r';
        assert r' == q[|destination|..] == r;
        var x :| x in files && source <= x && r == x[|source|..];
        assert source + r == x;
      }
    }
    forall q: Path | source <= q
      ensures q !in files'
    {
      if exists r :: r in RelativesAt(files, source) && q == destination + r {
        PrefixesCompare(source, destination, q);
      }
    }
  }

  lemma MovingKeepsWellFormed(files: Files, source: Path, destination: Path)
    requires WellFormed(files) && Disjoint(source, destination) && Under(files, destination) == {}
    requires StrictAncestors(destination) <= files.Keys && ParentsAreDirectories(files, destination)
    ensures WellFormed(Moved(files, source, destination))
  {
    hide Moved;
    var files' := Moved(files, source, destination);
    MovedMembers(files, source, destination);
    MovedIsSomewhere(files, source, destination);
    forall q | q in files' && !IsVolumeRoot(q)
      ensures Exists(files', Parent(q), DirectoryKind)
    {
      MovedParent(files, files', source, destination, q);
    }
  }

  lemma MovedIsSomewhere(files: Files, source: Path, destination: Path)
    ensures forall q | q in Moved(files, source, destination) :: destination <= q || q in files
  {
  }

  /** What `MovedMembers` says of a rename. */
  ghost predicate IsMoved(files: Files, files': Files, source: Path, destination: Path) {
    && (forall r: Relative ::
          (source + r in files <==> destination + r in files')
          && (source + r in files ==> files[source + r] == files'[destination + r]))
    && (forall x: Path | source <= x :: x !in files')
    && (forall x: Path | !(source <= x) && !(destination <= x) ::
          (x in files' <==> x in files) && (x in files ==> files'[x] == files[x]))
  }

  lemma MovedBelow(files: Files, files': Files, source: Path, destination: Path, r: Relative)
    requires WellFormed(files) && IsMoved(files, files', source, destination)
    requires r != [] && destination + r in files'
    ensures Exists(files', Parent(destination + r), DirectoryKind)
  {
    assert Parent(source + r) == source + r[..|r| - 1];
    assert Parent(destination + r) == destination + r[..|r| - 1];
  }

  lemma MovedParent(files: Files, files': Files, source: Path, destination: Path, q: Path)
    requires WellFormed(files) && IsMoved(files, files', source, destination)
    requires Disjoint(source, destination) && !IsVolumeRoot(q) && q in files'
    requires StrictAncestors(destination) <= files.Keys && ParentsAreDirectories(files, destination)
    ensures Exists(files', Parent(q), DirectoryKind)
  {
    var above := Parent(q);
    if q == destination {
      assert above == destination[..|destination| - 1] && above in StrictAncestors(destination);
      assert !(source <= above) && !(destination <= above);
    } else if destination <= q {
      assert q == destination + q[|destination|..];
      MovedBelow(files, files', source, destination, q[|destination|..]);
    } else {
      assert !(source <= q) && !(source <= above) && !(destination <= above);
    }
  }

  lemma PrefixesCompare(a: Path, b: Path, x: Path)
    ensures a <= x && b <= x ==> a <= b || b <= a
  {
  }

  /** What is left of a partly deleted tree still holds its kind, and is empty when all of it
      is gone. */
  lemma DeletedTree(files: Files, doomed: set<Path>, p: Path, kind: Kind)
    requires CanDelete(files, doomed, p)
    requires HoldsKind(TreeAt(files, p), kind)
    ensures HoldsKind(TreeAt(files - doomed, p), kind)
    ensures doomed == Under(files, p) ==> TreeAt(files - doomed, p) == map[]
  {
    assert p + [] == p;
    TreeAtMembers(files, p, []);
    TreeAtMembers(files - doomed, p, []);
    EmptyTree(files, p);
    EmptyTree(files - doomed, p);
    assert Under(files - doomed, p) == Under(files, p) - doomed;
  }

  /** Deleting below `p` touches nothing disjoint from `p`. */
  lemma DeletedElsewhere(files: Files, doomed: set<Path>, p: Path, q: Path)
    requires CanDelete(files, doomed, p) && Disjoint(q, p)
    ensures TreeAt(files - doomed, q) == TreeAt(files, q)
  {
  }

  lemma PlacedMembers(files: Files, p: Path, t: Tree)
    ensures forall r: Relative ::
              (p + r in Placed(files, p, t) <==> r in t) && (r in t ==> Placed(files, p, t)[p + r] == t[r])
    ensures forall q: Path | !(p <= q) ::
              (q in Placed(files, p, t) <==> q in files || q in StrictAncestors(p))
              && (q in Placed(files, p, t) ==> Placed(files, p, t)[q] == if q in files then files[q] else Directory)
  {
    forall r: Relative
      ensures (p + r in Placed(files, p, t) <==> r in t) && (r in t ==> Placed(files, p, t)[p + r] == t[r])
    {
      assert p <= p + r && (p + r)[|p|..] == r && p + r !in StrictAncestors(p);
    }
  }

  lemma PlacedKeepsWellFormed(files: Files, p: Path, t: Tree)
    requires WellFormed(files) && CanWrite(files, p, t)
    ensures WellFormed(Placed(files, p, t))
  {
    hide Placed, StrictAncestors;
    PlacedMembers(files, p, t);
    forall q | q in Placed(files, p, t) && !IsVolumeRoot(q)
      ensures Exists(Placed(files, p, t), Parent(q), DirectoryKind)
    {
      if p < q {
        var r := q[|p|..];
        assert q == p + r && Parent(q) == p + r[..|r| - 1];
      } else {
        PlacedAbove(files, p, t, q);
      }
    }
  }

  lemma PlacedAbove(files: Files, p: Path, t: Tree, q: Path)
    requires WellFormed(files) && CanWrite(files, p, t)
    requires q in Placed(files, p, t) && !(p < q) && !IsVolumeRoot(q)
    ensures Exists(Placed(files, p, t), Parent(q), DirectoryKind)
  {
    hide Placed, IsTree;
    PlacedMembers(files, p, t);
    if q == p {
      assert Parent(p) == p[..|p| - 1] && Parent(p) in StrictAncestors(p);
    } else if q in StrictAncestors(p) {
      AncestorOfAncestor(p, q);
    } else {
      assert Parent(q) <= q;
    }
  }

  /** A write changes nothing but its place, and leaves the tree there if it can. */
  lemma WrittenEffect(files: Files, p: Path, t: Tree)
    ensures OnlyBelow(files, Written(files, p, t), p)
    ensures CanWrite(files, p, t) ==> TreeAt(Written(files, p, t), p) == t
  {
    hide Placed, TreeAt;
    if CanWrite(files, p, t) {
      PlacedMembers(files, p, t);
      if WellFormed(files) { PlacedKeepsWellFormed(files, p, t); }
      var tree := TreeAt(Placed(files, p, t), p);
      forall r: Relative
        ensures (r in tree <==> r in t) && (r in t ==> tree[r] == t[r])
      {
        TreeAtMembers(Placed(files, p, t), p, r);
      }
      assert tree == t;
    }
  }

  lemma OnlyBelowKeeps(files: Files, files': Files, p: Path, q: Path)
    requires OnlyBelow(files, files', p) && Disjoint(p, q)
    ensures TreeAt(files', q) == TreeAt(files, q)
  {
    forall r: Relative
      ensures !(p <= q + r) && !(q + r < p)
    {
      assert q <= q + r;
      PrefixesCompare(p, q, q + r);
    }
    TreeAtExtensional(files, q, files', q);
  }

  /** Equal trees are equal at every location inside. */
  lemma SubTree(files: Files, p: Path, files': Files, p': Path, r: Relative)
    requires TreeAt(files, p) == TreeAt(files', p')
    ensures TreeAt(files, p + r) == TreeAt(files', p' + r)
  {
    forall x: Relative
      ensures p + r + x in files <==> p' + r + x in files'
      ensures p + r + x in files ==> files[p + r + x] == files'[p' + r + x]
    {
      assert p + r + x == p + (r + x) && p' + r + x == p' + (r + x);
      TreeAtMembers(files, p, r + x);
      TreeAtMembers(files', p', r + x);
    }
    TreeAtExtensional(files, p + r, files', p' + r);
  }
}
