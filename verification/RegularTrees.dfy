/** The walk that lists a directory tree without following links. */
module RegularTrees {
  import opened Wrappers
  import opened Listings
  import opened Texts

  const SLASH: char := '/'

  /** A file name. No file system allows a slash in one, and Windows allows none of the others. */
  type Name = s: string | s != "" && SLASH !in s && ':' !in s && '|' !in s && '\n' !in s witness "a"

  /** A location below the root, which is the empty path. */
  type Path = seq<Name>

  datatype Node = Directory | File(sha: Sha) | Link

  type Tree = map<Path, Node>

  function Parent(p: Path): Path
    requires p != []
  {
    p[..|p| - 1]
  }

  /** Every node but the root lies in a directory. */
  ghost predicate WellFormed(t: Tree) {
    && [] in t
    && forall p | p in t && p != [] :: Parent(p) in t && t[Parent(p)].Directory?
  }

  datatype Entry = Entry(path: Path, isDirectory: bool, isEmptyDirectory: bool)

  function Children(t: Tree, directory: Path): set<Path> {
    set p | p in t && p != [] && Parent(p) == directory
  }

  function EntryOf(t: Tree, p: Path): Entry
    requires p in t
  {
    Entry(p, t[p].Directory?, t[p].Directory? && Children(t, p) == {})
  }

  /** Reads one directory, in the order in which the file system happens to enumerate it. */
  method ReadDirectory(t: Tree, directory: Path) returns (r: Result<(seq<Path>, seq<Path>), ()>)
    requires directory in t && t[directory].Directory?
    ensures r.Failure? <==> exists p | p in Children(t, directory) :: t[p].Link?
    ensures r.Success? ==>
              && Distinct(r.value.0) && Distinct(r.value.1)
              && (forall p :: p in r.value.0 <==> p in Children(t, directory) && t[p].Directory?)
              && (forall p :: p in r.value.1 <==> p in Children(t, directory) && t[p].File?)
  {
    var rest := Children(t, directory);
    var directories: seq<Path>, files: seq<Path> := [], [];
    while rest != {}
      invariant rest <= Children(t, directory)
      invariant Distinct(directories) && Distinct(files)
      invariant forall p :: p in directories <==> p in Children(t, directory) - rest && t[p].Directory?
      invariant forall p :: p in files <==> p in Children(t, directory) - rest && t[p].File?
      invariant forall p | p in Children(t, directory) - rest :: !t[p].Link?
      decreases |rest|
    {
      var child :| child in rest;
      match t[child] {
        case Link => return Failure(());
        case Directory => directories := directories + [child];
        case File(_) => files := files + [child];
      }
      rest := rest - {child};
    }
    return Success((directories, files));
  }

  // ---- The walk ----

  /** A node that the walk has listed: a file with its directory, a directory when it is read. */
  predicate IsListed(t: Tree, read: set<Path>, p: Path)
    requires p in t && p != []
  {
    if t[p].Directory? then p in read else Parent(p) in read
  }

  ghost predicate Walked(t: Tree, read: set<Path>, pending: seq<Path>, entries: seq<Entry>) {
    && (forall d | d in read :: d in t && t[d].Directory? && (d != [] ==> Parent(d) in read))
    && Distinct(pending)
    && (forall q :: q in pending <==> q in t && t[q].Directory? && q !in read && (q == [] || Parent(q) in read))
    && (forall p | p in t && p != [] && Parent(p) in read :: !t[p].Link?)
    && Listed(t, read, entries)
  }

  ghost predicate Listed(t: Tree, read: set<Path>, entries: seq<Entry>) {
    && Distinct(entries)
    && (forall e :: e in entries <==>
          e.path in t && e.path != [] && !t[e.path].Link? && IsListed(t, read, e.path) && e == EntryOf(t, e.path))
  }

  function EntriesOf(t: Tree, paths: seq<Path>): seq<Entry>
    requires forall p | p in paths :: p in t
  {
    seq(|paths|, i requires 0 <= i < |paths| => EntryOf(t, paths[i]))
  }

  lemma EntriesOfMembers(t: Tree, paths: seq<Path>)
    requires Distinct(paths) && forall p | p in paths :: p in t
    ensures Distinct(EntriesOf(t, paths))
    ensures forall e :: e in EntriesOf(t, paths) <==> e.path in paths && e == EntryOf(t, e.path)
  {
    var entries := EntriesOf(t, paths);
    forall e
      ensures e in entries <==> e.path in paths && e == EntryOf(t, e.path)
    {
      if e.path in paths && e == EntryOf(t, e.path) {
        var i :| 0 <= i < |paths| && paths[i] == e.path;
        assert entries[i] == e;
      }
    }
  }

  lemma DistinctConcat<T>(a: seq<T>, b: seq<T>)
    requires Distinct(a) && Distinct(b) && forall x | x in a :: x !in b
    ensures Distinct(a + b)
  {
    forall i, j | 0 <= i < j < |a + b|
      ensures (a + b)[i] != (a + b)[j]
    {
      if i < |a| <= j { assert (a + b)[i] in a && (a + b)[j] in b; }
    }
  }

  lemma ReadOne(t: Tree, read: set<Path>, rest: seq<Path>, entries: seq<Entry>, d: Path, directories: seq<Path>, files: seq<Path>)
    requires WellFormed(t) && Walked(t, read, rest + [d], entries)
    requires Distinct(directories) && forall p :: p in directories <==> p in Children(t, d) && t[p].Directory?
    requires Distinct(files) && forall p :: p in files <==> p in Children(t, d) && t[p].File?
    requires forall p | p in Children(t, d) :: !t[p].Link?
    ensures Walked(t, read + {d}, rest + directories, entries + EntriesOf(t, files) + if d == [] then [] else [EntryOf(t, d)])
  {
    assert d in rest + [d];
    PendingAfter(t, read, rest, entries, d, directories);
    ListedAfter(t, read, rest, entries, d, files);
  }

  lemma PendingAfter(t: Tree, read: set<Path>, rest: seq<Path>, entries: seq<Entry>, d: Path, directories: seq<Path>)
    requires Walked(t, read, rest + [d], entries)
    requires Distinct(directories) && forall p :: p in directories <==> p in Children(t, d) && t[p].Directory?
    ensures Distinct(rest + directories)
    ensures forall q :: q in rest + directories <==>
              q in t && t[q].Directory? && q !in read + {d} && (q == [] || Parent(q) in read + {d})
  {
    LastIsElsewhere(rest, d);
    forall q | q in rest
      ensures q !in directories
    {
      assert q in rest + [d];
    }
    DistinctConcat(rest, directories);
    forall q
      ensures q in rest + directories <==>
              q in t && t[q].Directory? && q !in read + {d} && (q == [] || Parent(q) in read + {d})
    {
      NextPending(t, read, rest, entries, d, q);
    }
  }

  lemma LastIsElsewhere(rest: seq<Path>, d: Path)
    requires Distinct(rest + [d])
    ensures d !in rest && Distinct(rest)
    ensures forall q :: q in rest + [d] <==> q in rest || q == d
  {
    var all := rest + [d];
    assert all[|rest|] == d && forall i | 0 <= i < |rest| :: all[i] == rest[i];
  }

  lemma NextPending(t: Tree, read: set<Path>, rest: seq<Path>, entries: seq<Entry>, d: Path, q: Path)
    requires Walked(t, read, rest + [d], entries)
    ensures q in t && t[q].Directory? && q !in read + {d} && (q == [] || Parent(q) in read + {d})
            <==> q in rest || (q in Children(t, d) && t[q].Directory?)
  {
    hide Listed;
    LastIsElsewhere(rest, d);
    assert d in rest + [d];
    if q in Children(t, d) {
      assert q !in read;
      assert |Parent(q)| == |q| - 1;
    }
    assert q in rest + [d] <==> q in rest || q == d;
  }

  lemma ListedAfter(t: Tree, read: set<Path>, rest: seq<Path>, entries: seq<Entry>, d: Path, files: seq<Path>)
    requires WellFormed(t) && Walked(t, read, rest + [d], entries)
    requires Distinct(files) && forall p :: p in files <==> p in Children(t, d) && t[p].File?
    ensures Listed(t, read + {d}, entries + EntriesOf(t, files) + if d == [] then [] else [EntryOf(t, d)])
  {
    assert d in rest + [d];
    EntriesOfMembers(t, files);
    var added := EntriesOf(t, files);
    var own := if d == [] then [] else [EntryOf(t, d)];
    DistinctConcat(entries, added);
    DistinctConcat(entries + added, own);
  }

  /** The path with forward slashes. */
  function RelativePath(p: Path): string {
    if p == [] then "" else if |p| == 1 then p[0] else p[0] + [SLASH] + RelativePath(p[1..])
  }

  lemma {:induction false} RelativePathIsInjective(p: Path, q: Path)
    requires RelativePath(p) == RelativePath(q)
    ensures p == q
  {
    if p == [] || q == [] {
    } else {
      var restP := if |p| == 1 then "" else [SLASH] + RelativePath(p[1..]);
      var restQ := if |q| == 1 then "" else [SLASH] + RelativePath(q[1..]);
      assert RelativePath(p) == p[0] + restP && RelativePath(q) == q[0] + restQ;
      NamesEndAtSlash(p[0], restP, q[0], restQ);
      if |p| > 1 && |q| > 1 {
        assert restP[1..] == RelativePath(p[1..]) && restQ[1..] == RelativePath(q[1..]);
        RelativePathIsInjective(p[1..], q[1..]);
      }
      assert p == [p[0]] + p[1..] && q == [q[0]] + q[1..];
    }
  }

  lemma NamesEndAtSlash(a: Name, x: string, b: Name, y: string)
    requires a + x == b + y
    requires (x == "" || x[0] == SLASH) && (y == "" || y[0] == SLASH)
    ensures a == b && x == y
  {
    if |b| < |a| { LongerNameDiffers(a, x, b, y); }
    if |a| < |b| { LongerNameDiffers(b, y, a, x); }
    assert (a + x)[..|a|] == a && (b + y)[..|b|] == b && (a + x)[|a|..] == x && (b + y)[|b|..] == y;
  }

  lemma LongerNameDiffers(a: Name, x: string, b: Name, y: string)
    requires |b| < |a| && (y == "" || y[0] == SLASH)
    ensures a + x != b + y
  {
    assert a[|b|] in a && (a + x)[|b|] == a[|b|];
    if y != "" { assert (b + y)[|b|] == y[0]; }
  }

  function EntryPath(e: Entry): string { RelativePath(e.path) }

  /** Every node but the root, once, sorted by path, and flagged when it is an empty directory. */
  ghost predicate IsListingOf(t: Tree, entries: seq<Entry>) {
    && Ascending(entries, EntryPath)
    && forall e :: e in entries <==> e.path in t && e.path != [] && e == EntryOf(t, e.path)
  }

  /** Walks the tree with a stack of directories still to be read. */
  method EnumerateRegularTree(t: Tree) returns (r: Result<seq<Entry>, ()>)
    requires WellFormed(t)
    ensures r.Failure? <==> !t[[]].Directory? || exists p | p in t :: t[p].Link?
    ensures r.Success? ==> IsListingOf(t, r.value)
    ensures r.Success? ==> forall e | e in r.value ::
              && (e.isDirectory <==> t[e.path].Directory?)
              && (e.isEmptyDirectory <==> t[e.path].Directory? && forall q | q in t && q != [] :: q[..|q| - 1] != e.path)
  {
    if !t[[]].Directory? { return Failure(()); }
    hide IsListed, EntryOf, IsListingOf, EntriesOf;
    var entries: seq<Entry>, pending: seq<Path> := [], [[]];
    ghost var read: set<Path> := {};
    assert Walked(t, read, pending, entries) by { NothingRead(t); }
    while pending != []
      invariant Walked(t, read, pending, entries)
      decreases |t.Keys - read|
    {
      var rest, directory := pending[..|pending| - 1], pending[|pending| - 1];
      TopOfStack(pending);
      var found := ReadDirectory(t, directory);
      if found.Failure? { return Failure(()); }
      ReadOne(t, read, rest, entries, directory, found.value.0, found.value.1);
      var hasChild := found.value.0 != [] || found.value.1 != [];
      OwnEntry(t, directory, found.value.0, found.value.1);
      entries := entries + EntriesOf(t, found.value.1) + if directory == [] then [] else [Entry(directory, true, !hasChild)];
      pending := rest + found.value.0;
      OneLess(t.Keys, read, directory);
      read := read + {directory};
    }
    EverythingIsRead(t, read, entries);
    SortedListing(t, entries);
    FlagsAreExact(t, Sorted(entries, EntryPath));
    return Success(Sorted(entries, EntryPath));
  }

  /** The flag that the walk computes from what it has read of a directory. */
  lemma OwnEntry(t: Tree, d: Path, directories: seq<Path>, files: seq<Path>)
    requires d in t && t[d].Directory? && forall p | p in Children(t, d) :: !t[p].Link?
    requires forall p :: p in directories <==> p in Children(t, d) && t[p].Directory?
    requires forall p :: p in files <==> p in Children(t, d) && t[p].File?
    ensures EntryOf(t, d) == Entry(d, true, directories == [] && files == [])
  {
    if directories != [] { assert directories[0] in directories; }
    if files != [] { assert files[0] in files; }
    if directories == [] && files == [] {
      forall p
        ensures p !in Children(t, d)
      {
        assert p !in directories && p !in files;
      }
    }
  }

  lemma FlagsAreExact(t: Tree, entries: seq<Entry>)
    requires IsListingOf(t, entries)
    ensures forall e | e in entries ::
              && e.path in t && (e.isDirectory <==> t[e.path].Directory?)
              && (e.isEmptyDirectory <==> t[e.path].Directory? && forall q | q in t && q != [] :: q[..|q| - 1] != e.path)
  {
    forall e | e in entries
      ensures e.path in t && (e.isDirectory <==> t[e.path].Directory?)
      ensures e.isEmptyDirectory <==> t[e.path].Directory? && forall q | q in t && q != [] :: q[..|q| - 1] != e.path
    {
      assert e == EntryOf(t, e.path);
      assert forall q | q in t && q != [] :: q in Children(t, e.path) <==> q[..|q| - 1] == e.path;
    }
  }

  lemma TopOfStack(pending: seq<Path>)
    requires pending != []
    ensures var n := |pending| - 1; pending == pending[..n] + [pending[n]] && pending[n] in pending
  {
  }

  lemma OneLess(all: set<Path>, read: set<Path>, d: Path)
    requires d in all && d !in read
    ensures |all - (read + {d})| < |all - read|
  {
    assert all - (read + {d}) == (all - read) - {d};
  }

  lemma NothingRead(t: Tree)
    requires [] in t && t[[]].Directory?
    ensures Walked(t, {}, [[]], [])
  {
  }

  lemma SortedListing(t: Tree, entries: seq<Entry>)
    requires Distinct(entries)
    requires forall e :: e in entries <==> e.path in t && e.path != [] && e == EntryOf(t, e.path)
    ensures IsListingOf(t, Sorted(entries, EntryPath))
  {
    forall i, j | 0 <= i < j < |entries|
      ensures EntryPath(entries[i]) != EntryPath(entries[j])
    {
      assert entries[i] in entries && entries[j] in entries;
      if EntryPath(entries[i]) == EntryPath(entries[j]) {
        RelativePathIsInjective(entries[i].path, entries[j].path);
      }
    }
    SortedAscends(entries, EntryPath);
  }

  lemma {:induction false} IsRead(t: Tree, read: set<Path>, entries: seq<Entry>, p: Path)
    requires WellFormed(t) && Walked(t, read, [], entries) && p in t && t[p].Directory?
    ensures p in read
    decreases |p|
  {
    hide Listed;
    if p != [] {
      IsRead(t, read, entries, Parent(p));
    }
    assert p !in [];
  }

  lemma EverythingIsRead(t: Tree, read: set<Path>, entries: seq<Entry>)
    requires WellFormed(t) && t[[]].Directory? && Walked(t, read, [], entries)
    ensures forall p | p in t :: !t[p].Link?
    ensures forall e :: e in entries <==> e.path in t && e.path != [] && e == EntryOf(t, e.path)
  {
    forall p | p in t && p != []
      ensures Parent(p) in read && !t[p].Link? && IsListed(t, read, p)
    {
      IsRead(t, read, entries, Parent(p));
      if t[p].Directory? { IsRead(t, read, entries, p); }
    }
  }

  /** The listing does not depend on the order in which directories are enumerated. */
  lemma ListingIsUnique(t: Tree, a: seq<Entry>, b: seq<Entry>)
    requires IsListingOf(t, a) && IsListingOf(t, b)
    ensures a == b
  {
    AscendingIsUnique(a, b, EntryPath);
  }
}
