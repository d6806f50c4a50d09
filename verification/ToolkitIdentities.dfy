/** The texts whose hashes identify toolkit content. SHA-256 is taken as injective, so an identity
    stands for its text. */
module ToolkitIdentities {
  import opened Wrappers
  import opened Listings
  import opened RegularTrees
  import opened Texts

  type Entries = map<string, string>

  type Item = (string, string)

  function KeyOf(item: Item): string { item.0 }

  /** The items of a `SortedDictionary`, as it enumerates them. */
  ghost predicate Lists(items: seq<Item>, entries: Entries) {
    && Ascending(items, KeyOf)
    && forall item: Item :: item in items <==> item.0 in entries && entries[item.0] == item.1
  }

  lemma ListedOnce(a: seq<Item>, b: seq<Item>, entries: Entries)
    requires Lists(a, entries) && Lists(b, entries)
    ensures a == b
  {
    AscendingIsUnique(a, b, KeyOf);
  }

  // ---- The text ----

  function Line(item: Item): string {
    item.0 + "|" + item.1 + "\n"
  }

  function Lines(items: seq<Item>): string {
    if items == [] then "" else Line(items[0]) + Lines(items[1..])
  }

  function Text(version: string, items: seq<Item>): string {
    version + "\n" + Lines(items)
  }

  /** Builds the text item by item. */
  method BuildIdentity(version: string, items: seq<Item>) returns (text: string)
    ensures text == Text(version, items)
  {
    text := version + "\n";
    var i := 0;
    while i < |items|
      invariant 0 <= i <= |items|
      invariant text + Lines(items[i..]) == Text(version, items)
    {
      assert items[i..][0] == items[i] && items[i..][1..] == items[i + 1..];
      assert text + (Line(items[i]) + Lines(items[i + 1..])) == (text + Line(items[i])) + Lines(items[i + 1..]);
      text := text + Line(items[i]);
      i := i + 1;
    }
    assert text + "" == text;
  }

  /** No path holds a line break, and no hash a line break or a bar. */
  predicate IsClean(item: Item) {
    '\n' !in item.0 && '\n' !in item.1 && '|' !in item.1
  }

  ghost predicate AreClean(entries: Entries) {
    forall key | key in entries :: IsClean((key, entries[key]))
  }

  lemma SplitAtFirst(a: string, x: string, b: string, y: string, c: char)
    requires a + [c] + x == b + [c] + y && c !in a && c !in b
    ensures a == b && x == y
  {
    if |a| < |b| { FirstIsNotLater(b, y, a, x, c); }
    if |b| < |a| { FirstIsNotLater(a, x, b, y, c); }
    assert (a + [c] + x)[..|a|] == a && (b + [c] + y)[..|b|] == b;
    assert (a + [c] + x)[|a| + 1..] == x && (b + [c] + y)[|b| + 1..] == y;
  }

  lemma FirstIsNotLater(a: string, x: string, b: string, y: string, c: char)
    requires |b| < |a| && c !in a
    ensures a + [c] + x != b + [c] + y
  {
    assert a[|b|] in a && (a + [c] + x)[|b|] == a[|b|];
    assert (b + [c] + y)[|b|] == c;
  }

  lemma SplitAtLast(a: string, x: string, b: string, y: string, c: char)
    requires a + [c] + x == b + [c] + y && c !in x && c !in y
    ensures a == b && x == y
  {
    if |a| < |b| { LastIsNotEarlier(a, x, b, y, c); }
    if |b| < |a| { LastIsNotEarlier(b, y, a, x, c); }
    assert (a + [c] + x)[..|a|] == a && (b + [c] + y)[..|b|] == b;
    assert (a + [c] + x)[|a| + 1..] == x && (b + [c] + y)[|b| + 1..] == y;
  }

  lemma LastIsNotEarlier(a: string, x: string, b: string, y: string, c: char)
    requires |a| < |b| && c !in x
    ensures a + [c] + x != b + [c] + y
  {
    var left, right := a + [c] + x, b + [c] + y;
    assert right[|b|] == c;
    if |left| == |right| {
      assert left[|b|] == x[|b| - |a| - 1] && x[|b| - |a| - 1] in x;
    }
  }

  lemma {:induction false} LinesAreInjective(a: seq<Item>, b: seq<Item>)
    requires (forall item | item in a :: IsClean(item)) && (forall item | item in b :: IsClean(item))
    requires Lines(a) == Lines(b)
    ensures a == b
  {
    if a != [] && b != [] {
      var contentA, contentB := a[0].0 + "|" + a[0].1, b[0].0 + "|" + b[0].1;
      assert Lines(a) == contentA + ['\n'] + Lines(a[1..]) && Lines(b) == contentB + ['\n'] + Lines(b[1..]);
      assert a[0] in a && b[0] in b;
      assert contentA == a[0].0 + ['|'] + a[0].1 && contentB == b[0].0 + ['|'] + b[0].1;
      SplitAtFirst(contentA, Lines(a[1..]), contentB, Lines(b[1..]), '\n');
      SplitAtLast(a[0].0, a[0].1, b[0].0, b[0].1, '|');
      assert (forall item | item in a[1..] :: item in a) && (forall item | item in b[1..] :: item in b);
      LinesAreInjective(a[1..], b[1..]);
      assert a == [a[0]] + a[1..] && b == [b[0]] + b[1..];
    }
  }

  /** Two identities of one kind agree if and only if they were built from the same entries. */
  lemma IdentityMeansEntries(version: string, a: Entries, b: Entries, itemsA: seq<Item>, itemsB: seq<Item>)
    requires Lists(itemsA, a) && Lists(itemsB, b) && AreClean(a) && AreClean(b)
    ensures Text(version, itemsA) == Text(version, itemsB) <==> a == b
  {
    if Text(version, itemsA) == Text(version, itemsB) {
      var n := |version| + 1;
      assert Text(version, itemsA)[n..] == Lines(itemsA) && Text(version, itemsB)[n..] == Lines(itemsB);
      forall item | item in itemsA
        ensures IsClean(item)
      {
        assert item == (item.0, item.1);
      }
      forall item | item in itemsB
        ensures IsClean(item)
      {
        assert item == (item.0, item.1);
      }
      LinesAreInjective(itemsA, itemsB);
      SameItemsSameEntries(itemsA, a, b);
    } else if a == b {
      ListedOnce(itemsA, itemsB, a);
    }
  }

  lemma SameItemsSameEntries(items: seq<Item>, a: Entries, b: Entries)
    requires Lists(items, a) && Lists(items, b)
    ensures a == b
  {
    forall key | key in a
      ensures key in b && b[key] == a[key]
    {
      assert (key, a[key]) in items;
    }
    forall key | key in b
      ensures key in a
    {
      assert (key, b[key]) in items;
    }
  }

  // ---- Subsets ----

  predicate IsSelected(key: string, prefixes: seq<string>, files: seq<string>) {
    (exists prefix | prefix in prefixes :: prefix <= key) || key in files
  }

  function Subset(entries: Entries, prefixes: seq<string>, files: seq<string>): Entries {
    map key | key in entries && IsSelected(key, prefixes, files) :: entries[key]
  }

  /** The compile identity decides the identity of every subset: equal compile texts force equal
      translation and native-toolchain texts. */
  lemma CompileIdentityDecidesSubsets(version: string, subsetVersion: string, a: Entries, b: Entries,
                                      itemsA: seq<Item>, itemsB: seq<Item>, prefixes: seq<string>, files: seq<string>,
                                      subsetA: seq<Item>, subsetB: seq<Item>)
    requires Lists(itemsA, a) && Lists(itemsB, b) && AreClean(a) && AreClean(b)
    requires Lists(subsetA, Subset(a, prefixes, files)) && Lists(subsetB, Subset(b, prefixes, files))
    requires Text(version, itemsA) == Text(version, itemsB)
    ensures Text(subsetVersion, subsetA) == Text(subsetVersion, subsetB)
  {
    IdentityMeansEntries(version, a, b, itemsA, itemsB);
    IdentityMeansEntries(subsetVersion, Subset(a, prefixes, files), Subset(b, prefixes, files), subsetA, subsetB);
  }

  lemma SelectionMeaning(key: string, prefixes: seq<string>, files: seq<string>)
    ensures IsSelected(key, prefixes, files) <==> key in files || exists i | 0 <= i < |prefixes| :: prefixes[i] <= key
  {
    if prefix :| prefix in prefixes && prefix <= key {
      var i :| 0 <= i < |prefixes| && prefixes[i] == prefix;
      assert prefixes[i] <= key;
    }
    if i :| 0 <= i < |prefixes| && prefixes[i] <= key {
      assert prefixes[i] in prefixes;
    }
  }

  /** The identity of a subset is that of the entries below its prefixes and of its files, and of no
      others. */
  lemma SubsetIdentityMeansEntries(version: string, a: Entries, b: Entries, prefixes: seq<string>, files: seq<string>,
                                   subsetA: seq<Item>, subsetB: seq<Item>)
    requires AreClean(a) && AreClean(b)
    requires Lists(subsetA, Subset(a, prefixes, files)) && Lists(subsetB, Subset(b, prefixes, files))
    ensures Text(version, subsetA) == Text(version, subsetB) <==>
            forall key | key in files || exists i | 0 <= i < |prefixes| :: prefixes[i] <= key ::
              (key in a <==> key in b) && (key in a ==> a[key] == b[key])
  {
    var subA, subB := Subset(a, prefixes, files), Subset(b, prefixes, files);
    IdentityMeansEntries(version, subA, subB, subsetA, subsetB);
    forall key
      ensures IsSelected(key, prefixes, files) <==> key in files || exists i | 0 <= i < |prefixes| :: prefixes[i] <= key
      ensures key in subA <==> key in a && IsSelected(key, prefixes, files)
      ensures key in subB <==> key in b && IsSelected(key, prefixes, files)
    {
      SelectionMeaning(key, prefixes, files);
    }
    if subA == subB {
      forall key | key in files || exists i | 0 <= i < |prefixes| :: prefixes[i] <= key
        ensures (key in a <==> key in b) && (key in a ==> a[key] == b[key])
      {
        assert key in subA <==> key in subB;
        if key in a { assert subA[key] == subB[key]; }
      }
    }
  }

  // ---- Runtime assets ----

  const BOOTSTRAP := "wii_bootstrap"
  const DSP_COEFFICIENTS := "dsp_coef.bin"
  const PIPELINE_CACHE := "initial_pipeline_cache.db"

  function KeyFor(e: RegularTrees.Entry): string {
    (if e.isDirectory then "empty-directory:" else "") + BOOTSTRAP + "/" + RelativePath(e.path)
  }

  function ValueFor(t: Tree, e: RegularTrees.Entry): string {
    if !e.isDirectory && e.path in t && t[e.path].File? then t[e.path].sha else ""
  }

  predicate IsRecorded(e: RegularTrees.Entry) { e.isEmptyDirectory || !e.isDirectory }

  /** The entries of a bootstrap tree and the two files beside it. */
  ghost predicate Describes(entries: Entries, t: Tree, dsp: Sha, pipeline: Sha) {
    && DSP_COEFFICIENTS in entries && entries[DSP_COEFFICIENTS] == dsp
    && PIPELINE_CACHE in entries && entries[PIPELINE_CACHE] == pipeline
    && (forall p | p in t && p != [] && IsRecorded(EntryOf(t, p)) ::
          KeyFor(EntryOf(t, p)) in entries && entries[KeyFor(EntryOf(t, p))] == ValueFor(t, EntryOf(t, p)))
    && (forall key | key in entries && key != DSP_COEFFICIENTS && key != PIPELINE_CACHE ::
          exists p :: p in t && p != [] && IsRecorded(EntryOf(t, p)) && KeyFor(EntryOf(t, p)) == key)
  }

  lemma KeyIsInjective(a: RegularTrees.Entry, b: RegularTrees.Entry)
    requires KeyFor(a) == KeyFor(b)
    ensures a.path == b.path && a.isDirectory == b.isDirectory
    ensures KeyFor(a) != DSP_COEFFICIENTS && KeyFor(a) != PIPELINE_CACHE
  {
    assert KeyFor(a)[0] == if a.isDirectory then 'e' else 'w';
    assert KeyFor(b)[0] == if b.isDirectory then 'e' else 'w';
    assert DSP_COEFFICIENTS[0] == 'd' && PIPELINE_CACHE[0] == 'i';
    var start := (if a.isDirectory then "empty-directory:" else "") + BOOTSTRAP + "/";
    assert KeyFor(a)[|start|..] == RelativePath(a.path) && KeyFor(b)[|start|..] == RelativePath(b.path);
    RelativePathIsInjective(a.path, b.path);
  }

  function WithRecorded(entries: Entries, t: Tree, listing: seq<RegularTrees.Entry>): Entries {
    if listing == [] then entries
    else
      var n := |listing| - 1;
      var before := WithRecorded(entries, t, listing[..n]);
      if IsRecorded(listing[n]) then before[KeyFor(listing[n]) := ValueFor(t, listing[n])] else before
  }

  /** Adds the bootstrap tree to the entries, from its listing. */
  method AddMappedDirectory(entries: Entries, t: Tree, listing: seq<RegularTrees.Entry>) returns (r: Entries)
    ensures r == WithRecorded(entries, t, listing)
  {
    r := entries;
    var i := 0;
    while i < |listing|
      invariant 0 <= i <= |listing|
      invariant r == WithRecorded(entries, t, listing[..i])
    {
      assert listing[..i + 1][..i] == listing[..i];
      if IsRecorded(listing[i]) { r := r[KeyFor(listing[i]) := ValueFor(t, listing[i])]; }
      i := i + 1;
    }
    assert listing[..i] == listing;
  }

  lemma {:induction false} RecordedKeys(t: Tree, listing: seq<RegularTrees.Entry>, key: string)
    ensures key in WithRecorded(map[], t, listing) <==>
            exists e :: e in listing && IsRecorded(e) && KeyFor(e) == key
  {
    hide KeyFor, ValueFor, IsRecorded;
    if listing != [] {
      var n := |listing| - 1;
      RecordedKeys(t, listing[..n], key);
      assert listing == listing[..n] + [listing[n]];
    }
  }

  lemma {:induction false} RecordedValues(t: Tree, listing: seq<RegularTrees.Entry>, e: RegularTrees.Entry)
    requires e in listing && IsRecorded(e)
    ensures KeyFor(e) in WithRecorded(map[], t, listing) && WithRecorded(map[], t, listing)[KeyFor(e)] == ValueFor(t, e)
  {
    hide KeyFor, IsRecorded;
    var n := |listing| - 1;
    if KeyFor(listing[n]) == KeyFor(e) { KeyIsInjective(listing[n], e); }
    if !(IsRecorded(listing[n]) && KeyFor(listing[n]) == KeyFor(e)) {
      assert listing == listing[..n] + [listing[n]];
      RecordedValues(t, listing[..n], e);
    }
  }

  function RuntimeAssets(t: Tree, listing: seq<RegularTrees.Entry>, dsp: Sha, pipeline: Sha): Entries {
    WithRecorded(map[], t, listing)[DSP_COEFFICIENTS := dsp][PIPELINE_CACHE := pipeline]
  }

  lemma RuntimeAssetsRecordNode(t: Tree, listing: seq<RegularTrees.Entry>, dsp: Sha, pipeline: Sha, p: Path)
    requires IsListingOf(t, listing) && p in t && p != [] && IsRecorded(EntryOf(t, p))
    ensures var entries := RuntimeAssets(t, listing, dsp, pipeline); var key := KeyFor(EntryOf(t, p));
            key in entries && entries[key] == ValueFor(t, EntryOf(t, p))
  {
    hide KeyFor, ValueFor, IsRecorded, WithRecorded, EntryOf;
    var e := EntryOf(t, p);
    assert e.path == p by { EntryHasPath(t, p); }
    assert e in listing;
    RecordedValues(t, listing, e);
    KeyIsInjective(e, e);
  }

  lemma EntryHasPath(t: Tree, p: Path)
    requires p in t
    ensures EntryOf(t, p).path == p
  {
  }

  lemma RuntimeAssetsKeyIsRecorded(t: Tree, listing: seq<RegularTrees.Entry>, dsp: Sha, pipeline: Sha, key: string)
    requires IsListingOf(t, listing) && key in RuntimeAssets(t, listing, dsp, pipeline)
    requires key != DSP_COEFFICIENTS && key != PIPELINE_CACHE
    ensures exists p :: p in t && p != [] && IsRecorded(EntryOf(t, p)) && KeyFor(EntryOf(t, p)) == key
  {
    hide KeyFor, ValueFor, IsRecorded, WithRecorded, EntryOf;
    RecordedKeys(t, listing, key);
    var e :| e in listing && IsRecorded(e) && KeyFor(e) == key;
    assert EntryOf(t, e.path) == e;
  }

  lemma RuntimeAssetsRecordFiles(t: Tree, listing: seq<RegularTrees.Entry>, dsp: Sha, pipeline: Sha)
    ensures var entries := RuntimeAssets(t, listing, dsp, pipeline);
            && DSP_COEFFICIENTS in entries && entries[DSP_COEFFICIENTS] == dsp
            && PIPELINE_CACHE in entries && entries[PIPELINE_CACHE] == pipeline
  {
    hide WithRecorded;
    assert DSP_COEFFICIENTS[0] != PIPELINE_CACHE[0];
  }

  lemma RuntimeAssetsDescribe(t: Tree, listing: seq<RegularTrees.Entry>, dsp: Sha, pipeline: Sha)
    requires IsListingOf(t, listing)
    ensures Describes(RuntimeAssets(t, listing, dsp, pipeline), t, dsp, pipeline)
  {
    hide KeyFor, ValueFor, IsRecorded, RuntimeAssets, EntryOf, IsListingOf;
    var entries := RuntimeAssets(t, listing, dsp, pipeline);
    RuntimeAssetsRecordFiles(t, listing, dsp, pipeline);
    forall p | p in t && p != [] && IsRecorded(EntryOf(t, p))
      ensures KeyFor(EntryOf(t, p)) in entries && entries[KeyFor(EntryOf(t, p))] == ValueFor(t, EntryOf(t, p))
    {
      RuntimeAssetsRecordNode(t, listing, dsp, pipeline, p);
    }
    forall key | key in entries && key != DSP_COEFFICIENTS && key != PIPELINE_CACHE
      ensures exists p :: p in t && p != [] && IsRecorded(EntryOf(t, p)) && KeyFor(EntryOf(t, p)) == key
    {
      RuntimeAssetsKeyIsRecorded(t, listing, dsp, pipeline, key);
    }
  }

  // ---- Equal identities, equal trees ----

  ghost predicate IsRegular(t: Tree) {
    WellFormed(t) && t[[]].Directory? && Children(t, []) != {} && forall p | p in t :: !t[p].Link?
  }

  lemma RecordedInBoth(entries: Entries, a: Tree, b: Tree, dsp: Sha, pipeline: Sha, p: Path)
    requires Describes(entries, a, dsp, pipeline) && Describes(entries, b, dsp, pipeline)
    requires IsRegular(a) && IsRegular(b)
    requires p in a && p != [] && IsRecorded(EntryOf(a, p))
    ensures p in b && a[p] == b[p]
  {
    var e := EntryOf(a, p);
    KeyIsInjective(e, e);
    var q :| q in b && q != [] && IsRecorded(EntryOf(b, q)) && KeyFor(EntryOf(b, q)) == KeyFor(e);
    KeyIsInjective(EntryOf(b, q), e);
  }

  function BelowOf(t: Tree, p: Path): set<Path> {
    set q | q in t && p < q
  }

  /** Below every directory lies a file or an empty directory, or it is one. */
  lemma {:induction false} RecordedBelow(t: Tree, p: Path) returns (r: Path)
    requires IsRegular(t) && p in t && t[p].Directory?
    ensures r in t && r != [] && p <= r && IsRecorded(EntryOf(t, r))
    decreases |BelowOf(t, p)|
  {
    if Children(t, p) == {} {
      r := p;
    } else {
      var c :| c in Children(t, p);
      assert p < c;
      if t[c].Directory? {
        assert BelowOf(t, c) <= BelowOf(t, p) - {c};
        assert c in BelowOf(t, p);
        SmallerSet(BelowOf(t, c), BelowOf(t, p), c);
        r := RecordedBelow(t, c);
      } else {
        r := c;
      }
    }
  }

  lemma SmallerSet(a: set<Path>, b: set<Path>, x: Path)
    requires a <= b - {x} && x in b
    ensures |a| < |b|
  {
    SubsetSize(a, b - {x});
  }

  lemma {:induction false} SubsetSize(a: set<Path>, b: set<Path>)
    requires a <= b
    ensures |a| <= |b|
  {
    if a != {} {
      var x :| x in a;
      SubsetSize(a - {x}, b - {x});
    }
  }

  lemma {:induction false} AncestorIsDirectory(t: Tree, p: Path, r: Path)
    requires WellFormed(t) && r in t && p < r
    ensures p in t && t[p].Directory?
    decreases |r|
  {
    var above := Parent(r);
    if p != above {
      assert p < above;
      AncestorIsDirectory(t, p, above);
    }
  }

  lemma NodeInBoth(entries: Entries, a: Tree, b: Tree, dsp: Sha, pipeline: Sha, p: Path)
    requires Describes(entries, a, dsp, pipeline) && Describes(entries, b, dsp, pipeline)
    requires IsRegular(a) && IsRegular(b) && p in a
    ensures p in b && a[p] == b[p]
  {
    if a[p].Directory? {
      var r := RecordedBelow(a, p);
      RecordedInBoth(entries, a, b, dsp, pipeline, r);
      if p != r { AncestorIsDirectory(b, p, r); }
    } else {
      RecordedInBoth(entries, a, b, dsp, pipeline, p);
    }
  }

  lemma EntriesDecideTree(entries: Entries, a: Tree, b: Tree, dsp: Sha, pipeline: Sha)
    requires Describes(entries, a, dsp, pipeline) && Describes(entries, b, dsp, pipeline)
    requires IsRegular(a) && IsRegular(b)
    ensures a == b
  {
    forall p | p in a
      ensures p in b && a[p] == b[p]
    {
      NodeInBoth(entries, a, b, dsp, pipeline, p);
    }
    forall p | p in b
      ensures p in a
    {
      NodeInBoth(entries, b, a, dsp, pipeline, p);
    }
  }

  /** Products whose runtime assets have one identity hold the same tree, empty directories
      included, and the same two files. */
  lemma RuntimeAssetsIdentityDecidesTree(version: string, a: Tree, b: Tree, listingA: seq<RegularTrees.Entry>,
                                         listingB: seq<RegularTrees.Entry>, dspA: Sha, dspB: Sha, pipelineA: Sha, pipelineB: Sha,
                                         itemsA: seq<Item>, itemsB: seq<Item>)
    requires IsRegular(a) && IsRegular(b) && IsListingOf(a, listingA) && IsListingOf(b, listingB)
    requires Lists(itemsA, RuntimeAssets(a, listingA, dspA, pipelineA)) && Lists(itemsB, RuntimeAssets(b, listingB, dspB, pipelineB))
    ensures Text(version, itemsA) == Text(version, itemsB) <==> a == b && dspA == dspB && pipelineA == pipelineB
  {
    hide RuntimeAssets, Describes, IsListingOf, Lists, AreClean, IsRegular, Text;
    var entriesA, entriesB := RuntimeAssets(a, listingA, dspA, pipelineA), RuntimeAssets(b, listingB, dspB, pipelineB);
    RuntimeAssetsDescribe(a, listingA, dspA, pipelineA);
    RuntimeAssetsDescribe(b, listingB, dspB, pipelineB);
    RuntimeAssetsAreClean(entriesA, a, dspA, pipelineA);
    RuntimeAssetsAreClean(entriesB, b, dspB, pipelineB);
    IdentityMeansEntries(version, entriesA, entriesB, itemsA, itemsB);
    if entriesA == entriesB {
      FilesInBoth(entriesA, a, b, dspA, dspB, pipelineA, pipelineB);
      EntriesDecideTree(entriesA, a, b, dspA, pipelineA);
    } else if a == b && dspA == dspB && pipelineA == pipelineB {
      ListingIsUnique(a, listingA, listingB);
    }
  }

  lemma FilesInBoth(entries: Entries, a: Tree, b: Tree, dspA: Sha, dspB: Sha, pipelineA: Sha, pipelineB: Sha)
    requires Describes(entries, a, dspA, pipelineA) && Describes(entries, b, dspB, pipelineB)
    ensures dspA == dspB && pipelineA == pipelineB
  {
  }

  lemma {:induction false} RelativePathIsClean(p: Path)
    ensures '\n' !in RelativePath(p)
  {
    if |p| > 1 { RelativePathIsClean(p[1..]); }
  }

  lemma EntryIsClean(t: Tree, e: RegularTrees.Entry)
    ensures IsClean((KeyFor(e), ValueFor(t, e)))
  {
    RelativePathIsClean(e.path);
    ShaIsClean(ValueFor(t, e));
  }

  lemma ShaIsClean(s: string)
    requires forall c | c in s :: c in "0123456789abcdef"
    ensures '\n' !in s && '|' !in s
  {
  }

  lemma FileNamesAreClean()
    ensures '\n' !in DSP_COEFFICIENTS && '\n' !in PIPELINE_CACHE
  {
  }

  lemma FilesAreClean(dsp: Sha, pipeline: Sha)
    ensures IsClean((DSP_COEFFICIENTS, dsp)) && IsClean((PIPELINE_CACHE, pipeline))
  {
    hide DSP_COEFFICIENTS, PIPELINE_CACHE;
    FileNamesAreClean();
    ShaIsClean(dsp);
    ShaIsClean(pipeline);
  }

  lemma RuntimeAssetsAreClean(entries: Entries, t: Tree, dsp: Sha, pipeline: Sha)
    requires Describes(entries, t, dsp, pipeline)
    ensures AreClean(entries)
  {
    hide KeyFor, ValueFor, IsRecorded, EntryOf, IsClean;
    FilesAreClean(dsp, pipeline);
    forall key | key in entries
      ensures IsClean((key, entries[key]))
    {
      if key != DSP_COEFFICIENTS && key != PIPELINE_CACHE {
        var p :| p in t && p != [] && IsRecorded(EntryOf(t, p)) && KeyFor(EntryOf(t, p)) == key;
        EntryIsClean(t, EntryOf(t, p));
      }
    }
  }
}
