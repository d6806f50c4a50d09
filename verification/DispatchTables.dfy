/** The generated table behind indirect guest calls: 256 segments by high address byte, each a
    range of 4 KiB pages, each page a slice of one sorted entry list. */
module DispatchTables {
  import opened Wrappers

  type Word = x: int | 0 <= x < 0x1_0000_0000
  type Half = x: int | 0 <= x < 0x1_0000

  datatype Record = Record(address: Word, entry: Option<nat>, fprWriteMask: bv32, preserveGprs: bool)

  datatype Page = Page(firstEntry: Word, entryCount: Half)

  datatype Segment = Segment(pages: Option<seq<Page>>, firstPage: Half, pageCount: Half)

  datatype Table = Table(segments: Option<seq<Segment>>, entries: Option<seq<Record>>, entryCount: nat)
  {
    /** The arrays are as long as their counts say. */
    predicate IsAllocated() {
      && (segments.Some? ==> |segments.value| == 256)
      && (segments.Some? ==> forall s | s in segments.value :: s.pages.Some? ==> |s.pages.value| == s.pageCount)
      && (entries.Some? ==> |entries.value| == entryCount)
    }

    predicate IsPresent() {
      segments.Some? && entries.Some? && entryCount != 0
    }
  }

  function SegmentIndex(address: Word): nat { address / 0x100_0000 }

  function PageNumber(address: Word): nat { address / 0x1000 % 0x1000 }

  predicate HasPage(s: Segment, pageNumber: nat) {
    s.pages.Some? && s.firstPage <= pageNumber < s.firstPage + s.pageCount
  }

  /** The entries that a lookup of `address` may see, as a range of indices. */
  function Slice(table: Table, address: Word): (r: (nat, nat))
    requires table.IsAllocated() && table.IsPresent()
    ensures r.0 <= r.1 <= table.entryCount
  {
    var s := table.segments.value[SegmentIndex(address)];
    var pageNumber := PageNumber(address);
    if !HasPage(s, pageNumber) then (0, 0)
    else
      assert s in table.segments.value;
      var page := s.pages.value[pageNumber - s.firstPage];
      if page.firstEntry > table.entryCount || page.entryCount > table.entryCount - page.firstEntry then (0, 0)
      else (page.firstEntry, page.firstEntry + page.entryCount)
  }

  predicate SortedIn(entries: seq<Record>, low: nat, high: nat)
    requires low <= high <= |entries|
  {
    forall i, j | low <= i < j < high :: entries[i].address < entries[j].address
  }

  /** An answer to a lookup of `address`: a record of that address from its slice, or nothing,
      which on a sorted slice means that the slice does not hold the address. */
  ghost predicate MayAnswer(table: Table, address: Word, r: Option<nat>)
    requires table.IsAllocated() && table.IsPresent()
  {
    var (low, high) := Slice(table, address);
    && (r.Some? ==> low <= r.value < high && table.entries.value[r.value].address == address)
    && (SortedIn(table.entries.value, low, high) && r.None? ==>
          forall i | low <= i < high :: table.entries.value[i].address != address)
  }

  /** The search, which reads inside the slice whatever the table holds. */
  method FindStaticIndirectDispatchEntry(table: Option<Table>, address: Word) returns (r: Option<nat>)
    requires table.Some? ==> table.value.IsAllocated()
    ensures table.Some? && table.value.segments.Some? && table.value.entries.Some? && table.value.entryCount > 0 ==>
              MayAnswer(table.value, address, r)
    ensures table.None? || table.value.segments.None? || table.value.entries.None? || table.value.entryCount == 0 ==> r.None?
  {
    hide PageNumber;
    if table.None? || !table.value.IsPresent() { return None; }
    var entries := table.value.entries.value;
    var s := table.value.segments.value[SegmentIndex(address)];
    var pageNumber := PageNumber(address);
    if s.pages.None? || pageNumber < s.firstPage { return None; }
    var relativePage := pageNumber - s.firstPage;
    if relativePage >= s.pageCount { return None; }
    assert s in table.value.segments.value;
    var page := s.pages.value[relativePage];
    var first, count := page.firstEntry, page.entryCount;
    if first > table.value.entryCount || count > table.value.entryCount - first { return None; }
    var lower, upper := first, first + count;
    while lower < upper
      invariant first <= lower <= upper <= first + count
      invariant SortedIn(entries, first, first + count) ==> forall i | first <= i < lower :: entries[i].address < address
      invariant SortedIn(entries, first, first + count) ==> forall i | upper <= i < first + count :: entries[i].address >= address
    {
      var middle := lower + (upper - lower) / 2;
      if entries[middle].address < address {
        lower := middle + 1;
      } else {
        upper := middle;
      }
    }
    return if lower < first + count && entries[lower].address == address then Some(lower) else None;
  }

  // ---- Against a linear scan ----

  /** The first entry of an address among all entries. */
  function Scan(entries: seq<Record>, address: Word, from: nat): (r: Option<nat>)
    requires from <= |entries|
    ensures r.Some? ==> from <= r.value < |entries| && entries[r.value].address == address
    ensures r.None? ==> forall i | from <= i < |entries| :: entries[i].address != address
    decreases |entries| - from
  {
    if from == |entries| then None
    else if entries[from].address == address then Some(from)
    else Scan(entries, address, from + 1)
  }

  /** The 4 KiB page `pageNumber` of the segment `segment` holds the address. */
  predicate IsOnPage(address: Word, segment: nat, pageNumber: nat) {
    && segment < 256 && pageNumber < 4096
    && segment * 0x100_0000 + pageNumber * 4096 <= address < segment * 0x100_0000 + (pageNumber + 1) * 4096
  }

  /** The table stores the page, and entry `i` is in the range of the page. */
  predicate Lists(table: Table, segment: nat, pageNumber: nat, i: nat)
    requires table.IsAllocated() && table.IsPresent()
  {
    segment < 256 &&
    var s := table.segments.value[segment];
    assert s in table.segments.value;
    s.pages.Some? && s.firstPage <= pageNumber < s.firstPage + s.pageCount &&
    var page := s.pages.value[pageNumber - s.firstPage];
    page.firstEntry + page.entryCount <= table.entryCount && page.firstEntry <= i < page.firstEntry + page.entryCount
  }

  /** Every entry is listed by the page its address is on. */
  ghost predicate IsIndexed(table: Table)
    requires table.IsAllocated() && table.IsPresent()
  {
    forall i: nat, segment: nat, pageNumber: nat |
      i < table.entryCount && IsOnPage(table.entries.value[i].address, segment, pageNumber) ::
      Lists(table, segment, pageNumber, i)
  }

  /** The layout of a generated table: a stored page lists exactly the entries on it, and no entry
      is on a page that is not stored. */
  ghost predicate IsLaidOut(table: Table)
    requires table.IsAllocated() && table.IsPresent()
  {
    forall i: nat, segment: nat, pageNumber: nat | i < table.entryCount ::
      Lists(table, segment, pageNumber, i) <==> IsOnPage(table.entries.value[i].address, segment, pageNumber)
  }

  /** Every address is on one page. */
  lemma PageOf(address: Word, segment: nat, pageNumber: nat)
    ensures IsOnPage(address, segment, pageNumber) <==> segment == SegmentIndex(address) && pageNumber == PageNumber(address)
  {
    var pages := address / 0x1000;
    assert pages / 4096 == SegmentIndex(address);
    if IsOnPage(address, segment, pageNumber) {
      assert pages == segment * 4096 + pageNumber;
    }
  }

  /** What a lookup may see is what the page of the address lists. */
  lemma SliceIsPage(table: Table, address: Word, segment: nat, pageNumber: nat, i: nat)
    requires table.IsAllocated() && table.IsPresent() && IsOnPage(address, segment, pageNumber)
    ensures Lists(table, segment, pageNumber, i) <==> Slice(table, address).0 <= i < Slice(table, address).1
  {
    hide IsOnPage;
    PageOf(address, segment, pageNumber);
  }

  /** On a sorted table the search answers every address as a scan of all entries would, if and
      only if every entry is listed by the page its address is on. The layout of a generated table
      gives that. */
  lemma SearchIsScan(table: Table)
    requires table.IsAllocated() && table.IsPresent()
    requires SortedIn(table.entries.value, 0, table.entryCount)
    ensures IsIndexed(table) <==>
            forall address: Word, r: Option<nat> | MayAnswer(table, address, r) :: r == Scan(table.entries.value, address, 0)
    ensures IsLaidOut(table) ==> IsIndexed(table)
  {
    hide IsOnPage, Lists, MayAnswer;
    var entries := table.entries.value;
    if IsIndexed(table) {
      forall address: Word, r: Option<nat> | MayAnswer(table, address, r)
        ensures r == Scan(entries, address, 0)
      {
        IndexedSearchIsScan(table, address, r);
      }
    } else {
      var i: nat, segment: nat, pageNumber: nat :|
        && i < table.entryCount && IsOnPage(entries[i].address, segment, pageNumber)
        && !Lists(table, segment, pageNumber, i);
      MissedEntry(table, i, segment, pageNumber);
    }
  }

  lemma IndexedSearchIsScan(table: Table, address: Word, r: Option<nat>)
    requires table.IsAllocated() && table.IsPresent() && IsIndexed(table)
    requires SortedIn(table.entries.value, 0, table.entryCount)
    requires MayAnswer(table, address, r)
    ensures r == Scan(table.entries.value, address, 0)
  {
    hide IsOnPage, Lists;
    var scanned := Scan(table.entries.value, address, 0);
    if scanned.Some? {
      PageOf(address, SegmentIndex(address), PageNumber(address));
      SliceIsPage(table, address, SegmentIndex(address), PageNumber(address), scanned.value);
    }
  }

  lemma MissedEntry(table: Table, i: nat, segment: nat, pageNumber: nat)
    requires table.IsAllocated() && table.IsPresent() && i < table.entryCount
    requires IsOnPage(table.entries.value[i].address, segment, pageNumber) && !Lists(table, segment, pageNumber, i)
    requires SortedIn(table.entries.value, 0, table.entryCount)
    ensures MayAnswer(table, table.entries.value[i].address, None)
    ensures Scan(table.entries.value, table.entries.value[i].address, 0) == Some(i)
  {
    hide IsOnPage, Lists;
    SliceIsPage(table, table.entries.value[i].address, segment, pageNumber, i);
  }
}
