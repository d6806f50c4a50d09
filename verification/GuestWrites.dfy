/** Write-generation counters: one 32-bit counter for each 64 KiB of guest RAM, by which a cache
    decides whether a digest it took of some bytes may be used again. */
module GuestWrites {
  import opened Wrappers

  type Word = x: int | 0 <= x < 0x1_0000_0000
  type Long = x: int | 0 <= x < 0x1_0000_0000_0000_0000

  const WRAP := 0x1_0000_0000
  const MEM1_SIZE := 0x0180_0000
  const MEM2_BASE := 0x1000_0000
  const MEM2_END := 0x1800_0000
  const CACHED := 0x8000_0000
  const UNCACHED := 0xC000_0000

  const GRANULE := 0x1_0000
  const TRACKED_SPAN := MEM2_END
  const GRANULE_COUNT := 0x1800
  const UNTRACKED: Long := 0xFFFF_FFFF_FFFF_FFFF

  // ---- Addresses ----

  function Canonicalize(address: Word): Word {
    if address < MEM1_SIZE then address
    else if MEM2_BASE <= address < MEM2_END then address
    else if CACHED <= address < CACHED + MEM1_SIZE then address - CACHED
    else if CACHED + MEM2_BASE <= address < CACHED + MEM2_END then address - CACHED
    else if UNCACHED <= address < UNCACHED + MEM1_SIZE then address - UNCACHED
    else if UNCACHED + MEM2_BASE <= address < UNCACHED + MEM2_END then address - UNCACHED
    else address
  }

  /** The 24 MiB from zero and the 128 MiB from 0x10000000. */
  predicate IsRam(physical: int) {
    0 <= physical < 0x180_0000 || 0x1000_0000 <= physical < 0x1800_0000
  }

  /** The physical, cached and uncached addresses of a byte of RAM, and no others, are brought to
      that byte. Every other address stays as it is. */
  lemma CanonicalizeMeansAlias(address: Word, physical: Word)
    ensures IsRam(physical) ==>
              (Canonicalize(address) == physical
               <==> address == physical || address == physical + 0x8000_0000 || address == physical + 0xC000_0000)
    ensures !IsRam(address) && !IsRam(address - 0x8000_0000) && !IsRam(address - 0xC000_0000) ==>
              Canonicalize(address) == address
  {
  }

  // ---- Ranges of granules ----

  /** Bytes `start` up to `end` of physical memory. */
  datatype Extent = Extent(start: nat, end: nat)
  {
    predicate Covers(granule: nat) {
      start < end && start / GRANULE <= granule <= (end - 1) / GRANULE
    }
  }

  /** The extent that a generation answers for, if it is tracked. */
  function TrackedExtent(address: Word, size: Word): (e: Option<Extent>)
    ensures e.Some? ==> e.value.start < e.value.end <= TRACKED_SPAN
  {
    var start := Canonicalize(address);
    if size == 0 || start + size > TRACKED_SPAN then None else Some(Extent(start, start + size))
  }

  /** The extent that a notification bumps: what lies past the tracked span is cut off. */
  function NotifiedExtent(address: Word, size: Word): (e: Extent)
    ensures e.end <= TRACKED_SPAN || e.start == e.end
  {
    var start := Canonicalize(address);
    if size == 0 || start >= TRACKED_SPAN then Extent(0, 0)
    else Extent(start, if start + size < TRACKED_SPAN then start + size else TRACKED_SPAN)
  }

  predicate IsIn(byte: nat, granule: nat) { granule * 0x1_0000 <= byte < (granule + 1) * 0x1_0000 }

  /** The granule holds a byte of the `size` bytes from a physical address. */
  ghost predicate HoldsByteOf(granule: nat, start: nat, size: nat) {
    exists byte: nat :: IsIn(byte, granule) && start <= byte < start + size
  }

  lemma CoveredMeansHeld(e: Extent, granule: nat)
    requires e.start <= e.end
    ensures e.Covers(granule) <==> HoldsByteOf(granule, e.start, e.end - e.start)
  {
    if e.Covers(granule) {
      var byte := if e.start < granule * GRANULE then granule * GRANULE else e.start;
      assert IsIn(byte, granule) && e.start <= byte < e.start + (e.end - e.start);
    }
  }

  /** A notification bumps the granules of the tracked span that hold a byte of the write, and no
      others. */
  lemma NotifiedGranules(address: Word, size: Word, granule: nat)
    ensures NotifiedExtent(address, size).Covers(granule)
            <==> granule < 0x1800 && HoldsByteOf(granule, Canonicalize(address), size)
  {
    var start, e := Canonicalize(address), NotifiedExtent(address, size);
    CoveredMeansHeld(e, granule);
    if granule < 0x1800 && HoldsByteOf(granule, start, size) {
      var byte: nat :| IsIn(byte, granule) && start <= byte < start + size;
      assert IsIn(byte, granule) && e.start <= byte < e.start + (e.end - e.start);
    }
  }

  /** A generation answers for every granule that holds a byte of the range, and for no others; it
      answers at all when the range is not empty and ends within the tracked span. */
  lemma TrackedGranules(address: Word, size: Word, granule: nat)
    ensures TrackedExtent(address, size).Some? <==> size > 0 && Canonicalize(address) + size <= 0x1800_0000
    ensures TrackedExtent(address, size).Some? ==>
              (TrackedExtent(address, size).value.Covers(granule) <==> HoldsByteOf(granule, Canonicalize(address), size))
  {
    if TrackedExtent(address, size).Some? { CoveredMeansHeld(TrackedExtent(address, size).value, granule); }
  }

  // ---- Counters ----

  type Counters = s: seq<Word> | |s| == GRANULE_COUNT witness seq(GRANULE_COUNT, _ => 0)

  /** One step of a 32-bit counter. */
  function Next(counter: Word): Word { (counter + 1) % WRAP }

  function Bumped(counters: Counters, e: Extent): Counters {
    seq(GRANULE_COUNT, g requires 0 <= g < GRANULE_COUNT => if e.Covers(g) then Next(counters[g]) else counters[g])
  }

  function Sum(counters: seq<Word>): nat {
    if counters == [] then 0 else Sum(counters[..|counters| - 1]) + counters[|counters| - 1]
  }

  /** The generation of a range: the sum of its counters, which leaves room for a sentinel. */
  function Generation(counters: Counters, address: Word, size: Word): Long {
    var e := TrackedExtent(address, size);
    if e.None? then UNTRACKED
    else
      SumIsSmall(counters[e.value.start / GRANULE..(e.value.end - 1) / GRANULE + 1]);
      Sum(counters[e.value.start / GRANULE..(e.value.end - 1) / GRANULE + 1])
  }

  predicate CanSkipDigest(stored: Long, current: Long) {
    current != UNTRACKED && stored == current
  }

  lemma {:induction false} SumIsSmall(counters: seq<Word>)
    ensures Sum(counters) <= |counters| * (WRAP - 1)
  {
    if counters != [] {
      SumIsSmall(counters[..|counters| - 1]);
    }
  }

  /** The folded value never reaches the sentinel, so the guard against that never acts. */
  lemma FoldNeverUntracked(counters: Counters, address: Word, size: Word)
    ensures Generation(counters, address, size) == UNTRACKED <==> TrackedExtent(address, size).None?
  {
    var e := TrackedExtent(address, size);
    if e.Some? {
      SumIsSmall(counters[e.value.start / GRANULE..(e.value.end - 1) / GRANULE + 1]);
    }
  }

  function NotUntracked(folded: Long): Long {
    if folded == UNTRACKED then folded - 1 else folded
  }

  /** The shared table. */
  class GenerationTable {
    const generations: array<Word>

    ghost predicate Valid()
      reads this
    {
      generations.Length == GRANULE_COUNT
    }

    constructor ()
      ensures Valid() && fresh(generations) && generations[..] == seq(0x1800, _ => 0)
    {
      generations := new Word[GRANULE_COUNT](_ => 0);
    }

    method GenerationForRange(address: Word, size: Word) returns (folded: Long)
      requires Valid()
      ensures folded == Generation(generations[..], address, size)
    {
      if size == 0 { return UNTRACKED; }
      var start := Canonicalize(address);
      var end := start + size;
      if end <= start || end > TRACKED_SPAN { return UNTRACKED; }
      var first, last := start / GRANULE, (end - 1) / GRANULE;
      var granule := first;
      folded := 0;
      ghost var counters := generations[..];
      while granule <= last
        invariant first <= granule <= last + 1
        invariant folded == Sum(counters[first..granule]) <= (granule - first) * (WRAP - 1)
      {
        assert counters[first..granule + 1][..granule - first] == counters[first..granule];
        folded := folded + generations[granule];
        granule := granule + 1;
      }
      folded := NotUntracked(folded);
    }

    method NotifyWrite(address: Word, size: Word)
      requires Valid()
      modifies generations
      ensures generations[..] == Bumped(old(generations[..]), NotifiedExtent(address, size))
    {
      ghost var before := generations[..];
      ghost var e := NotifiedExtent(address, size);
      var start := Canonicalize(address);
      var end := start + size;
      if size != 0 && end > start && start < TRACKED_SPAN {
        var clampedEnd := if end < TRACKED_SPAN then end else TRACKED_SPAN;
        var first, last := start / GRANULE, (clampedEnd - 1) / GRANULE;
        var granule := first;
        while granule <= last
          invariant first <= granule <= last + 1
          invariant forall g | 0 <= g < GRANULE_COUNT ::
                      generations[g] == if first <= g < granule then Next(before[g]) else before[g]
        {
          generations[granule] := (generations[granule] + 1) % WRAP;
          granule := granule + 1;
        }
      }
      assert generations[..] == Bumped(before, e);
    }
  }

  // ---- Runs of writes ----

  datatype Write = Write(address: Word, size: Word)
  {
    function Target(): Extent { NotifiedExtent(address, size) }
  }

  function AfterWrites(counters: Counters, writes: seq<Write>): Counters {
    if writes == [] then counters
    else Bumped(AfterWrites(counters, writes[..|writes| - 1]), writes[|writes| - 1].Target())
  }

  /** How many of the writes landed on a granule. */
  function Landed(writes: seq<Write>, granule: nat): nat {
    if writes == [] then 0
    else Landed(writes[..|writes| - 1], granule) + if writes[|writes| - 1].Target().Covers(granule) then 1 else 0
  }

  lemma {:induction false} CounterCounts(counters: Counters, writes: seq<Write>, g: nat)
    requires g < GRANULE_COUNT
    ensures AfterWrites(counters, writes)[g] == (counters[g] + Landed(writes, g)) % WRAP
  {
    if writes != [] {
      CounterCounts(counters, writes[..|writes| - 1], g);
    }
  }

  lemma {:induction false} LandedMeansCovered(writes: seq<Write>, g: nat)
    ensures Landed(writes, g) == 0 <==> forall w | w in writes :: !w.Target().Covers(g)
  {
    if writes != [] {
      var rest, last := writes[..|writes| - 1], writes[|writes| - 1];
      LandedMeansCovered(rest, g);
      assert writes == rest + [last];
      assert forall w | w in writes :: w in rest || w == last;
    }
  }

  /** No counter of the table wraps around during the writes. */
  ghost predicate NoneWraps(counters: Counters, writes: seq<Write>) {
    forall g | 0 <= g < GRANULE_COUNT :: counters[g] + Landed(writes, g) < WRAP
  }

  lemma {:induction false} SumGrows(a: seq<Word>, b: seq<Word>)
    requires |a| == |b| && forall g | 0 <= g < |a| :: a[g] <= b[g]
    ensures Sum(a) <= Sum(b)
    ensures Sum(a) == Sum(b) <==> a == b
  {
    if a != [] {
      var n := |a| - 1;
      SumGrows(a[..n], b[..n]);
      assert a == a[..n] + [a[n]] && b == b[..n] + [b[n]];
    }
  }

  lemma CountersOnlyGrow(counters: Counters, writes: seq<Write>, g: nat)
    requires NoneWraps(counters, writes) && g < GRANULE_COUNT
    ensures AfterWrites(counters, writes)[g] == counters[g] + Landed(writes, g)
    ensures Landed(writes, g) == 0 <==> forall w | w in writes :: !w.Target().Covers(g)
  {
    CounterCounts(counters, writes, g);
    LandedMeansCovered(writes, g);
  }

  lemma SumUnchanged(counters: Counters, writes: seq<Write>, first: nat, last: nat)
    requires NoneWraps(counters, writes) && first <= last < GRANULE_COUNT
    ensures Sum(counters[first..last + 1]) == Sum(AfterWrites(counters, writes)[first..last + 1])
            <==> forall g | first <= g <= last :: Landed(writes, g) == 0
  {
    hide Landed, AfterWrites, Sum;
    var a, b := counters[first..last + 1], AfterWrites(counters, writes)[first..last + 1];
    forall k | 0 <= k < |a|
      ensures a[k] == counters[first + k] && b[k] == counters[first + k] + Landed(writes, first + k)
    {
      CountersOnlyGrow(counters, writes, first + k);
    }
    SumGrows(a, b);
    if a == b {
      forall g | first <= g <= last
        ensures Landed(writes, g) == 0
      {
        assert a[g - first] == b[g - first];
      }
    } else {
      var k :| 0 <= k < |a| && a[k] != b[k];
      assert Landed(writes, first + k) != 0;
    }
  }

  /** The skip contract: as long as no counter wraps, a stored digest is trusted exactly when its
      range is tracked and no write since has landed on a granule of the range. */
  lemma SkipMeansUntouched(counters: Counters, writes: seq<Write>, address: Word, size: Word)
    requires NoneWraps(counters, writes)
    ensures CanSkipDigest(Generation(counters, address, size), Generation(AfterWrites(counters, writes), address, size))
            <==> TrackedExtent(address, size).Some?
                 && forall w, g: nat | w in writes && TrackedExtent(address, size).value.Covers(g) :: !w.Target().Covers(g)
  {
    hide Landed, AfterWrites, Sum;
    var e := TrackedExtent(address, size);
    FoldNeverUntracked(AfterWrites(counters, writes), address, size);
    if e.Some? {
      var first, last := e.value.start / GRANULE, (e.value.end - 1) / GRANULE;
      SumUnchanged(counters, writes, first, last);
      forall g: nat | first <= g <= last
        ensures e.value.Covers(g) && (Landed(writes, g) == 0 <==> forall w | w in writes :: !w.Target().Covers(g))
      {
        CountersOnlyGrow(counters, writes, g);
      }
      if Sum(counters[first..last + 1]) == Sum(AfterWrites(counters, writes)[first..last + 1]) {
        forall w, g: nat | w in writes && e.value.Covers(g)
          ensures !w.Target().Covers(g)
        {
          assert Landed(writes, g) == 0;
        }
      } else {
        var g :| first <= g <= last && Landed(writes, g) != 0;
        var w :| w in writes && w.Target().Covers(g);
        assert w in writes && e.value.Covers(g) && w.Target().Covers(g);
      }
    }
  }

  /** How often the writes landed on the granules from `first` to before `end`. */
  function LandedOn(writes: seq<Write>, first: nat, end: nat): nat
    requires first <= end
    decreases end - first
  {
    if first == end then 0 else LandedOn(writes, first, end - 1) + Landed(writes, end - 1)
  }

  /** How often their counters wrapped around. */
  function WrapsOn(counters: Counters, writes: seq<Write>, first: nat, end: nat): nat
    requires first <= end <= GRANULE_COUNT
    decreases end - first
  {
    if first == end then 0
    else WrapsOn(counters, writes, first, end - 1) + (counters[end - 1] + Landed(writes, end - 1)) / WRAP
  }

  lemma {:induction false} SumAfterWrites(counters: Counters, writes: seq<Write>, first: nat, end: nat)
    requires first <= end <= GRANULE_COUNT
    ensures Sum(AfterWrites(counters, writes)[first..end]) + WRAP * WrapsOn(counters, writes, first, end)
            == Sum(counters[first..end]) + LandedOn(writes, first, end)
    decreases end - first
  {
    hide Landed, AfterWrites;
    if first < end {
      var now := AfterWrites(counters, writes);
      SumAfterWrites(counters, writes, first, end - 1);
      CounterCounts(counters, writes, end - 1);
      assert counters[first..end][..end - 1 - first] == counters[first..end - 1];
      assert now[first..end][..end - 1 - first] == now[first..end - 1];
    }
  }

  /** Without any assumption on the counters: a stored digest is trusted if and only if its range is
      tracked and the writes that landed on it are 2^32 for every wrap of one of its counters. */
  lemma SkipExactly(counters: Counters, writes: seq<Write>, address: Word, size: Word)
    ensures CanSkipDigest(Generation(counters, address, size), Generation(AfterWrites(counters, writes), address, size))
            <==> TrackedExtent(address, size).Some?
                 && var e := TrackedExtent(address, size).value;
                    var first, end := e.start / GRANULE, (e.end - 1) / GRANULE + 1;
                    LandedOn(writes, first, end) == WRAP * WrapsOn(counters, writes, first, end)
  {
    hide Landed, AfterWrites, Sum, LandedOn, WrapsOn;
    FoldNeverUntracked(AfterWrites(counters, writes), address, size);
    if TrackedExtent(address, size).Some? {
      var e := TrackedExtent(address, size).value;
      SumAfterWrites(counters, writes, e.start / GRANULE, (e.end - 1) / GRANULE + 1);
    }
  }

  /** On one granule: if and only if the number of writes that landed on it is a multiple of 2^32. */
  lemma SkipOnOneGranule(counters: Counters, writes: seq<Write>, address: Word, size: Word)
    requires TrackedExtent(address, size).Some?
    requires TrackedExtent(address, size).value.start / GRANULE == (TrackedExtent(address, size).value.end - 1) / GRANULE
    ensures CanSkipDigest(Generation(counters, address, size), Generation(AfterWrites(counters, writes), address, size))
            <==> Landed(writes, TrackedExtent(address, size).value.start / GRANULE) % WRAP == 0
  {
    hide Landed, AfterWrites, Sum, Generation, CanSkipDigest;
    var g := TrackedExtent(address, size).value.start / GRANULE;
    SkipExactly(counters, writes, address, size);
    assert LandedOn(writes, g, g + 1) == LandedOn(writes, g, g) + Landed(writes, g);
    assert WrapsOn(counters, writes, g, g + 1)
        == WrapsOn(counters, writes, g, g) + (counters[g] + Landed(writes, g)) / WRAP;
  }

  // ---- Memory ----

  type Memory = nat -> bv8

  /** A write that reaches memory only where its notification says. */
  ghost predicate WritesOnly(before: Memory, after: Memory, w: Write) {
    var start := Canonicalize(w.address);
    forall p: nat | !(start <= p < start + w.size) :: after(p) == before(p)
  }

  ghost predicate IsHistory(memory: seq<Memory>, writes: seq<Write>) {
    |memory| == |writes| + 1 && forall i | 0 <= i < |writes| :: WritesOnly(memory[i], memory[i + 1], writes[i])
  }

  lemma WriteOutsideGranules(before: Memory, after: Memory, w: Write, e: Extent, p: nat)
    requires WritesOnly(before, after, w)
    requires forall g: nat | e.Covers(g) :: !w.Target().Covers(g)
    requires e.start <= p < e.end <= TRACKED_SPAN
    ensures after(p) == before(p)
  {
    assert e.Covers(p / GRANULE);
  }

  lemma {:induction false} UntouchedBytes(memory: seq<Memory>, writes: seq<Write>, e: Extent, p: nat)
    requires IsHistory(memory, writes)
    requires forall w, g: nat | w in writes && e.Covers(g) :: !w.Target().Covers(g)
    requires e.start <= p < e.end <= TRACKED_SPAN
    ensures memory[|writes|](p) == memory[0](p)
  {
    if writes != [] {
      var n := |writes| - 1;
      assert WritesOnly(memory[n], memory[n + 1], writes[n]) && writes[n] in writes;
      WriteOutsideGranules(memory[n], memory[n + 1], writes[n], e, p);
      UntouchedBytes(memory[..n + 1], writes[..n], e, p);
    }
  }

  /** A reused digest is the digest of the bytes that are there now: if every write was notified,
      through whatever alias, and no counter wrapped, then a skip finds every byte of the range
      as it was when the digest was taken. */
  lemma ReusedDigestIsFresh(counters: Counters, memory: seq<Memory>, writes: seq<Write>, address: Word, size: Word)
    requires IsHistory(memory, writes) && NoneWraps(counters, writes)
    requires CanSkipDigest(Generation(counters, address, size), Generation(AfterWrites(counters, writes), address, size))
    ensures forall p: nat | Canonicalize(address) <= p < Canonicalize(address) + size ::
              memory[|writes|](p) == memory[0](p)
  {
    SkipMeansUntouched(counters, writes, address, size);
    var e := TrackedExtent(address, size).value;
    forall p: nat | e.start <= p < e.end
      ensures memory[|writes|](p) == memory[0](p)
    {
      UntouchedBytes(memory, writes, e, p);
    }
  }

  // ---- Host pointers ----

  /** The guest address of a host range, if it lies in the given contiguous alias of guest RAM. */
  function HostRangeToGuest(hostBase: Long, hostSize: Long, guestBase: Word, hostPointer: Long, size: Long): (r: Option<Word>)
    ensures r.Some? <==>
              && hostBase != 0 && hostPointer != 0 && size != 0
              && hostBase <= hostPointer && hostPointer + size <= hostBase + hostSize
    ensures r.Some? && guestBase + hostSize <= WRAP ==>
              guestBase <= r.value && r.value + size <= guestBase + hostSize
              && r.value - guestBase == hostPointer - hostBase
  {
    if hostBase == 0 || hostPointer == 0 || size == 0 || hostPointer < hostBase then None
    else
      var offset := hostPointer - hostBase;
      if offset >= hostSize || size > hostSize - offset then None
      else Some((guestBase + offset % WRAP) % WRAP)
  }
}
