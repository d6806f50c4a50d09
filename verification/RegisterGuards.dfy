/** The guards that keep a callee from changing the nonvolatile registers of its caller. */
module RegisterGuards {

  // ---- Masks ----

  const ALL_NONVOLATILE: bv32 := 0xffffc000
  const FIRST := 14
  const COUNT := 18

  function Half(mask: bv32): bv32 { mask >> 1 }

  /** Bit `i` of a mask. */
  predicate Selected(mask: bv32, i: nat) {
    if i == 0 then mask & 1 != 0 else Selected(Half(mask), i - 1)
  }

  /** `__builtin_ctz`, which is not defined on zero. */
  function LowestSetBit(mask: bv32): (i: nat)
    requires mask != 0
    decreases mask
  {
    if mask & 1 != 0 then 0 else 1 + LowestSetBit(Half(mask))
  }

  function Lowest(mask: bv32): bv32 { mask & (0 - mask) }

  /** 32-bit addition wraps, so a run that ends at bit 31 gives zero. */
  function AboveRun(mask: bv32): bv32 { mask + Lowest(mask) }

  predicate RunTest(mask: bv32) { AboveRun(mask) & (AboveRun(mask) - 1) == 0 }

  function RunFirst(mask: bv32): nat
    requires mask != 0
  {
    LowestSetBit(mask)
  }

  function RunEnd(mask: bv32): nat {
    if AboveRun(mask) == 0 then 32 else LowestSetBit(AboveRun(mask))
  }

  /** The mask selects exactly the bits from `first` up to `end`. */
  ghost predicate IsRun(mask: bv32, first: nat, end: nat) {
    first < end <= 32 && forall i | 0 <= i < 32 :: Selected(mask, i) <==> first <= i < end
  }

  lemma {:induction false} NothingSelected(i: nat)
    ensures !Selected(0, i)
  {
    if i > 0 {
      NothingSelected(i - 1);
    }
  }

  /** The masks below, seen from bit 1: the test does not care where the run starts. */
  lemma RunTestShifts(mask: bv32)
    requires mask != 0 && mask & 1 == 0
    ensures RunTest(mask) <==> RunTest(Half(mask))
    ensures AboveRun(mask) == AboveRun(Half(mask)) << 1
    ensures AboveRun(Half(mask)) != 0
  {
  }

  predicate Ones(mask: bv32) { mask & (mask + 1) == 0 }

  lemma OddRun(mask: bv32)
    requires mask & 1 == 1
    ensures RunTest(mask) <==> Ones(Half(mask))
    ensures AboveRun(mask) == mask + 1
  {
  }

  // ---- A mask has 32 bits ----

  predicate VanishesAfter(mask: bv32, n: nat) {
    if n == 0 then mask == 0 else VanishesAfter(Half(mask), n - 1)
  }

  lemma HalvingIsMonotone(a: bv32, b: bv32)
    requires a <= b
    ensures Half(a) <= Half(b)
  {
  }

  lemma VanishesStep(mask: bv32, n: nat)
    ensures VanishesAfter(mask, 0) <==> mask == 0
    ensures VanishesAfter(mask, n + 1) <==> VanishesAfter(Half(mask), n)
  {
  }

  lemma {:induction false} SmallerVanishes(mask: bv32, limit: bv32, n: nat)
    requires mask <= limit && VanishesAfter(limit, n)
    ensures VanishesAfter(mask, n)
    decreases n
  {
    hide VanishesAfter, Half;
    if n == 0 {
      VanishesStep(limit, 0);
      VanishesStep(mask, 0);
    } else {
      HalvingIsMonotone(mask, limit);
      VanishesStep(limit, n - 1);
      VanishesStep(mask, n - 1);
      SmallerVanishes(Half(mask), Half(limit), n - 1);
    }
  }

  lemma MaskVanishes(mask: bv32)
    ensures VanishesAfter(mask, 32)
  {
    assert VanishesAfter(0x3, 2) && VanishesAfter(0xf, 4);
    assert VanishesAfter(0x3f, 6) && VanishesAfter(0xff, 8);
    assert VanishesAfter(0x3ff, 10) && VanishesAfter(0xfff, 12);
    assert VanishesAfter(0x3fff, 14) && VanishesAfter(0xffff, 16);
    assert VanishesAfter(0x3ffff, 18) && VanishesAfter(0xfffff, 20);
    assert VanishesAfter(0x3fffff, 22) && VanishesAfter(0xffffff, 24);
    assert VanishesAfter(0x3ffffff, 26) && VanishesAfter(0xfffffff, 28);
    assert VanishesAfter(0x3fffffff, 30) && VanishesAfter(0xffffffff, 32);
    SmallerVanishes(mask, 0xffffffff, 32);
  }

  // ---- What the test decides ----

  /** A mask of ones from bit 0 up selects the bits below its count, and adding one to it gives
      the bit after them, or zero. */
  lemma {:induction false} OnesSelect(mask: bv32, n: nat, i: nat)
    requires VanishesAfter(mask, n) && Ones(mask)
    ensures Selected(mask, i) <==> i < OnesCount(mask)
    ensures OnesCount(mask) <= n
    ensures mask + 1 != 0 ==> LowestSetBit(mask + 1) == OnesCount(mask)
    decreases n
  {
    if mask == 0 {
      NothingSelected(i);
    } else {
      assert mask & 1 == 1 && Ones(Half(mask));
      assert mask + 1 != 0 ==> Half(mask + 1) == (Half(mask)) + 1 && (mask + 1) & 1 == 0;
      OnesSelect(Half(mask), n - 1, if i == 0 then 0 else i - 1);
    }
  }

  function OnesCount(mask: bv32): nat
    decreases mask
  {
    if mask == 0 then 0 else 1 + OnesCount(Half(mask))
  }

  /** The run that a mask passing the test selects. */
  lemma {:induction false} TestedRunSelects(mask: bv32, n: nat, i: nat)
    requires mask != 0 && VanishesAfter(mask, n) && RunTest(mask)
    ensures Selected(mask, i) <==> LowestSetBit(mask) <= i < LowestSetBit(mask) + RunLength(mask)
    ensures 0 < RunLength(mask) && LowestSetBit(mask) + RunLength(mask) <= n
    ensures AboveRun(mask) != 0 ==> LowestSetBit(AboveRun(mask)) == LowestSetBit(mask) + RunLength(mask)
    decreases n
  {
    if mask & 1 == 1 {
      OddRun(mask);
      OddIsOnes(mask);
      OnesSelect(mask, n, i);
    } else {
      RunTestShifts(mask);
      EvenHalf(mask);
      TestedRunSelects(Half(mask), n - 1, if i == 0 then 0 else i - 1);
      ShiftedLowest(AboveRun(Half(mask)));
    }
  }

  function RunLength(mask: bv32): nat
    decreases mask
  {
    if mask == 0 then 0 else if mask & 1 == 1 then OnesCount(mask) else RunLength(Half(mask))
  }

  lemma OddIsOnes(mask: bv32)
    requires mask & 1 == 1
    ensures Ones(mask) <==> Ones(Half(mask))
  {
  }

  lemma EvenHalf(mask: bv32)
    requires mask != 0 && mask & 1 == 0
    ensures Half(mask) != 0
  {
  }

  lemma ShiftedLowest(mask: bv32)
    requires mask & (mask - 1) == 0
    ensures mask << 1 != 0 ==> mask != 0 && LowestSetBit(mask << 1) == 1 + LowestSetBit(mask)
  {
    assert mask << 1 != 0 ==> (mask << 1) & 1 == 0 && Half(mask << 1) == mask;
  }

  /** The other direction: a run passes the test. */
  lemma {:induction false} RunPasses(mask: bv32, n: nat, first: nat, end: nat)
    requires VanishesAfter(mask, n) && first < end <= n
    requires forall i | 0 <= i < n :: Selected(mask, i) <==> first <= i < end
    ensures mask != 0 && RunTest(mask)
    decreases n
  {
    assert Selected(mask, first) && (Selected(mask, 0) <==> first == 0);
    NothingSelected(first);
    SelectedHalf(mask, n);
    if first == 0 {
      OddRun(mask);
      OnesPass(Half(mask), n - 1, end - 1);
    } else {
      RunPasses(Half(mask), n - 1, first - 1, end - 1);
      RunTestShifts(mask);
    }
  }

  lemma SelectedHalf(mask: bv32, n: nat)
    ensures forall i | 0 <= i < n :: Selected(Half(mask), i) == Selected(mask, i + 1)
  {
  }

  lemma {:induction false} OnesPass(mask: bv32, n: nat, end: nat)
    requires VanishesAfter(mask, n) && end <= n
    requires forall i | 0 <= i < n :: Selected(mask, i) <==> i < end
    ensures Ones(mask)
    decreases n
  {
    if n > 0 {
      assert Selected(mask, 0) <==> 0 < end;
      SelectedHalf(mask, n);
      OnesPass(Half(mask), n - 1, if end == 0 then 0 else end - 1);
      if end == 0 {
        NoBitsNoMask(mask, n);
      } else {
        OddIsOnes(mask);
      }
    }
  }

  lemma {:induction false} NoBitsNoMask(mask: bv32, n: nat)
    requires VanishesAfter(mask, n) && forall i | 0 <= i < n :: !Selected(mask, i)
    ensures mask == 0
    decreases n
  {
    if n > 0 {
      assert !Selected(mask, 0);
      SelectedHalf(mask, n);
      NoBitsNoMask(Half(mask), n - 1);
    }
  }

  /** The test holds exactly for the masks of one run, a run up to bit 31 included, and then the
      two computed indices are the ends of that run. */
  lemma RunTestMeansOneRun(mask: bv32)
    requires mask != 0
    ensures RunTest(mask) <==> exists first: nat, end: nat :: IsRun(mask, first, end)
    ensures RunTest(mask) ==> IsRun(mask, RunFirst(mask), RunEnd(mask))
  {
    MaskVanishes(mask);
    if RunTest(mask) {
      var first, end := LowestSetBit(mask), LowestSetBit(mask) + RunLength(mask);
      forall i | 0 <= i < 32
        ensures Selected(mask, i) <==> first <= i < end
      {
        TestedRunSelects(mask, 32, i);
      }
      TestedRunSelects(mask, 32, 0);
      if AboveRun(mask) == 0 { TestedRunEnds(mask); }
      assert IsRun(mask, first, end);
    }
    forall first: nat, end: nat | IsRun(mask, first, end)
      ensures RunTest(mask)
    {
      RunPasses(mask, 32, first, end);
    }
  }

  lemma TopBit()
    ensures LowestSetBit(0x80000000) == 31
  {
    assert LowestSetBit(0x2) == 1 && LowestSetBit(0x8) == 3 && LowestSetBit(0x20) == 5 && LowestSetBit(0x80) == 7;
    assert LowestSetBit(0x200) == 9 && LowestSetBit(0x800) == 11 && LowestSetBit(0x2000) == 13;
    assert LowestSetBit(0x8000) == 15 && LowestSetBit(0x20000) == 17 && LowestSetBit(0x80000) == 19;
    assert LowestSetBit(0x200000) == 21 && LowestSetBit(0x800000) == 23 && LowestSetBit(0x2000000) == 25;
    assert LowestSetBit(0x8000000) == 27 && LowestSetBit(0x20000000) == 29;
  }

  /** The sum wraps to zero only when the run ends at the last bit. */
  lemma TestedRunEnds(mask: bv32)
    requires mask != 0 && RunTest(mask) && AboveRun(mask) == 0
    ensures LowestSetBit(mask) + RunLength(mask) == 32
  {
    TopBit();
    var half := Half(mask);
    if mask & 1 == 1 {
      assert mask == 0xffffffff && half == 0x7fffffff && half + 1 == 0x80000000;
      OddIsOnes(mask);
      assert VanishesAfter(half, 31) by { MaskVanishes(mask); }
      OnesSelect(half, 31, 0);
    } else {
      RunTestShifts(mask);
      EvenHalf(mask);
      assert AboveRun(half) == 0x80000000 by { ShiftedOut(AboveRun(half)); }
      assert VanishesAfter(half, 31) by { MaskVanishes(mask); }
      TestedRunSelects(half, 31, 0);
    }
  }

  lemma ShiftedOut(a: bv32)
    requires a != 0 && a << 1 == 0
    ensures a == 0x80000000
  {
  }

  // ---- Saving and restoring ----

  /** A paired-single register. */
  datatype Fpr = Fpr(ps0: bv64, ps1: bv64)

  class CpuContext {
    const fpr: array<Fpr>
    const gpr: array<bv32>

    constructor ()
      ensures IsComplete() && fresh(fpr) && fresh(gpr)
    {
      fpr := new Fpr[32];
      gpr := new bv32[32];
    }

    ghost predicate IsComplete() {
      fpr.Length == 32 && gpr.Length == 32 && fpr as object != gpr as object
    }
  }

  /** The register file after a guard: the masked registers as at entry, the others as they are. */
  function Restored<T>(mask: bv32, atEntry: seq<T>, now: seq<T>): (r: seq<T>)
    requires |atEntry| == |now| == 32
    ensures |r| == 32
  {
    seq(32, i requires 0 <= i < 32 => if Selected(mask, i) then atEntry[i] else now[i])
  }

  /** The part of a mask that the guard looks at. */
  function Masked(mask: bv32): bv32 { mask & ALL_NONVOLATILE }

  predicate OnlyNonvolatile(mask: bv32) { mask & ALL_NONVOLATILE == mask }

  lemma HalvedBoth(a: bv32, b: bv32)
    ensures Half(a & b) == Half(a) & Half(b)
    ensures (a & b) & 1 != 0 <==> a & 1 != 0 && b & 1 != 0
  {
  }

  lemma {:induction false} SelectedBoth(a: bv32, b: bv32, i: nat)
    ensures Selected(a & b, i) <==> Selected(a, i) && Selected(b, i)
    decreases i
  {
    hide Half;
    HalvedBoth(a, b);
    if i > 0 {
      SelectedBoth(Half(a), Half(b), i - 1);
    }
  }

  /** The constant selects f14 to f31. */
  lemma NonvolatileBits(i: nat)
    requires i < 32
    ensures Selected(ALL_NONVOLATILE, i) <==> 14 <= i
  {
    hide Selected;
    assert RunTest(ALL_NONVOLATILE) && RunEnd(ALL_NONVOLATILE) == 32;
    assert RunFirst(ALL_NONVOLATILE) == 14 by {
      assert LowestSetBit(0x3ffff) == 0 && LowestSetBit(0xffffc) == 2 && LowestSetBit(0x3ffff0) == 4;
      assert LowestSetBit(0xffffc0) == 6 && LowestSetBit(0x3ffff00) == 8 && LowestSetBit(0xffffc00) == 10;
      assert LowestSetBit(0x3ffff000) == 12;
    }
    RunTestMeansOneRun(ALL_NONVOLATILE);
  }

  /** A guard looks at the bits of f14 to f31, at all of them, and at no other. */
  lemma MaskedSelects(mask: bv32, i: nat)
    requires i < 32
    ensures Selected(Masked(mask), i) <==> Selected(mask, i) && 14 <= i
  {
    SelectedBoth(mask, ALL_NONVOLATILE, i);
    NonvolatileBits(i);
  }

  /** A guard never touches f0 to f13. */
  lemma VolatileBitsUnselected(mask: bv32, i: nat)
    requires OnlyNonvolatile(mask) && i < FIRST
    ensures !Selected(mask, i)
  {
    MaskedSelects(mask, i);
  }

  /** Copies a block of registers. */
  method CopyRun(source: array<Fpr>, from: nat, target: array<Fpr>, to: nat, count: nat)
    requires source != target && from + count <= source.Length && to + count <= target.Length
    modifies target
    ensures forall k | 0 <= k < target.Length ::
              target[k] == if to <= k < to + count then source[from + (k - to)] else old(target[k])
  {
    var i := 0;
    while i < count
      invariant 0 <= i <= count && source[..] == old(source[..])
      invariant forall k | 0 <= k < target.Length ::
                  target[k] == if to <= k < to + i then source[from + (k - to)] else old(target[k])
    {
      target[to + i] := source[from + i];
      i := i + 1;
    }
  }

  /** Copies the registers of a mask one by one. */
  method CopySelected(mask: bv32, source: array<Fpr>, from: nat, target: array<Fpr>, to: nat)
    requires source != target && from + COUNT <= source.Length && to + COUNT <= target.Length
    modifies target
    ensures forall k | 0 <= k < target.Length ::
              target[k] == if to <= k < to + COUNT && Selected(mask, FIRST + (k - to)) then source[from + (k - to)]
                           else old(target[k])
  {
    hide Selected;
    var i := 0;
    while i < COUNT
      invariant 0 <= i <= COUNT && source[..] == old(source[..])
      invariant forall k | 0 <= k < target.Length ::
                  target[k] == if to <= k < to + i && Selected(mask, FIRST + (k - to)) then source[from + (k - to)]
                               else old(target[k])
    {
      if Selected(mask, FIRST + i) { target[to + i] := source[from + i]; }
      i := i + 1;
    }
  }

  class PpcNonvolatileFprGuard {
    const cpu: CpuContext?
    const mask: bv32
    var firstSlot: nat
    var slotCount: nat
    const saved: array<Fpr>
    ghost const atEntry: seq<Fpr>

    predicate IsActive() { cpu != null && mask != 0 }

    ghost predicate Valid()
      reads this, saved
    {
      && OnlyNonvolatile(mask)
      && (cpu != null ==> cpu.IsComplete() && saved != cpu.fpr && |atEntry| == 32)
      && saved.Length == COUNT
      && (IsActive() ==>
            && (forall i | FIRST <= i < 32 && Selected(mask, i) :: saved[i - FIRST] == atEntry[i])
            && (slotCount != 0 ==> IsRun(mask, FIRST + firstSlot, FIRST + firstSlot + slotCount)))
    }

    /** Saves the registers that the mask selects: as one block when they form a run, else one by one. */
    constructor (cpu: CpuContext?, mask: bv32)
      requires cpu != null ==> cpu.IsComplete()
      ensures Valid() && this.cpu == cpu && this.mask == Masked(mask) && fresh(saved)
      ensures forall i | 0 <= i < 32 :: Selected(this.mask, i) <==> Selected(mask, i) && 14 <= i
      ensures cpu != null ==> atEntry == cpu.fpr[..]
    {
      hide Selected, RunTest, AboveRun, RunFirst, RunEnd, OnlyNonvolatile, Masked, LowestSetBit, Half;
      this.cpu := cpu;
      this.mask := Masked(mask);
      firstSlot, slotCount := 0, 0;
      saved := new Fpr[COUNT];
      atEntry := if cpu != null then cpu.fpr[..] else [];
      new;
      StillMasked(mask);
      forall i | 0 <= i < 32
        ensures Selected(Masked(mask), i) <==> Selected(mask, i) && 14 <= i
      {
        MaskedSelects(mask, i);
      }
      if cpu == null || this.mask == 0 { return; }
      RunTestMeansOneRun(this.mask);
      if RunTest(this.mask) {
        var first, end := RunFirst(this.mask), RunEnd(this.mask);
        assert FIRST <= first by { RunIsNonvolatile(this.mask, first, end); }
        firstSlot := first - FIRST;
        slotCount := end - first;
        CopyRun(cpu.fpr, first, saved, firstSlot, slotCount);
        forall i | first <= i < end
          ensures saved[i - FIRST] == atEntry[i]
        {
          var k := i - FIRST;
          assert saved[k] == cpu.fpr[first + (k - firstSlot)];
        }
        assert forall i | FIRST <= i < 32 && Selected(this.mask, i) :: first <= i < end;
        assert FIRST + firstSlot == first && FIRST + firstSlot + slotCount == end;
        return;
      }
      CopySelected(this.mask, cpu.fpr, FIRST, saved, 0);
      forall i | FIRST <= i < 32 && Selected(this.mask, i)
        ensures saved[i - FIRST] == atEntry[i]
      {
        var k := i - FIRST;
        assert Selected(this.mask, FIRST + (k - 0)) && saved[k] == cpu.fpr[FIRST + (k - 0)];
      }
    }

    /** The destructor. */
    method Restore()
      requires Valid()
      modifies if cpu != null then {cpu.fpr} else {}
      ensures Valid()
      ensures cpu != null ==> cpu.fpr[..] == Restored(mask, atEntry, old(cpu.fpr[..]))
    {
      hide Selected;
      if cpu == null { return; }
      forall i | 0 <= i < FIRST
        ensures !Selected(mask, i)
      {
        VolatileBitsUnselected(mask, i);
      }
      if mask == 0 {
        forall i | 0 <= i < 32
          ensures !Selected(mask, i)
        {
          NothingSelected(i);
        }
      } else if slotCount != 0 {
        assert FIRST <= FIRST + firstSlot;
        CopyRun(saved, firstSlot, cpu.fpr, FIRST + firstSlot, slotCount);
      } else {
        CopySelected(mask, saved, 0, cpu.fpr, FIRST);
      }
      assert cpu.fpr[..] == Restored(mask, atEntry, old(cpu.fpr[..]));
    }
  }

  lemma StillMasked(mask: bv32)
    ensures OnlyNonvolatile(Masked(mask))
  {
  }

  lemma RunIsNonvolatile(mask: bv32, first: nat, end: nat)
    requires OnlyNonvolatile(mask) && IsRun(mask, first, end)
    ensures FIRST <= first
  {
    assert Selected(mask, first);
    if first < FIRST { VolatileBitsUnselected(mask, first); }
  }

  /** All of r14 to r31, or nothing when it is not enabled. */
  class PpcNonvolatileGprGuard {
    const cpu: CpuContext?
    const saved: array<bv32>
    ghost const atEntry: seq<bv32>

    ghost predicate Valid()
      reads this, saved
    {
      && saved.Length == COUNT
      && (cpu != null ==> cpu.IsComplete() && saved != cpu.gpr && |atEntry| == 32 && saved[..] == atEntry[FIRST..])
    }

    constructor (cpu: CpuContext?, enabled: bool)
      requires cpu != null ==> cpu.IsComplete()
      ensures Valid() && this.cpu == (if enabled then cpu else null) && fresh(saved)
      ensures enabled && cpu != null ==> atEntry == cpu.gpr[..]
    {
      this.cpu := if enabled then cpu else null;
      saved := new bv32[COUNT];
      atEntry := if cpu != null then cpu.gpr[..] else [];
      new;
      if this.cpu == null { return; }
      var i := 0;
      while i < COUNT
        invariant 0 <= i <= COUNT && saved[..i] == atEntry[FIRST..FIRST + i] && cpu.gpr[..] == atEntry
      {
        saved[i] := cpu.gpr[FIRST + i];
        i := i + 1;
      }
    }

    method Restore()
      requires Valid()
      modifies if cpu != null then {cpu.gpr} else {}
      ensures cpu != null ==> cpu.gpr[..] == old(cpu.gpr[..FIRST]) + atEntry[FIRST..]
    {
      if cpu == null { return; }
      var i := 0;
      while i < COUNT
        invariant 0 <= i <= COUNT && saved[..] == old(saved[..])
        invariant forall k | 0 <= k < 32 :: cpu.gpr[k] == if FIRST <= k < FIRST + i then atEntry[k] else old(cpu.gpr[k])
      {
        assert saved[..][i] == atEntry[FIRST..][i];
        cpu.gpr[FIRST + i] := saved[i];
        i := i + 1;
      }
    }
  }

  // ---- Calls within calls ----

  type Register = r: nat | r < 32

  datatype Name = F(register: Register) | G(register: Register)

  datatype Value = FprValue(fpr: Fpr) | GprValue(gpr: bv32)

  datatype Registers = Registers(fprs: seq<Fpr>, gprs: seq<bv32>)
  {
    predicate IsComplete() { |fprs| == 32 && |gprs| == 32 }

    function At(n: Name): Value
      requires IsComplete()
    {
      match n
      case F(r) => FprValue(fprs[r])
      case G(r) => GprValue(gprs[r])
    }
  }

  /** A guest call with what its dispatch record says: the write mask for the one guard, and whether
      the other is enabled. */
  datatype Call = Call(mask: bv32, preserveGprs: bool, body: Body)

  datatype Body =
    | End
    | WriteFpr(register: Register, fpr: Fpr, rest: Body)
    | WriteGpr(register: Register, gpr: bv32, rest: Body)
    | Nested(call: Call, rest: Body)

  function RunBody(body: Body, s: Registers): (r: Registers)
    requires s.IsComplete()
    ensures r.IsComplete()
  {
    match body
    case End => s
    case WriteFpr(register, fpr, rest) => RunBody(rest, s.(fprs := s.fprs[register := fpr]))
    case WriteGpr(register, gpr, rest) => RunBody(rest, s.(gprs := s.gprs[register := gpr]))
    case Nested(call, rest) => RunBody(rest, RunCall(call, s))
  }

  function RunCall(call: Call, s: Registers): (r: Registers)
    requires s.IsComplete()
    ensures r.IsComplete()
  {
    var left := RunBody(call.body, s);
    Registers(Restored(Masked(call.mask), s.fprs, left.fprs),
              if call.preserveGprs then left.gprs[..FIRST] + s.gprs[FIRST..] else left.gprs)
  }

  ghost function RegistersOf(cpu: CpuContext): (s: Registers)
    requires cpu.IsComplete()
    reads cpu.fpr, cpu.gpr
    ensures s.IsComplete()
  {
    Registers(cpu.fpr[..], cpu.gpr[..])
  }

  /** A call through both guards leaves the registers that `RunCall` says. */
  method Dispatch(cpu: CpuContext, call: Call)
    requires cpu.IsComplete()
    modifies cpu.fpr, cpu.gpr
    ensures RegistersOf(cpu) == RunCall(call, old(RegistersOf(cpu)))
    decreases call
  {
    hide Masked, Selected, Restored, RunBody;
    var gprGuard := new PpcNonvolatileGprGuard(cpu, call.preserveGprs);
    var fprGuard := new PpcNonvolatileFprGuard(cpu, call.mask);
    ghost var entry := RegistersOf(cpu);
    Execute(cpu, call.body);
    ghost var left := RegistersOf(cpu);
    fprGuard.Restore();
    assert cpu.gpr[..FIRST] == left.gprs[..FIRST];
    gprGuard.Restore();
    assert RegistersOf(cpu).gprs == if call.preserveGprs then left.gprs[..FIRST] + entry.gprs[FIRST..] else left.gprs;
    assert RegistersOf(cpu).fprs == Restored(Masked(call.mask), entry.fprs, left.fprs);
  }

  method Execute(cpu: CpuContext, body: Body)
    requires cpu.IsComplete()
    modifies cpu.fpr, cpu.gpr
    ensures RegistersOf(cpu) == RunBody(body, old(RegistersOf(cpu)))
    decreases body
  {
    match body
    case End =>
    case WriteFpr(register, fpr, rest) =>
      cpu.fpr[register] := fpr;
      assert cpu.fpr[..] == old(cpu.fpr[..])[register := fpr];
      assert RegistersOf(cpu) == old(RegistersOf(cpu)).(fprs := old(cpu.fpr[..])[register := fpr]);
      Execute(cpu, rest);
    case WriteGpr(register, gpr, rest) =>
      cpu.gpr[register] := gpr;
      assert cpu.gpr[..] == old(cpu.gpr[..])[register := gpr];
      assert RegistersOf(cpu) == old(RegistersOf(cpu)).(gprs := old(cpu.gpr[..])[register := gpr]);
      Execute(cpu, rest);
    case Nested(call, rest) =>
      Dispatch(cpu, call);
      Execute(cpu, rest);
  }

  /** One of the guards of the call puts this register back. */
  predicate IsGuarded(call: Call, n: Name) {
    match n
    case F(r) => Selected(Masked(call.mask), r)
    case G(r) => call.preserveGprs && r >= FIRST
  }

  /** The registers a call may change for its caller. */
  function CallLeaks(call: Call): set<Name> {
    set n: Name | n in BodyLeaks(call.body) && !IsGuarded(call, n)
  }

  function BodyLeaks(body: Body): set<Name> {
    match body
    case End => {}
    case WriteFpr(register, _, rest) => {F(register)} + BodyLeaks(rest)
    case WriteGpr(register, _, rest) => {G(register)} + BodyLeaks(rest)
    case Nested(call, rest) => CallLeaks(call) + BodyLeaks(rest)
  }

  /** The value that a leaked register ends with. It does not depend on the registers at entry. */
  function LeakedValue(body: Body, n: Name): Value
    requires n in BodyLeaks(body)
  {
    match body
    case WriteFpr(_, fpr, rest) => if n in BodyLeaks(rest) then LeakedValue(rest, n) else FprValue(fpr)
    case WriteGpr(_, gpr, rest) => if n in BodyLeaks(rest) then LeakedValue(rest, n) else GprValue(gpr)
    case Nested(call, rest) =>
      if n in BodyLeaks(rest) then LeakedValue(rest, n)
      else
        assert n in CallLeaks(call);
        LeakedValue(call.body, n)
  }

  lemma RunCallAt(call: Call, s: Registers, n: Name)
    requires s.IsComplete()
    ensures RunCall(call, s).At(n) == if IsGuarded(call, n) then s.At(n) else RunBody(call.body, s).At(n)
  {
    hide Masked, Selected;
  }

  lemma {:induction false} RunBodyAt(body: Body, s: Registers, n: Name)
    requires s.IsComplete()
    ensures RunBody(body, s).At(n) == if n in BodyLeaks(body) then LeakedValue(body, n) else s.At(n)
  {
    hide Masked, RunCall, IsGuarded;
    match body
    case End =>
    case WriteFpr(register, fpr, rest) => RunBodyAt(rest, s.(fprs := s.fprs[register := fpr]), n);
    case WriteGpr(register, gpr, rest) => RunBodyAt(rest, s.(gprs := s.gprs[register := gpr]), n);
    case Nested(call, rest) =>
      RunBodyAt(call.body, s, n);
      RunCallAt(call, s, n);
      RunBodyAt(rest, RunCall(call, s), n);
  }

  function OtherThan(v: Value): (s: Registers)
    ensures s.IsComplete() && forall n: Name :: s.At(n) != v
  {
    match v
    case FprValue(fpr) => Registers(seq(32, _ => Fpr(fpr.ps0 + 1, fpr.ps1)), seq(32, _ => 0))
    case GprValue(gpr) => Registers(seq(32, _ => Fpr(0, 0)), seq(32, _ => gpr + 1))
  }

  /** A call keeps a register for its caller, whatever it held, if and only if no write to it
      escapes the guards on the way up. */
  lemma KeptExactlyWhenNotLeaked(call: Call, n: Name)
    ensures n !in CallLeaks(call) <==> forall s: Registers | s.IsComplete() :: RunCall(call, s).At(n) == s.At(n)
  {
    hide Masked, Selected, RunCall, RunBody, IsGuarded;
    forall s: Registers | s.IsComplete()
      ensures RunCall(call, s).At(n) == if n in CallLeaks(call) then LeakedValue(call.body, n) else s.At(n)
    {
      RunCallAt(call, s, n);
      RunBodyAt(call.body, s, n);
    }
    if n in CallLeaks(call) {
      var s := OtherThan(LeakedValue(call.body, n));
      assert RunCall(call, s).At(n) != s.At(n);
    }
  }

  /** The dispatch record of every call in the tree names the registers from f14 up that the call's
      own body writes. */
  predicate CallIsCovered(call: Call) {
    BodyIsCovered(call.body, call.mask)
  }

  predicate BodyIsCovered(body: Body, mask: bv32) {
    match body
    case End => true
    case WriteFpr(register, _, rest) => (14 <= register ==> Selected(mask, register)) && BodyIsCovered(rest, mask)
    case WriteGpr(_, _, rest) => BodyIsCovered(rest, mask)
    case Nested(call, rest) => CallIsCovered(call) && BodyIsCovered(rest, mask)
  }

  lemma GuardedIsKept(call: Call, n: Name)
    requires n in BodyLeaks(call.body) ==> IsGuarded(call, n)
    ensures n !in CallLeaks(call)
  {
    hide Masked, IsGuarded, BodyLeaks;
  }

  lemma CoveredCallLeaks(call: Call, r: Register)
    requires CallIsCovered(call) && 14 <= r
    ensures F(r) !in CallLeaks(call)
    decreases call
  {
    hide Masked, Selected, CallLeaks, BodyLeaks, BodyIsCovered;
    if F(r) in BodyLeaks(call.body) {
      CoveredBodyLeaks(call.body, call.mask, r);
      MaskedSelects(call.mask, r);
    }
    GuardedIsKept(call, F(r));
  }

  lemma {:induction false} CoveredBodyLeaks(body: Body, mask: bv32, r: Register)
    requires BodyIsCovered(body, mask) && F(r) in BodyLeaks(body) && 14 <= r
    ensures Selected(mask, r)
    decreases body
  {
    hide Masked, Selected, CallLeaks;
    match body
    case WriteFpr(register, _, rest) =>
      if F(r) in BodyLeaks(rest) { CoveredBodyLeaks(rest, mask, r); }
    case WriteGpr(register, _, rest) =>
      CoveredBodyLeaks(rest, mask, r);
    case Nested(call, rest) =>
      CoveredCallLeaks(call, r);
      CoveredBodyLeaks(rest, mask, r);
  }

  /** f14 to f31 survive every call of a covered tree, however deep it goes, and r14 to r31 survive
      every call that preserves them, whatever is called inside. No guard holds back a write to a
      register below: the call leaves it as its body does. */
  lemma NonvolatilesSurvive(call: Call, s: Registers)
    requires s.IsComplete()
    ensures CallIsCovered(call) ==> RunCall(call, s).fprs[14..] == s.fprs[14..]
    ensures call.preserveGprs ==> RunCall(call, s).gprs[14..] == s.gprs[14..]
    ensures RunCall(call, s).fprs[..14] == RunBody(call.body, s).fprs[..14]
    ensures RunCall(call, s).gprs[..14] == RunBody(call.body, s).gprs[..14]
  {
    hide Masked, Selected, RunCall, RunBody, CallIsCovered, CallLeaks;
    if CallIsCovered(call) {
      forall r: Register | 14 <= r
        ensures RunCall(call, s).fprs[r] == s.fprs[r]
      {
        CoveredCallLeaks(call, r);
        KeptExactlyWhenNotLeaked(call, F(r));
        assert RunCall(call, s).At(F(r)) == s.At(F(r));
      }
    }
    if call.preserveGprs {
      forall r: Register | 14 <= r
        ensures RunCall(call, s).gprs[r] == s.gprs[r]
      {
        RunCallAt(call, s, G(r));
        assert RunCall(call, s).At(G(r)) == s.At(G(r));
      }
    }
    forall r: Register | r < 14
      ensures RunCall(call, s).fprs[r] == RunBody(call.body, s).fprs[r]
      ensures RunCall(call, s).gprs[r] == RunBody(call.body, s).gprs[r]
    {
      MaskedSelects(call.mask, r);
      RunCallAt(call, s, F(r));
      RunCallAt(call, s, G(r));
      assert RunCall(call, s).At(F(r)) == RunBody(call.body, s).At(F(r));
      assert RunCall(call, s).At(G(r)) == RunBody(call.body, s).At(G(r));
    }
  }
}
