/** Page-table entries and virtual addresses as 64-bit words. */
module PageEntry {
  import opened Bits
  import opened Common

  const HUGE_SIZE: nat := 0x20_0000
  const GIANT_SIZE: nat := 0x4000_0000
  const PML4_SPAN: nat := 0x80_0000_0000
  const FRAME_MASK: nat := 0xF_FFFF_FFFF
  const PRESENT: nat := 1
  const WRITABLE: nat := 2
  const HUGE_PAGE: nat := 0x80
  const NO_EXECUTE: nat := 0x8000_0000_0000_0000

  /** What a chain of flag setters can build: the low twelve bits and the no-execute bit. */
  predicate IsFlags(f: nat) {
    f < PAGE_SIZE || NO_EXECUTE <= f < NO_EXECUTE + PAGE_SIZE
  }

  type Flags = f: nat | IsFlags(f) witness 0

  predicate IsPresent(e: nat) { And(e, PRESENT) != 0 }

  predicate IsHuge(e: nat) { And(e, HUGE_PAGE) != 0 }

  predicate IsWritable(e: nat) { And(e, WRITABLE) != 0 }

  function FrameBits(phys: nat): nat { And(phys / PAGE_SIZE, FRAME_MASK) }

  function NewPage(phys: nat, flags: nat): nat { Or(FrameBits(phys) * PAGE_SIZE, flags) }

  function FrameOf(e: nat): nat { And(e / PAGE_SIZE, FRAME_MASK) * PAGE_SIZE }

  function FlagsOf(e: nat): nat { Or(And(e, PAGE_SIZE - 1), And(e, NO_EXECUTE)) }

  /** `pml4_phys.frame_bits() << 12 | pcid & 0xFFF`, with bit 63 set to keep the TLB. */
  function MakeCr3(pml4: nat, pcid: nat, noflush: bool): nat {
    var cr3 := Or(FrameBits(pml4) * PAGE_SIZE, And(pcid, 0xFFF));
    if noflush then Or(cr3, NO_EXECUTE) else cr3
  }

  lemma FrameBitsIsMod(x: nat)
    ensures And(x, FRAME_MASK) == x % 0x10_0000_0000
  {
    var k: nat := 36;
    Pow2Add(32, 4);
    Pow2Values();
    assert Pow2(4) == 16;
    AndLowMask(x, k);
  }

  /** Flags as a no-execute bit and twelve low bits. */
  lemma SplitFlags(flags: Flags) returns (nx: nat, low: nat)
    ensures nx <= 1 && low < PAGE_SIZE && flags == nx * NO_EXECUTE + low
  {
    assert IsFlags(flags);
    nx := if flags < PAGE_SIZE then 0 else 1;
    low := flags - nx * NO_EXECUTE;
  }

  lemma {:induction false} OrAt12(x: nat, low: nat)
    requires low < PAGE_SIZE
    ensures Or(x * PAGE_SIZE, low) == x * PAGE_SIZE + low
  {
    var k: nat := 12;
    Pow2Values();
    OrDisjoint(x, low, k);
  }

  lemma {:induction false} OrAt63(x: nat, low: nat)
    requires low < NO_EXECUTE
    ensures Or(x * NO_EXECUTE, low) == x * NO_EXECUTE + low
  {
    var k: nat := 63;
    Pow2Values();
    OrDisjoint(x, low, k);
  }

  /** An entry is the sum of its no-execute bit, its frame and its low flags. */
  lemma {:induction false} PackIsSum(pfn: nat, nx: nat, low: nat)
    requires pfn < 0x10_0000_0000 && low < PAGE_SIZE
    ensures Or(pfn * PAGE_SIZE, nx * NO_EXECUTE + low) == nx * NO_EXECUTE + (pfn * PAGE_SIZE + low)
  {
    OrAt12(pfn, low);
    OrAt63(nx, low);
    OrAt63(nx, pfn * PAGE_SIZE + low);
    OrThree(pfn * PAGE_SIZE, nx * NO_EXECUTE, low);
  }

  lemma {:induction false} OrThree(x: nat, y: nat, low: nat)
    requires Or(x, low) == x + low && Or(y, low) == y + low && Or(y, x + low) == y + (x + low)
    ensures Or(x, y + low) == y + (x + low)
  {
    OrAssociates(x, y, low);
    OrCommutes(x, y);
    OrAssociates(y, x, low);
  }

  /** The frame read back is the frame written, reduced to the 36 bits that the mask keeps. */
  lemma FrameOfNewPage(phys: nat, flags: Flags)
    ensures FrameOf(NewPage(phys, flags)) == (phys / PAGE_SIZE % 0x10_0000_0000) * PAGE_SIZE
  {
    var pfn := FrameBits(phys);
    var nx, low := SplitFlags(flags);
    FrameBitsIsMod(phys / PAGE_SIZE);
    PackIsSum(pfn, nx, low);
    var x := nx * 0x8_0000_0000_0000 + pfn;
    assert NewPage(phys, flags) == PAGE_SIZE * x + low;
    DivModUnique(NewPage(phys, flags), PAGE_SIZE, x, low);
    FrameBitsIsMod(x);
    DivModUnique(x, 0x10_0000_0000, nx * 0x8000, pfn);
  }

  /** The physical address survives exactly when it is page aligned and below 2^48. */
  lemma FrameRoundTripIff(phys: nat, flags: Flags)
    ensures FrameOf(NewPage(phys, flags)) == phys <==> phys % PAGE_SIZE == 0 && phys < TWO_48
  {
    FrameOfNewPage(phys, flags);
  }

  /** The flags survive packing. */
  lemma FlagsRoundTrip(phys: nat, flags: Flags)
    ensures FlagsOf(NewPage(phys, flags)) == flags
  {
    var pfn := FrameBits(phys);
    var nx, low := SplitFlags(flags);
    FrameBitsIsMod(phys / PAGE_SIZE);
    PackIsSum(pfn, nx, low);
    LowFlags(NewPage(phys, flags), nx, pfn, low);
    HighFlag(NewPage(phys, flags), nx, pfn * PAGE_SIZE + low);
    JoinFlags(nx, low);
  }

  lemma LowFlags(e: nat, nx: nat, pfn: nat, low: nat)
    requires e == nx * NO_EXECUTE + (pfn * PAGE_SIZE + low) && low < PAGE_SIZE
    ensures And(e, PAGE_SIZE - 1) == low
  {
    var k: nat := 12;
    Pow2Values();
    AndLowMask(e, k);
    DivModUnique(e, PAGE_SIZE, nx * 0x8_0000_0000_0000 + pfn, low);
  }

  lemma HighFlag(e: nat, nx: nat, rest: nat)
    requires e == nx * NO_EXECUTE + rest && rest < NO_EXECUTE && nx <= 1
    ensures And(e, NO_EXECUTE) == nx * NO_EXECUTE
  {
    var k: nat := 63;
    Pow2Values();
    HighBit(nx, rest, k);
  }

  lemma HighBit(nx: nat, rest: nat, k: nat)
    requires rest < Pow2(k) && nx <= 1
    ensures And(nx * Pow2(k) + rest, Pow2(k)) == nx * Pow2(k)
  {
    AndPow2(nx * Pow2(k) + rest, k);
    TopBitOfSum(nx, rest, k);
  }

  lemma JoinFlags(nx: nat, low: nat)
    requires low < PAGE_SIZE
    ensures Or(low, nx * NO_EXECUTE) == nx * NO_EXECUTE + low
  {
    OrCommutes(low, nx * NO_EXECUTE);
    OrAt63(nx, low);
  }

  /** The low twelve bits of an entry are those of its flags. */
  lemma LowBitOfNewPage(phys: nat, flags: nat, i: nat)
    requires i < 12
    ensures Bit(NewPage(phys, flags), i) <==> Bit(flags, i)
  {
    var k: nat := 12;
    Pow2Values();
    BitOfOr(FrameBits(phys) * PAGE_SIZE, flags, i);
    BitOfSum(FrameBits(phys), 0, k, i);
    BitOfZero(i);
  }

  lemma TestBits(e: nat)
    ensures IsPresent(e) <==> Bit(e, 0)
    ensures IsWritable(e) <==> Bit(e, 1)
    ensures IsHuge(e) <==> Bit(e, 7)
  {
    var k0: nat, k1: nat, k7: nat := 0, 1, 7;
    AndPow2(e, k0);
    AndPow2(e, k1);
    AndPow2(e, k7);
    assert Pow2(1) == 2 && Pow2(7) == 128;
  }

  lemma PresenceOfNewPage(phys: nat, flags: nat)
    ensures IsPresent(NewPage(phys, flags)) <==> IsPresent(flags)
    ensures IsWritable(NewPage(phys, flags)) <==> IsWritable(flags)
    ensures IsHuge(NewPage(phys, flags)) <==> IsHuge(flags)
  {
    TestBits(flags);
    TestBits(NewPage(phys, flags));
    LowBitOfNewPage(phys, flags, 0);
    LowBitOfNewPage(phys, flags, 1);
    LowBitOfNewPage(phys, flags, 7);
  }

  /** The flags of an entry are writable if the entry is. */
  lemma FlagsKeepWritable(e: nat)
    ensures IsWritable(FlagsOf(e)) <==> IsWritable(e)
  {
    TestBits(e);
    TestBits(FlagsOf(e));
    BitOfOr(And(e, PAGE_SIZE - 1), And(e, NO_EXECUTE), 1);
    LowHasBit(e);
    HighHasNoBit(e);
  }

  lemma LowHasBit(e: nat)
    ensures Bit(And(e, PAGE_SIZE - 1), 1) <==> Bit(e, 1)
  {
    PcidIsMod(e);
    ModHasBit(e);
  }

  lemma ModHasBit(e: nat)
    ensures Bit(e % PAGE_SIZE, 1) <==> Bit(e, 1)
  {
    SecondBit(e);
    SecondBit(e % PAGE_SIZE);
    assert e % PAGE_SIZE / 2 % 2 == e / 2 % 2;
  }

  lemma HighHasNoBit(e: nat)
    ensures !Bit(And(e, NO_EXECUTE), 1)
  {
    var k: nat := 63;
    Pow2Values();
    AndPow2(e, k);
    SecondBit(And(e, NO_EXECUTE));
  }

  lemma SecondBit(x: nat)
    ensures Bit(x, 1) <==> x / 2 % 2 == 1
  {
  }

  function WithHuge(flags: nat): nat { Or(flags, HUGE_PAGE) }

  lemma WithHugeKeepsFlags(flags: Flags)
    ensures IsFlags(WithHuge(flags)) && IsHuge(WithHuge(flags)) && (IsPresent(WithHuge(flags)) <==> IsPresent(flags))
  {
    TestBits(flags);
    TestBits(WithHuge(flags));
    BitOfOr(flags, HUGE_PAGE, 0);
    BitOfOr(flags, HUGE_PAGE, 7);
    var k7: nat := 7;
    assert Pow2(7) == 128;
    BitOfPow2(k7, 7);
    BitOfPow2(k7, 0);
    WithHugeFits(flags);
  }

  lemma WithHugeFits(flags: Flags)
    ensures IsFlags(WithHuge(flags))
  {
    var nx, low := SplitFlags(flags);
    LowOrFits(low);
    JoinFlags(nx, low);
    JoinFlags(nx, Or(low, HUGE_PAGE));
    OrCommutes(low, nx * NO_EXECUTE);
    OrCommutes(Or(low, HUGE_PAGE), nx * NO_EXECUTE);
    OrAssociates(nx * NO_EXECUTE, low, HUGE_PAGE);
  }

  lemma LowOrFits(low: nat)
    requires low < PAGE_SIZE
    ensures Or(low, HUGE_PAGE) < PAGE_SIZE
  {
    var k: nat := 12;
    Pow2Values();
    OrBound(low, HUGE_PAGE, k);
  }

  /** A loaded CR3 names the table, the low twelve bits of the PCID, and whether the TLB is kept. */
  lemma Cr3RoundTrip(pml4: nat, pcid: nat, noflush: bool)
    ensures FrameOf(MakeCr3(pml4, pcid, noflush)) == (pml4 / PAGE_SIZE % 0x10_0000_0000) * PAGE_SIZE
    ensures FlagsOf(MakeCr3(pml4, pcid, noflush)) == pcid % PAGE_SIZE + if noflush then NO_EXECUTE else 0
  {
    var low, nx: nat := pcid % PAGE_SIZE, if noflush then 1 else 0;
    Cr3IsEntry(pml4, pcid, noflush);
    assert IsFlags(nx * NO_EXECUTE + low);
    FrameOfNewPage(pml4, nx * NO_EXECUTE + low);
    FlagsRoundTrip(pml4, nx * NO_EXECUTE + low);
  }

  /** CR3 is laid out like an entry, with the PCID in place of the low flags. */
  lemma {:induction false} Cr3IsEntry(pml4: nat, pcid: nat, noflush: bool)
    ensures MakeCr3(pml4, pcid, noflush) == NewPage(pml4, (if noflush then 1 else 0) * NO_EXECUTE + pcid % PAGE_SIZE)
  {
    PcidIsMod(pcid);
    JoinFlags(1, pcid % PAGE_SIZE);
    OrAssociates(FrameBits(pml4) * PAGE_SIZE, pcid % PAGE_SIZE, NO_EXECUTE);
  }

  lemma {:induction false} PcidIsMod(pcid: nat)
    ensures And(pcid, 0xFFF) == pcid % PAGE_SIZE
  {
    var k: nat := 12;
    Pow2Values();
    AndLowMask(pcid, k);
  }

  // Virtual addresses

  function Pml4Index(virt: nat): nat { And(virt / PML4_SPAN, 0x1FF) }

  function PdptIndex(virt: nat): nat { And(virt / GIANT_SIZE, 0x1FF) }

  function PdIndex(virt: nat): nat { And(virt / HUGE_SIZE, 0x1FF) }

  function PtIndex(virt: nat): nat { And(virt / PAGE_SIZE, 0x1FF) }

  /** The four table indices, from the top. */
  function Path(virt: nat): (p: seq<nat>)
    ensures |p| == 4
  {
    [Pml4Index(virt), PdptIndex(virt), PdIndex(virt), PtIndex(virt)]
  }

  predicate IsCanonical(virt: nat) {
    virt < TWO_48 / 2 || TWO_64 - TWO_48 / 2 <= virt < TWO_64
  }

  lemma IndexIsMod(x: nat)
    ensures And(x, 0x1FF) == x % 512
  {
    var k: nat := 9;
    Pow2Values();
    AndLowMask(x, k);
  }

  /** Canonical addresses share a path exactly when they lie in one page, and its first part when in one 2 MiB page. */
  lemma PathsTellPages(v: nat, w: nat)
    requires IsCanonical(v) && IsCanonical(w)
    ensures Path(v)[..3] == Path(w)[..3] <==> v / HUGE_SIZE == w / HUGE_SIZE
    ensures Path(v) == Path(w) <==> v / PAGE_SIZE == w / PAGE_SIZE
    ensures forall i :: 0 <= i < 4 ==> Path(v)[i] < 512
  {
    PathDigits(v);
    PathDigits(w);
    PrefixIs(v);
    PrefixIs(w);
    SameDigits(Path(v)[0], Path(v)[1], Path(v)[2], Path(w)[0], Path(w)[1], Path(w)[2]);
  }

  lemma PrefixIs(v: nat)
    ensures Path(v)[..3] == [Path(v)[0], Path(v)[1], Path(v)[2]] && Path(v) == Path(v)[..3] + [Path(v)[3]]
  {
  }

  /** The digits determine the number. */
  lemma SameDigits(a: nat, b: nat, c: nat, x: nat, y: nat, z: nat)
    requires a < 512 && b < 512 && c < 512 && x < 512 && y < 512 && z < 512
    ensures Upper(a) + (a * 512 + b) * 512 + c == Upper(x) + (x * 512 + y) * 512 + z <==> a == x && b == y && c == z
  {
  }

  /** The path holds the digits of the page number; a canonical address has no other upper part than its sign. */
  lemma PathDigits(v: nat)
    requires IsCanonical(v)
    ensures forall i :: 0 <= i < 4 ==> Path(v)[i] < 512
    ensures v / HUGE_SIZE == Upper(Path(v)[0]) + (Path(v)[0] * 512 + Path(v)[1]) * 512 + Path(v)[2]
    ensures v / PAGE_SIZE == (v / HUGE_SIZE) * 512 + Path(v)[3]
  {
    IndexIsMod(v / PML4_SPAN);
    IndexIsMod(v / GIANT_SIZE);
    IndexIsMod(v / HUGE_SIZE);
    IndexIsMod(v / PAGE_SIZE);
    DivDiv(v, PAGE_SIZE, 512, HUGE_SIZE);
    DivDiv(v, HUGE_SIZE, 512, GIANT_SIZE);
    DivDiv(v, GIANT_SIZE, 512, PML4_SPAN);
    TopDigit(v);
  }

  lemma TopDigit(v: nat)
    requires IsCanonical(v)
    ensures v / PML4_SPAN * 0x4_0000 == Upper(v / PML4_SPAN % 512) + (v / PML4_SPAN % 512) * 0x4_0000
  {
    var q := v / PML4_SPAN;
    assert v == PML4_SPAN * q + v % PML4_SPAN;
    if v < TWO_48 / 2 {
      assert q < 256;
    } else {
      assert 0x1FF_FF00 <= q < 0x200_0000;
      DivModUnique(q, 512, 0xFFFF, q - 0x1FF_FE00);
    }
  }

  function Upper(i4: nat): nat {
    if i4 < 256 then 0 else 0x1FF_FE00 * 0x4_0000
  }
}
