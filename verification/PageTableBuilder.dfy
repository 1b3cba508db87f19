/** The page-table builder and walker, proved against the mapping that each address resolves to. */
module PageTableBuilder {
  import opened Bits
  import opened Common
  import opened PageEntry
  import opened PageTableSpec

  /** A request to the builder. */
  datatype Op =
    | Page(virt: nat, phys: nat, flags: Flags)
    | Huge(virt: nat, phys: nat, flags: Flags)

  /** What the caller must respect: huge pages are aligned, as the debug assertions say. */
  predicate IsOp(op: Op) {
    IsCanonical(op.virt) && (op.Huge? ==> op.virt % HUGE_SIZE == 0 && op.phys % HUGE_SIZE == 0)
  }

  function OpSpan(op: Op): nat { if op.Page? then PAGE_SIZE else HUGE_SIZE }

  /** The physical page that the request names, as far as an entry can hold it, with the flags that it asks for. */
  function OpMapping(op: Op): Option<Mapping> {
    if !IsPresent(op.flags) then None
    else Some(Mapping((op.phys / PAGE_SIZE % 0x10_0000_0000) * PAGE_SIZE, OpSpan(op), OpFlags(op)))
  }

  /** The flags of the leaf: those asked for, and in a huge page the mark of one. */
  function OpFlags(op: Op): nat { if op.Page? then op.flags else WithHuge(op.flags) }

  predicate Covers(op: Op, virt: nat) {
    virt / OpSpan(op) == op.virt / OpSpan(op)
  }

  /** The mapping of `virt` after the request, given the one before. */
  function After(op: Op, before: Option<Mapping>, virt: nat): Option<Mapping> {
    if Covers(op, virt) then OpMapping(op) else before
  }

  /** The flat map: the last request that covers an address decides. */
  function Flat(ops: seq<Op>, virt: nat): Option<Mapping> {
    if ops == [] then None else After(ops[|ops| - 1], Flat(ops[..|ops| - 1], virt), virt)
  }

  /** The request changed what it covers, and no other canonical address. */
  ghost predicate Fulfils(op: Op, mem: Mem, mem': Mem, root: Frame) {
    forall w: nat | IsCanonical(w) :: Resolve(mem', root, Path(w)) == After(op, Resolve(mem, root, Path(w)), w)
  }

  ghost predicate RefinesFlat(ops: seq<Op>, mem: Mem, root: Frame) {
    forall w: nat | IsCanonical(w) :: Resolve(mem, root, Path(w)) == Flat(ops, w)
  }

  /** No small page is requested where a huge page is mapped. */
  predicate NoPageOverHuge(ops: seq<Op>) {
    forall k :: 0 <= k < |ops| && ops[k].Page? ==> !IsHugeMapping(Flat(ops[..k], ops[k].virt))
  }

  predicate IsHugeMapping(m: Option<Mapping>) {
    m.Some? && m.value.span != PAGE_SIZE
  }

  class Builder {
    var mem: Mem
    var root: Frame
    var free: seq<Frame>
    ghost var paths: Paths

    ghost predicate Valid()
      reads this
    {
      && IsTree(mem, root, paths)
      && (forall i :: 0 <= i < |free| ==> IsTableFrame(free[i]) && free[i] !in paths)
      && (forall i, j :: 0 <= i < j < |free| ==> free[i] != free[j])
    }

    ghost function View(virt: nat): Option<Mapping>
      reads this
    {
      Resolve(mem, root, Path(virt))
    }

    constructor (root: Frame, frames: seq<Frame>)
      requires forall i :: 0 <= i < |frames| ==> IsTableFrame(frames[i]) && frames[i] != root
      requires forall i, j :: 0 <= i < j < |frames| ==> frames[i] != frames[j]
      ensures Valid() && forall virt: nat :: View(virt).None?
    {
      this.root := root;
      mem := map[root := ZeroTable()];
      free := frames;
      paths := map[root := []];
      new;
      TableEntry(0);
      forall f: Frame ensures TableInv(mem, paths, f) {
        if f in paths { forall i: nat ensures LinkInv(mem, paths, f, i) { } }
      }
      forall virt: nat ensures View(virt).None? { assert EntryAt(mem, root, Pml4Index(virt)) == 0; }
    }

    /** Takes a frame from the allocator; the kernel stops when there is none. */
    method AllocFrame() returns (ok: bool, n: Frame)
      requires Valid()
      modifies `free
      ensures Valid() && ok == (old(free) != [])
      ensures ok ==> n == old(free)[0] && free == old(free)[1..] && IsTableFrame(n) && n !in paths && n !in free
    {
      if free == [] { return false, 0; }
      n := free[0];
      free := free[1..];
      return true, n;
    }

    /** The child table of entry `i` of `g`, allocated and zeroed if the entry is empty. */
    method Descend(g: Frame, prefix: seq<nat>, i: nat) returns (ok: bool, child: Frame)
      requires Valid() && IsPath(prefix) && i < ENTRIES && |prefix| < 3 && NodeAt(mem, root, prefix) == Some(g)
      requires |prefix| == 2 && IsPresent(EntryAt(mem, g, i)) ==> !IsHuge(EntryAt(mem, g, i))
      modifies this
      ensures root == old(root)
      ensures (ok || old(free) == []) && |free| >= |old(free)| - 1
      ensures ok ==> Valid() && NodeAt(mem, root, prefix + [i]) == Some(child)
      ensures ok ==> SameMappings(old(mem), mem, root)
    {
      NodesAreDistinct(mem, root, paths, root, prefix);
      assert [] + prefix == prefix;
      assert TableInv(mem, paths, g);
      var e := mem[g][i];
      if !IsPresent(e) {
        var n;
        ok, n := AllocFrame();
        if !ok { return false, 0; }
        ghost var mem0 := mem;
        assert CanLink(mem0, root, paths, g, i, n);
        LinkKeepsTree(mem0, root, paths, g, i, n);
        LinkKeepsNode(mem0, root, paths, g, i, n, root, prefix);
        forall path: seq<nat> | |path| == 4 && IsPath(path)
          ensures Resolve(LinkTable(mem0, g, i, n), root, path) == Resolve(mem0, root, path)
        {
          LinkKeepsMappings(mem0, root, paths, g, i, n, root, path);
        }
        TableEntry(n);
        e := NewPage(n, TABLE_FLAGS);
        mem := WriteEntry(mem[n := ZeroTable()], g, i, e);
        paths := paths[n := paths[g] + [i]];
      }
      assert LinkInv(mem, paths, g, i);
      NodeThroughNode(mem, root, prefix, i);
      return true, FrameOf(e);
    }

    /** The page directory for `virt`, with the tables above it allocated as needed. */
    method WalkToPd(virt: nat) returns (ok: bool, pd: Frame)
      requires Valid()
      modifies this
      ensures root == old(root) && (ok || |old(free)| < 2) && |free| >= |old(free)| - 2
      ensures ok ==> Valid() && NodeAt(mem, root, Path(virt)[..2]) == Some(pd)
      ensures ok ==> SameMappings(old(mem), mem, root)
    {
      PathFits(virt);
      var pdpt;
      ok, pdpt := Descend(root, [], Pml4Index(virt));
      if !ok { return false, 0; }
      assert [] + [Pml4Index(virt)] == [Pml4Index(virt)];
      ok, pd := Descend(pdpt, [Pml4Index(virt)], PdptIndex(virt));
      assert Path(virt)[..2] == [Pml4Index(virt)] + [PdptIndex(virt)];
    }

    /** Maps one 4 KiB page where no huge page is mapped; every other address keeps its mapping. */
    method MapPage(virt: nat, phys: nat, flags: Flags) returns (ok: bool)
      requires Valid() && IsOp(Page(virt, phys, flags)) && !IsHugeMapping(View(virt))
      modifies this
      ensures root == old(root) && (ok || |old(free)| < 3) && |free| >= |old(free)| - 3
      ensures ok ==> Valid() && Fulfils(Page(virt, phys, flags), old(mem), mem, root)
    {
      PathFits(virt);
      var pd;
      ok, pd := WalkToPd(virt);
      if !ok { return false; }
      NotHugeEntry(mem, root, virt, pd);
      var pt;
      ok, pt := Descend(pd, Path(virt)[..2], PdIndex(virt));
      if !ok { return false; }
      assert Path(virt)[..2] + [PdIndex(virt)] == Path(virt)[..3];
      WritePage(mem, root, paths, pt, Page(virt, phys, flags));
      ghost var walked := mem;
      mem := WriteEntry(mem, pt, PtIndex(virt), NewPage(phys, flags));
      FulfilsAfterWalk(Page(virt, phys, flags), old(mem), walked, mem, root);
    }

    /** Maps one 2 MiB page, replacing whatever was mapped inside it. */
    method MapHuge2m(virt: nat, phys: nat, flags: Flags) returns (ok: bool)
      requires Valid() && IsOp(Huge(virt, phys, flags))
      modifies this
      ensures root == old(root) && (ok || |old(free)| < 3) && |free| >= |old(free)| - 3
      ensures ok ==> Valid() && Fulfils(Huge(virt, phys, flags), old(mem), mem, root)
    {
      PathFits(virt);
      var pd;
      ok, pd := WalkToPd(virt);
      if !ok { return false; }
      WriteHuge(mem, root, paths, pd, Huge(virt, phys, flags));
      ghost var walked := mem;
      mem := WriteEntry(mem, pd, PdIndex(virt), NewPage(phys, WithHuge(flags)));
      FulfilsAfterWalk(Huge(virt, phys, flags), old(mem), walked, mem, root);
    }

    /** The walk of the live tables. */
    method Translate(virt: nat) returns (r: Option<nat>)
      requires Valid()
      ensures r == Translation(View(virt), virt)
    {
      Offsets(virt);
      ghost var path := Path(virt);
      assert path[1..] == [PdptIndex(virt), PdIndex(virt), PtIndex(virt)];
      assert path[1..][1..] == [PdIndex(virt), PtIndex(virt)] && path[1..][1..][1..] == [PtIndex(virt)];
      var e4 := EntryAt(mem, root, Pml4Index(virt));
      if !IsPresent(e4) { return None; }
      assert View(virt) == Resolve(mem, FrameOf(e4), path[1..]);
      var e3 := EntryAt(mem, FrameOf(e4), PdptIndex(virt));
      if !IsPresent(e3) { return None; }
      if IsHuge(e3) {
        PhysAddIsSum(e3, virt % GIANT_SIZE);
        return Some(PhysAdd(FrameOf(e3), And(virt, 0x3FFF_FFFF)));
      }
      assert View(virt) == Resolve(mem, FrameOf(e3), path[1..][1..]);
      var e2 := EntryAt(mem, FrameOf(e3), PdIndex(virt));
      if !IsPresent(e2) { return None; }
      if IsHuge(e2) {
        PhysAddIsSum(e2, virt % HUGE_SIZE);
        return Some(PhysAdd(FrameOf(e2), And(virt, 0x1F_FFFF)));
      }
      assert View(virt) == Resolve(mem, FrameOf(e2), path[1..][1..][1..]);
      var e1 := EntryAt(mem, FrameOf(e2), PtIndex(virt));
      if !IsPresent(e1) { return None; }
      PhysAddIsSum(e1, virt % PAGE_SIZE);
      return Some(PhysAdd(FrameOf(e1), And(virt, 0xFFF)));
    }

    method ApplyOne(op: Op) returns (ok: bool)
      requires Valid() && IsOp(op) && (op.Page? ==> !IsHugeMapping(View(op.virt)))
      modifies this
      ensures root == old(root) && (ok || |old(free)| < 3) && |free| >= |old(free)| - 3
      ensures ok ==> Valid() && Fulfils(op, old(mem), mem, root)
    {
      match op {
        case Page(virt, phys, flags) => ok := MapPage(virt, phys, flags);
        case Huge(virt, phys, flags) => ok := MapHuge2m(virt, phys, flags);
      }
    }

    /** Any sequence of requests refines the flat map. */
    method Apply(ops: seq<Op>) returns (ok: bool)
      requires Valid() && RefinesFlat([], mem, root)
      requires (forall k :: 0 <= k < |ops| ==> IsOp(ops[k])) && NoPageOverHuge(ops)
      modifies this
      ensures ok || |old(free)| < 3 * |ops|
      ensures ok ==> Valid() && RefinesFlat(ops, mem, root)
    {
      var k := 0;
      ok := true;
      while k < |ops|
        invariant 0 <= k <= |ops| && ok && Valid() && |free| >= |old(free)| - 3 * k
        invariant RefinesFlat(ops[..k], mem, root)
      {
        ghost var mem0 := mem;
        PageIsNotOverHuge(ops, k, mem, root);
        ok := ApplyOne(ops[k]);
        if !ok { return; }
        OneMoreOp(ops, k, mem0, mem, root);
        k := k + 1;
      }
      assert ops[..k] == ops;
    }
  }

  lemma PageIsNotOverHuge(ops: seq<Op>, k: nat, mem: Mem, root: Frame)
    requires k < |ops| && IsOp(ops[k]) && NoPageOverHuge(ops) && RefinesFlat(ops[..k], mem, root)
    ensures ops[k].Page? ==> !IsHugeMapping(Resolve(mem, root, Path(ops[k].virt)))
  {
  }

  lemma OneMoreOp(ops: seq<Op>, k: nat, mem: Mem, mem': Mem, root: Frame)
    requires k < |ops| && RefinesFlat(ops[..k], mem, root) && Fulfils(ops[k], mem, mem', root)
    ensures RefinesFlat(ops[..k + 1], mem', root)
  {
    assert ops[..k + 1][..k] == ops[..k];
  }

  /** Walking first, which may add empty tables, does not matter. */
  lemma FulfilsAfterWalk(op: Op, mem: Mem, walked: Mem, mem': Mem, root: Frame)
    requires SameMappings(mem, walked, root) && Fulfils(op, walked, mem', root)
    ensures Fulfils(op, mem, mem', root)
  {
    forall w: nat | IsCanonical(w)
      ensures Resolve(mem', root, Path(w)) == After(op, Resolve(mem, root, Path(w)), w)
    {
      PathFits(w);
    }
  }

  lemma WritePage(mem: Mem, root: Frame, paths: Paths, pt: Frame, op: Op)
    requires IsTree(mem, root, paths) && op.Page? && IsOp(op) && NodeAt(mem, root, Path(op.virt)[..3]) == Some(pt)
    ensures pt in mem && PtIndex(op.virt) < |mem[pt]|
    ensures var mem' := WriteEntry(mem, pt, PtIndex(op.virt), NewPage(op.phys, op.flags));
      IsTree(mem', root, paths) && Fulfils(op, mem, mem', root)
  {
    var e, prefix, i := NewPage(op.phys, op.flags), Path(op.virt)[..3], PtIndex(op.virt);
    PathFits(op.virt);
    PresenceOfNewPage(op.phys, op.flags);
    FrameOfNewPage(op.phys, op.flags);
    FlagsRoundTrip(op.phys, op.flags);
    NodesAreDistinct(mem, root, paths, root, prefix);
    assert TableInv(mem, paths, pt);
    WriteLeafKeepsTree(mem, root, paths, pt, i, e);
    forall w: nat | IsCanonical(w)
      ensures Resolve(WriteEntry(mem, pt, i, e), root, Path(w)) == After(op, Resolve(mem, root, Path(w)), w)
    {
      PathFits(w);
      WriteLeafMaps(mem, root, paths, pt, prefix, i, e, Path(w));
      PathsTellPages(op.virt, w);
      assert prefix + [i] == Path(op.virt);
    }
  }

  lemma WriteHuge(mem: Mem, root: Frame, paths: Paths, pd: Frame, op: Op)
    requires IsTree(mem, root, paths) && op.Huge? && IsOp(op) && NodeAt(mem, root, Path(op.virt)[..2]) == Some(pd)
    ensures pd in mem && PdIndex(op.virt) < |mem[pd]|
    ensures var mem' := WriteEntry(mem, pd, PdIndex(op.virt), NewPage(op.phys, WithHuge(op.flags)));
      IsTree(mem', root, paths) && Fulfils(op, mem, mem', root)
  {
    var e, prefix, i := NewPage(op.phys, WithHuge(op.flags)), Path(op.virt)[..2], PdIndex(op.virt);
    PathFits(op.virt);
    WithHugeKeepsFlags(op.flags);
    PresenceOfNewPage(op.phys, WithHuge(op.flags));
    FrameOfNewPage(op.phys, WithHuge(op.flags));
    FlagsRoundTrip(op.phys, WithHuge(op.flags));
    NodesAreDistinct(mem, root, paths, root, prefix);
    assert TableInv(mem, paths, pd);
    WriteLeafKeepsTree(mem, root, paths, pd, i, e);
    forall w: nat | IsCanonical(w)
      ensures Resolve(WriteEntry(mem, pd, i, e), root, Path(w)) == After(op, Resolve(mem, root, Path(w)), w)
    {
      PathFits(w);
      WriteLeafMaps(mem, root, paths, pd, prefix, i, e, Path(w));
      PathsTellPages(op.virt, w);
      assert prefix + [i] == Path(op.virt)[..3];
      assert Path(op.virt)[..3] <= Path(w) <==> Path(op.virt)[..3] == Path(w)[..3];
    }
  }

  /** Addition of physical addresses keeps 52 bits. */
  function PhysAdd(base: nat, offset: nat): nat {
    And(base + offset, 0xF_FFFF_FFFF_FFFF)
  }

  lemma PhysAddIsSum(e: nat, offset: nat)
    requires offset < GIANT_SIZE
    ensures PhysAdd(FrameOf(e), offset) == FrameOf(e) + offset
  {
    FrameBitsIsMod(e / PAGE_SIZE);
    assert FrameOf(e) < TWO_48;
    LowMask52(FrameOf(e) + offset);
  }

  lemma LowMask52(x: nat)
    requires x < 0x10_0000_0000_0000
    ensures And(x, 0xF_FFFF_FFFF_FFFF) == x
  {
    Pow2Values();
    Pow2Add(48, 4);
    assert Pow2(4) == 16;
    LowMaskKeeps(x, 52);
  }

  lemma {:induction false} LowMaskKeeps(x: nat, k: nat)
    requires x < Pow2(k)
    ensures And(x, Pow2(k) - 1) == x
  {
    AndLowMask(x, k);
    DivModUnique(x, Pow2(k), 0, x);
  }

  lemma Offsets(virt: nat)
    ensures And(virt, 0xFFF) == virt % PAGE_SIZE
    ensures And(virt, 0x1F_FFFF) == virt % HUGE_SIZE
    ensures And(virt, 0x3FFF_FFFF) == virt % GIANT_SIZE
  {
    var k12: nat, k21: nat, k30: nat := 12, 21, 30;
    Pow2Values();
    Pow2Add(12, 9);
    Pow2Add(21, 9);
    AndLowMask(virt, k12);
    AndLowMask(virt, k21);
    AndLowMask(virt, k30);
  }

  /** The translation is the requested physical address plus the offset exactly when an entry can hold that address. */
  lemma TranslationIsLinearIff(op: Op, before: Option<Mapping>, w: nat)
    requires IsOp(op) && Covers(op, w) && IsPresent(op.flags)
    requires before.Some? ==> before.value.span > 0
    ensures Translation(After(op, before, w), w) == Some(op.phys + (w - w / OpSpan(op) * OpSpan(op)))
       <==> op.phys % PAGE_SIZE == 0 && op.phys < TWO_48
  {
    HeldAddress(op.phys);
    assert w % OpSpan(op) == w - w / OpSpan(op) * OpSpan(op);
  }

  lemma HeldAddress(phys: nat)
    ensures (phys / PAGE_SIZE % 0x10_0000_0000) * PAGE_SIZE == phys <==> phys % PAGE_SIZE == 0 && phys < TWO_48
  {
  }

  /** Where no huge page is mapped, the page directory's entry is empty or a table. */
  lemma NotHugeEntry(mem: Mem, root: Frame, virt: nat, pd: Frame)
    requires NodeAt(mem, root, Path(virt)[..2]) == Some(pd) && !IsHugeMapping(Resolve(mem, root, Path(virt)))
    ensures IsPresent(EntryAt(mem, pd, PdIndex(virt))) ==> !IsHuge(EntryAt(mem, pd, PdIndex(virt)))
  {
    assert Path(virt) == Path(virt)[..2] + [PdIndex(virt), PtIndex(virt)];
    ResolveThroughNode(mem, root, Path(virt)[..2], [PdIndex(virt), PtIndex(virt)]);
  }

  lemma PathFits(virt: nat)
    ensures Pml4Index(virt) < ENTRIES && PdptIndex(virt) < ENTRIES && PdIndex(virt) < ENTRIES && PtIndex(virt) < ENTRIES
    ensures IsPath(Path(virt)) && |Path(virt)| == 4
  {
    IndexIsMod(virt / PML4_SPAN);
    IndexIsMod(virt / GIANT_SIZE);
    IndexIsMod(virt / HUGE_SIZE);
    IndexIsMod(virt / PAGE_SIZE);
  }
}
