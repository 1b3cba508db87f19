/** Freeing the tables of the user half of an address space. */
module Teardown {
  import opened Bits
  import opened Common
  import opened PageEntry
  import opened PageTableSpec

  const USER_PML4_ENTRIES: nat := 256

  /** Entry `i` of a table at this level holds a page, or a large one above the last level. */
  predicate IsLeafEntry(e: nat, level: nat) {
    IsPresent(e) && (level == 1 || IsHuge(e))
  }

  predicate IsTableEntry(e: nat, level: nat) {
    IsPresent(e) && !(level == 1 || IsHuge(e))
  }

  /** Table `g` is `f` or lies below it; `level` counts from 1 for the last tables. */
  ghost predicate Below(mem: Mem, f: Frame, g: Frame, level: nat)
    decreases level
  {
    g == f || exists j: nat :: BelowEntry(mem, f, j, g, level)
  }

  ghost predicate BelowEntry(mem: Mem, f: Frame, j: nat, g: Frame, level: nat)
    decreases level, 0
  {
    && level > 1 && j < ENTRIES && IsTableEntry(EntryAt(mem, f, j), level)
    && Below(mem, FrameOf(EntryAt(mem, f, j)), g, level - 1)
  }

  predicate NoDuplicates<T(==)>(s: seq<T>) {
    forall i, j :: 0 <= i < j < |s| ==> s[i] != s[j]
  }

  /** Everything below a table has that table's path in front of its own. */
  lemma {:induction false} BelowExtendsPath(mem: Mem, root: Frame, paths: Paths, f: Frame, g: Frame, level: nat)
    requires IsTree(mem, root, paths) && f in paths && |paths[f]| + level == 4 && Below(mem, f, g, level)
    ensures g in paths && paths[f] <= paths[g]
    decreases level
  {
    if g != f {
      var j: nat :| BelowEntry(mem, f, j, g, level);
      BelowEntryExtendsPath(mem, root, paths, f, j, g, level);
    }
  }

  lemma {:induction false} BelowEntryExtendsPath(mem: Mem, root: Frame, paths: Paths, f: Frame, j: nat, g: Frame,
                                                 level: nat)
    requires IsTree(mem, root, paths) && f in paths && |paths[f]| + level == 4 && BelowEntry(mem, f, j, g, level)
    ensures g in paths && paths[f] + [j] <= paths[g]
    decreases level, 0
  {
    assert TableInv(mem, paths, f);
    assert LinkInv(mem, paths, f, j);
    BelowExtendsPath(mem, root, paths, FrameOf(EntryAt(mem, f, j)), g, level - 1);
  }

  /** Being below is being reached by a walk. */
  lemma {:induction false} NodesAreBelow(mem: Mem, f: Frame, path: seq<nat>, level: nat)
    requires IsPath(path) && |path| < level && NodeAt(mem, f, path).Some?
    ensures Below(mem, f, NodeAt(mem, f, path).value, level)
    decreases level
  {
    if path != [] {
      NodesAreBelow(mem, FrameOf(EntryAt(mem, f, path[0])), path[1..], level - 1);
      assert BelowEntry(mem, f, path[0], NodeAt(mem, f, path).value, level);
    }
  }

  /** Table `g` lies below one of the first `k` entries of `f`. */
  ghost predicate DownTo(mem: Mem, f: Frame, k: nat, g: Frame, level: nat) {
    exists j: nat :: j < k && BelowEntry(mem, f, j, g, level)
  }

  type Slot = (Frame, nat)

  /** An entry of some table that holds a page. */
  ghost predicate IsLeafSlot(mem: Mem, paths: Paths, slot: Slot) {
    && slot.0 in paths && slot.1 < ENTRIES && |paths[slot.0]| <= 3
    && IsLeafEntry(EntryAt(mem, slot.0, slot.1), 4 - |paths[slot.0]|)
  }

  ghost predicate SlotDownTo(mem: Mem, paths: Paths, f: Frame, k: nat, slot: Slot, level: nat) {
    IsLeafSlot(mem, paths, slot) && ((slot.0 == f && slot.1 < k) || DownTo(mem, f, k, slot.0, level))
  }

  /** Nothing that is freed later lies below a table: no table is read after it was freed. */
  ghost predicate ChildrenFirst(paths: Paths, freed: seq<Frame>) {
    forall i, j :: 0 <= i < j < |freed| ==> IsNotBelow(paths, freed[i], freed[j])
  }

  predicate IsNotBelow(paths: Paths, f: Frame, g: Frame) {
    f in paths && g in paths && !(paths[f] <= paths[g])
  }

  /** What a loop over the first `k` entries of `f` has freed and visited. */
  ghost predicate Done(mem: Mem, paths: Paths, f: Frame, k: nat, level: nat, freed: seq<Frame>, leaves: seq<Slot>) {
    && NoDuplicates(freed) && ChildrenFirst(paths, freed)
    && (forall g: Frame :: g in freed <==> DownTo(mem, f, k, g, level))
    && NoDuplicates(leaves) && (forall slot: Slot :: slot in leaves <==> SlotDownTo(mem, paths, f, k, slot, level))
  }

  /** What freeing the whole of `f` has freed and visited. */
  ghost predicate Freed(mem: Mem, paths: Paths, f: Frame, level: nat, freed: seq<Frame>, leaves: seq<Slot>) {
    && NoDuplicates(freed) && ChildrenFirst(paths, freed)
    && (forall g: Frame :: g in freed <==> Below(mem, f, g, level))
    && NoDuplicates(leaves)
    && (forall slot: Slot :: slot in leaves <==> IsLeafSlot(mem, paths, slot) && Below(mem, f, slot.0, level))
  }

  lemma DownToStep(mem: Mem, f: Frame, k: nat, g: Frame, level: nat)
    ensures DownTo(mem, f, k + 1, g, level) <==> DownTo(mem, f, k, g, level) || BelowEntry(mem, f, k, g, level)
  {
  }

  lemma {:induction false} DisjointUnion<T>(a: seq<T>, b: seq<T>)
    requires NoDuplicates(a) && NoDuplicates(b) && forall x :: x in a ==> x !in b
    ensures NoDuplicates(a + b)
  {
    forall i, j | 0 <= i < j < |a + b| ensures (a + b)[i] != (a + b)[j] {
      if i < |a| <= j { assert a[i] in a && b[j - |a|] in b; }
    }
  }

  lemma ChildrenStayFirst(paths: Paths, a: seq<Frame>, b: seq<Frame>)
    requires ChildrenFirst(paths, a) && ChildrenFirst(paths, b)
    requires forall f, g :: f in a && g in b ==> IsNotBelow(paths, f, g)
    ensures ChildrenFirst(paths, a + b)
  {
    forall i, j | 0 <= i < j < |a + b| ensures IsNotBelow(paths, (a + b)[i], (a + b)[j]) {
      if i < |a| <= j { assert a[i] in a && b[j - |a|] in b; }
    }
  }

  /** Tables below an entry are not above the table, nor above what is below a later entry. */
  lemma EarlierIsNotAbove(mem: Mem, root: Frame, paths: Paths, f: Frame, k: nat, x: Frame, y: Frame, level: nat)
    requires IsTree(mem, root, paths) && f in paths && |paths[f]| + level == 4
    requires DownTo(mem, f, k, x, level) && (y == f || BelowEntry(mem, f, k, y, level))
    ensures IsNotBelow(paths, x, y)
  {
    var j: nat :| j < k && BelowEntry(mem, f, j, x, level);
    BelowEntryExtendsPath(mem, root, paths, f, j, x, level);
    assert paths[x][|paths[f]|] == (paths[f] + [j])[|paths[f]|] == j;
    if y != f {
      BelowEntryExtendsPath(mem, root, paths, f, k, y, level);
      assert paths[y][|paths[f]|] == (paths[f] + [k])[|paths[f]|] == k;
    }
  }

  /** Different entries lead to different tables. */
  lemma EntriesApart(mem: Mem, root: Frame, paths: Paths, f: Frame, k: nat, g: Frame, level: nat)
    requires IsTree(mem, root, paths) && f in paths && |paths[f]| + level == 4
    ensures !(DownTo(mem, f, k, g, level) && BelowEntry(mem, f, k, g, level))
    ensures DownTo(mem, f, k, g, level) || BelowEntry(mem, f, k, g, level) ==> g != f
  {
    if DownTo(mem, f, k, g, level) {
      var j: nat :| j < k && BelowEntry(mem, f, j, g, level);
      assert (paths[f] + [j])[|paths[f]|] == j && (paths[f] + [k])[|paths[f]|] == k;
      BelowEntryExtendsPath(mem, root, paths, f, j, g, level);
      if BelowEntry(mem, f, k, g, level) {
        BelowEntryExtendsPath(mem, root, paths, f, k, g, level);
      }
    } else if BelowEntry(mem, f, k, g, level) {
      BelowEntryExtendsPath(mem, root, paths, f, k, g, level);
    }
  }

  lemma DoneWithTable(mem: Mem, root: Frame, paths: Paths, f: Frame, k: nat, level: nat, freed: seq<Frame>,
                      leaves: seq<Slot>, freed': seq<Frame>, leaves': seq<Slot>)
    requires IsTree(mem, root, paths) && f in paths && |paths[f]| + level == 4 && 1 < level && k < ENTRIES
    requires Done(mem, paths, f, k, level, freed, leaves) && IsTableEntry(EntryAt(mem, f, k), level)
    requires Freed(mem, paths, FrameOf(EntryAt(mem, f, k)), level - 1, freed', leaves')
    ensures Done(mem, paths, f, k + 1, level, freed + freed', leaves + leaves')
  {
    forall g: Frame ensures g in freed' <==> BelowEntry(mem, f, k, g, level) { }
    forall g: Frame
      ensures g in freed + freed' <==> DownTo(mem, f, k + 1, g, level)
      ensures !(g in freed && g in freed')
    {
      DownToStep(mem, f, k, g, level);
      EntriesApart(mem, root, paths, f, k, g, level);
    }
    DisjointUnion(freed, freed');
    forall x, y | x in freed && y in freed' ensures IsNotBelow(paths, x, y) {
      EarlierIsNotAbove(mem, root, paths, f, k, x, y, level);
    }
    ChildrenStayFirst(paths, freed, freed');
    forall slot: Slot
      ensures slot in leaves + leaves' <==> SlotDownTo(mem, paths, f, k + 1, slot, level)
      ensures !(slot in leaves && slot in leaves')
    {
      DownToStep(mem, f, k, slot.0, level);
      EntriesApart(mem, root, paths, f, k, slot.0, level);
    }
    DisjointUnion(leaves, leaves');
  }

  lemma DoneWithLeaf(mem: Mem, paths: Paths, f: Frame, k: nat, level: nat, freed: seq<Frame>, leaves: seq<Slot>)
    requires f in paths && |paths[f]| + level == 4 && 1 <= level && k < ENTRIES
    requires Done(mem, paths, f, k, level, freed, leaves) && !IsTableEntry(EntryAt(mem, f, k), level)
    requires forall g :: DownTo(mem, f, k, g, level) ==> g != f
    ensures Done(mem, paths, f, k + 1, level, freed,
                 if IsLeafEntry(EntryAt(mem, f, k), level) then leaves + [(f, k)] else leaves)
  {
    forall g: Frame ensures DownTo(mem, f, k + 1, g, level) <==> DownTo(mem, f, k, g, level) {
      DownToStep(mem, f, k, g, level);
    }
    DisjointUnion(leaves, [(f, k)]);
  }

  /** Frees the tables below `f` and then `f`, each once; every page entry is visited once. */
  method FreeTable(mem: Mem, f: Frame, level: nat, ghost root: Frame, ghost paths: Paths)
    returns (freed: seq<Frame>, leaves: seq<Slot>)
    requires IsTree(mem, root, paths) && f in paths && |paths[f]| + level == 4 && 1 <= level
    ensures Freed(mem, paths, f, level, freed, leaves)
    ensures |freed| > 0 && freed[|freed| - 1] == f
    decreases level
  {
    freed, leaves := [], [];
    var index := 0;
    while index < ENTRIES
      invariant 0 <= index <= ENTRIES
      invariant Done(mem, paths, f, index, level, freed, leaves)
    {
      var e := EntryAt(mem, f, index);
      if IsPresent(e) && !(level == 1 || IsHuge(e)) {
        assert TableInv(mem, paths, f) && LinkInv(mem, paths, f, index);
        var freed', leaves' := FreeTable(mem, FrameOf(e), level - 1, root, paths);
        DoneWithTable(mem, root, paths, f, index, level, freed, leaves, freed', leaves');
        freed, leaves := freed + freed', leaves + leaves';
      } else {
        forall g ensures DownTo(mem, f, index, g, level) ==> g != f {
          EntriesApart(mem, root, paths, f, index, g, level);
        }
        DoneWithLeaf(mem, paths, f, index, level, freed, leaves);
        if IsPresent(e) { leaves := leaves + [(f, index)]; }
      }
      index := index + 1;
    }
    DoneIsFreed(mem, root, paths, f, level, freed, leaves);
    freed := freed + [f];
  }

  lemma DoneIsFreed(mem: Mem, root: Frame, paths: Paths, f: Frame, level: nat, freed: seq<Frame>, leaves: seq<Slot>)
    requires IsTree(mem, root, paths) && f in paths && |paths[f]| + level == 4
    requires Done(mem, paths, f, ENTRIES, level, freed, leaves)
    ensures Freed(mem, paths, f, level, freed + [f], leaves)
  {
    forall g: Frame ensures Below(mem, f, g, level) <==> g == f || DownTo(mem, f, ENTRIES, g, level) { }
    EntriesApart(mem, root, paths, f, ENTRIES, f, level);
    DisjointUnion(freed, [f]);
    forall x | x in freed ensures IsNotBelow(paths, x, f) {
      EarlierIsNotAbove(mem, root, paths, f, ENTRIES, x, f, level);
    }
    ChildrenStayFirst(paths, freed, [f]);
  }

  /** The two memories differ at most in the root table. */
  ghost predicate SameBelowRoot(mem: Mem, mem': Mem, root: Frame) {
    forall f: Frame, i: nat :: f != root ==> EntryAt(mem, f, i) == EntryAt(mem', f, i)
  }

  lemma {:induction false} BelowSame(mem: Mem, mem': Mem, root: Frame, paths: Paths, f: Frame, g: Frame, level: nat)
    requires IsTree(mem, root, paths) && SameBelowRoot(mem, mem', root)
    requires f in paths && paths[f] != [] && |paths[f]| + level == 4
    ensures Below(mem, f, g, level) <==> Below(mem', f, g, level)
    decreases level
  {
    forall j: nat ensures BelowEntry(mem, f, j, g, level) <==> BelowEntry(mem', f, j, g, level) {
      assert EntryAt(mem, f, j) == EntryAt(mem', f, j);
      if level > 1 && j < ENTRIES && IsTableEntry(EntryAt(mem, f, j), level) {
        assert TableInv(mem, paths, f) && LinkInv(mem, paths, f, j);
        BelowSame(mem, mem', root, paths, FrameOf(EntryAt(mem, f, j)), g, level - 1);
      }
    }
  }

  lemma FreedSame(mem: Mem, mem': Mem, root: Frame, paths: Paths, f: Frame, level: nat, freed: seq<Frame>,
                  leaves: seq<Slot>)
    requires IsTree(mem, root, paths) && SameBelowRoot(mem, mem', root)
    requires f in paths && paths[f] != [] && |paths[f]| + level == 4 && Freed(mem', paths, f, level, freed, leaves)
    ensures Freed(mem, paths, f, level, freed, leaves)
  {
    forall g: Frame ensures Below(mem, f, g, level) <==> Below(mem', f, g, level) {
      BelowSame(mem, mem', root, paths, f, g, level);
    }
    forall slot: Slot | Below(mem, f, slot.0, level)
      ensures IsLeafSlot(mem, paths, slot) <==> IsLeafSlot(mem', paths, slot)
    {
      BelowExtendsPath(mem, root, paths, f, slot.0, level);
      assert EntryAt(mem, slot.0, slot.1) == EntryAt(mem', slot.0, slot.1);
    }
  }

  lemma ClearKeepsTree(mem: Mem, root: Frame, paths: Paths, i: nat)
    requires IsTree(mem, root, paths) && root in mem && i < |mem[root]|
    ensures IsTree(WriteEntry(mem, root, i, 0), root, paths)
  {
    var mem' := WriteEntry(mem, root, i, 0);
    TestBits(0);
    forall f: Frame ensures TableInv(mem', paths, f) {
      assert TableInv(mem, paths, f);
      if f in paths {
        forall j: nat ensures LinkInv(mem', paths, f, j) { assert LinkInv(mem, paths, f, j); }
      }
    }
  }

  /**
   Frees every table below the user half of `root`, each once, visits every user page entry once,
   and leaves no user address mapped and every kernel entry as it was.
   */
  method FreeUserHalf(mem: Mem, root: Frame, ghost paths: Paths)
    returns (mem': Mem, freed: seq<Frame>, leaves: seq<Slot>)
    requires IsTree(mem, root, paths)
    ensures Done(mem, paths, root, USER_PML4_ENTRIES, 4, freed, leaves)
    ensures IsTree(mem', root, paths) && root !in freed
    ensures forall virt: nat :: virt < TWO_48 / 2 ==> Resolve(mem', root, Path(virt)).None?
    ensures forall i: nat :: USER_PML4_ENTRIES <= i ==> EntryAt(mem', root, i) == EntryAt(mem, root, i)
  {
    mem', freed, leaves := mem, [], [];
    var index := 0;
    while index < USER_PML4_ENTRIES
      invariant 0 <= index <= USER_PML4_ENTRIES
      invariant IsTree(mem', root, paths) && SameBelowRoot(mem, mem', root)
      invariant Done(mem, paths, root, index, 4, freed, leaves)
      invariant forall i: nat :: i < index ==> !IsPresent(EntryAt(mem', root, i))
      invariant forall i: nat :: index <= i ==> EntryAt(mem', root, i) == EntryAt(mem, root, i)
    {
      assert TableInv(mem', paths, root) && LinkInv(mem', paths, root, index);
      var e := EntryAt(mem', root, index);
      if IsPresent(e) {
        var freed', leaves' := FreeTable(mem', FrameOf(e), 3, root, paths);
        FreedSame(mem, mem', root, paths, FrameOf(e), 3, freed', leaves');
        DoneWithTable(mem, root, paths, root, index, 4, freed, leaves, freed', leaves');
        freed, leaves := freed + freed', leaves + leaves';
        ClearKeepsTree(mem', root, paths, index);
        TestBits(0);
        ghost var before := mem';
        mem' := WriteEntry(mem', root, index, 0);
        forall i: nat | i < index + 1 ensures !IsPresent(EntryAt(mem', root, i)) {
          assert i < index ==> EntryAt(mem', root, i) == EntryAt(before, root, i);
        }
      } else {
        forall g ensures DownTo(mem, root, index, g, 4) ==> g != root {
          EntriesApart(mem, root, paths, root, index, g, 4);
        }
        DoneWithLeaf(mem, paths, root, index, 4, freed, leaves);
      }
      index := index + 1;
    }
    EntriesApart(mem, root, paths, root, USER_PML4_ENTRIES, root, 4);
    forall virt: nat | virt < TWO_48 / 2 ensures Resolve(mem', root, Path(virt)).None? {
      UserIndex(virt);
    }
  }

  lemma UserIndex(virt: nat)
    requires virt < TWO_48 / 2
    ensures Pml4Index(virt) < USER_PML4_ENTRIES
  {
    IndexIsMod(virt / PML4_SPAN);
  }
}
