/** Freeing the table tree of a process gives up its pages one by one, each once. */
module TeardownSteps {
  import opened Bits
  import opened Common
  import opened PageEntry
  import opened PageTableSpec
  import opened Teardown
  import Cow = CowMachine

  const USER_PAGES: nat := TWO_48 / 2 / PAGE_SIZE

  /** The tree maps exactly the pages of the process's table, all of them small. */
  ghost predicate Represents(mem: Mem, root: Frame, pt: map<Cow.Vpn, Cow.Pte>) {
    && (forall v :: v in pt ==> 0 <= v < USER_PAGES)
    && (forall v: nat :: v < USER_PAGES ==> IsSmall(Resolve(mem, root, Path(v * PAGE_SIZE)), pt, v))
  }

  predicate IsSmall(m: Option<Mapping>, pt: map<Cow.Vpn, Cow.Pte>, v: nat) {
    if v in pt then m.Some? && m.value.base == pt[v].frame && m.value.span == PAGE_SIZE else m.None?
  }

  /** The slot is the one that a walk for page `v` ends at. */
  predicate HoldsPage(paths: Paths, slot: Slot, v: nat) {
    slot.0 in paths && paths[slot.0] + [slot.1] == Path(v * PAGE_SIZE)
  }

  // Paths and pages

  lemma PageOfPath(a: nat, b: nat, c: nat, d: nat) returns (v: nat)
    requires a < USER_PML4_ENTRIES && b < 512 && c < 512 && d < 512
    ensures v < USER_PAGES && Path(v * PAGE_SIZE) == [a, b, c, d]
  {
    v := ((a * 512 + b) * 512 + c) * 512 + d;
    assert v * PAGE_SIZE / PAGE_SIZE == v;
    PathDigits(v * PAGE_SIZE);
    UserIndex(v * PAGE_SIZE);
    var path := Path(v * PAGE_SIZE);
    var high := Upper(path[0]) + (path[0] * 512 + path[1]) * 512 + path[2];
    DivModUnique(v, 512, (a * 512 + b) * 512 + c, d);
    DivModUnique(v, 512, high, path[3]);
    SameDigits(a, b, c, path[0], path[1], path[2]);
  }

  lemma SamePage(v: nat, w: nat)
    requires v < USER_PAGES && w < USER_PAGES && Path(v * PAGE_SIZE) == Path(w * PAGE_SIZE)
    ensures v == w
  {
    PathsTellPages(v * PAGE_SIZE, w * PAGE_SIZE);
    assert v * PAGE_SIZE / PAGE_SIZE == v && w * PAGE_SIZE / PAGE_SIZE == w;
  }

  // Leaves and pages

  /** A table below another is the one at the end of its path. */
  lemma {:induction false} NodeOfBelow(mem: Mem, root: Frame, paths: Paths, f: Frame, g: Frame, level: nat)
    requires IsTree(mem, root, paths) && f in paths && |paths[f]| + level == 4 && Below(mem, f, g, level)
    requires NodeAt(mem, root, paths[f]) == Some(f) && IsPath(paths[f])
    ensures g in paths && NodeAt(mem, root, paths[g]) == Some(g) && IsPath(paths[g])
    decreases level
  {
    if g != f {
      var j: nat :| BelowEntry(mem, f, j, g, level);
      var child := FrameOf(EntryAt(mem, f, j));
      assert TableInv(mem, paths, f) && LinkInv(mem, paths, f, j);
      NodeThroughNode(mem, root, paths[f], j);
      assert [j][1..] == [];
      NodeOfBelow(mem, root, paths, child, g, level - 1);
    }
  }

  /** A table below the user half: its path, and that walks pass through it. */
  lemma UserTable(mem: Mem, root: Frame, paths: Paths, f: Frame)
    requires IsTree(mem, root, paths) && DownTo(mem, root, USER_PML4_ENTRIES, f, 4)
    ensures f in paths && 1 <= |paths[f]| <= 3 && IsPath(paths[f]) && paths[f][0] < USER_PML4_ENTRIES
    ensures NodeAt(mem, root, paths[f]) == Some(f)
  {
    var j: nat :| j < USER_PML4_ENTRIES && BelowEntry(mem, root, j, f, 4);
    BelowEntryExtendsPath(mem, root, paths, root, j, f, 4);
    NodeOfBelow(mem, root, paths, root, f, 4);
    assert TableInv(mem, paths, f);
  }

  /** Every visited leaf holds a page of the process, and its frame. */
  lemma LeafHasPage(mem: Mem, root: Frame, paths: Paths, pt: map<Cow.Vpn, Cow.Pte>, slot: Slot) returns (v: nat)
    requires IsTree(mem, root, paths) && Represents(mem, root, pt)
    requires SlotDownTo(mem, paths, root, USER_PML4_ENTRIES, slot, 4)
    ensures v in pt && HoldsPage(paths, slot, v) && pt[v].frame == FrameOf(EntryAt(mem, slot.0, slot.1))
  {
    var f, i := slot.0, slot.1;
    assert TableInv(mem, paths, f) && LinkInv(mem, paths, f, i);
    assert DownTo(mem, root, USER_PML4_ENTRIES, f, 4);
    UserTable(mem, root, paths, f);
    var path := paths[f];
    if |path| == 3 {
      v := PageOfPath(path[0], path[1], path[2], i);
      assert path + [i] == [path[0], path[1], path[2], i];
      ResolveThroughNode(mem, root, path, [i]);
    } else {
      assert |path| == 2;
      v := PageOfPath(path[0], path[1], i, 0);
      assert path + [i, 0] == [path[0], path[1], i, 0];
      ResolveThroughNode(mem, root, path, [i, 0]);
      assert false;
    }
  }

  /** Every page of the process is held by a visited leaf. */
  lemma PageHasLeaf(mem: Mem, root: Frame, paths: Paths, pt: map<Cow.Vpn, Cow.Pte>, v: nat) returns (slot: Slot)
    requires IsTree(mem, root, paths) && Represents(mem, root, pt) && v in pt
    ensures SlotDownTo(mem, paths, root, USER_PML4_ENTRIES, slot, 4) && HoldsPage(paths, slot, v)
  {
    var path := Path(v * PAGE_SIZE);
    PathDigits(v * PAGE_SIZE);
    UserIndex(v * PAGE_SIZE);
    assert TableInv(mem, paths, root) && LinkInv(mem, paths, root, path[0]);
    var f := SmallPageTable(mem, root, path);
    UserNodeIsDown(mem, root, paths, path[..3], f);
    ResolveThroughNode(mem, root, path[..3], [path[3]]);
    assert path[..3] + [path[3]] == path;
    slot := (f, path[3]);
  }

  /** A table that a walk for a user page passes lies below the user half. */
  lemma UserNodeIsDown(mem: Mem, root: Frame, paths: Paths, path: seq<nat>, f: Frame)
    requires IsTree(mem, root, paths) && |path| == 3 && IsPath(path) && path[0] < USER_PML4_ENTRIES
    requires NodeAt(mem, root, path) == Some(f)
    ensures f in paths && paths[f] == path && DownTo(mem, root, USER_PML4_ENTRIES, f, 4)
  {
    NodesAreDistinct(mem, root, paths, root, path);
    assert [] + path == path;
    NodesAreBelow(mem, root, path, 4);
    var j: nat :| BelowEntry(mem, root, j, f, 4);
    BelowEntryExtendsPath(mem, root, paths, root, j, f, 4);
    assert j == path[0];
  }

  /** A walk that ends at a small page passes three tables. */
  lemma SmallPageTable(mem: Mem, root: Frame, path: seq<nat>) returns (f: Frame)
    requires |path| == 4 && Resolve(mem, root, path).Some? && Resolve(mem, root, path).value.span == PAGE_SIZE
    requires !IsHuge(EntryAt(mem, root, path[0]))
    ensures NodeAt(mem, root, path[..3]) == Some(f)
  {
    var f1 := FrameOf(EntryAt(mem, root, path[0]));
    var f2 := FrameOf(EntryAt(mem, f1, path[1]));
    f := FrameOf(EntryAt(mem, f2, path[2]));
    assert path[1..][1..] == path[2..] && path[2..][1..] == path[3..];
    assert Resolve(mem, root, path) == Resolve(mem, f1, path[1..]) == Resolve(mem, f2, path[2..]);
    assert !IsHuge(EntryAt(mem, f2, path[2]));
    assert path[..3][1..] == path[1..3] && path[1..3][1..] == [path[2]] && [path[2]][1..] == [];
    assert NodeAt(mem, f2, [path[2]]) == Some(f);
    assert NodeAt(mem, f1, path[1..3]) == Some(f);
  }

  /** A page is held by one leaf. */
  lemma OneLeaf(mem: Mem, root: Frame, paths: Paths, v: nat, slot: Slot, slot': Slot)
    requires IsTree(mem, root, paths) && HoldsPage(paths, slot, v) && HoldsPage(paths, slot', v)
    requires DownTo(mem, root, USER_PML4_ENTRIES, slot.0, 4) && DownTo(mem, root, USER_PML4_ENTRIES, slot'.0, 4)
    ensures slot == slot'
  {
    UserTable(mem, root, paths, slot.0);
    UserTable(mem, root, paths, slot'.0);
    var path := Path(v * PAGE_SIZE);
    assert paths[slot.0] == path[..3] && paths[slot'.0] == path[..3];
    assert slot.1 == path[3] && slot'.1 == path[3];
  }

  // The visit as steps of the process

  /** The steps that tear down pages `vs`, in this order, lead from `s` to `s'`. */
  ghost predicate TearRun(s: Cow.State, p: Cow.Pid, vs: seq<Cow.Vpn>, s': Cow.State)
    decreases |vs|
  {
    if vs == [] then s' == s
    else Cow.CanTearPage(s, p, vs[0]) && TearRun(Cow.DoTearPage(s, p, vs[0]), p, vs[1..], s')
  }

  /** The leaves hold these pages, in this order. */
  ghost predicate HoldPages(paths: Paths, leaves: seq<Slot>, vs: seq<Cow.Vpn>) {
    |vs| == |leaves| && forall k :: 0 <= k < |leaves| ==> 0 <= vs[k] < USER_PAGES && HoldsPage(paths, leaves[k], vs[k])
  }

  ghost predicate HasPage(paths: Paths, pt: map<Cow.Vpn, Cow.Pte>, slot: Slot) {
    exists v: nat :: v in pt && HoldsPage(paths, slot, v)
  }

  ghost function PageOf(paths: Paths, pt: map<Cow.Vpn, Cow.Pte>, slot: Slot): (v: nat)
    requires HasPage(paths, pt, slot)
    ensures v in pt && HoldsPage(paths, slot, v)
  {
    var v: nat :| v in pt && HoldsPage(paths, slot, v);
    v
  }

  /** The visited leaves hold each page of the process once. */
  lemma LeavesArePages(mem: Mem, root: Frame, paths: Paths, pt: map<Cow.Vpn, Cow.Pte>, freed: seq<Frame>,
                       leaves: seq<Slot>)
    returns (vs: seq<Cow.Vpn>)
    requires IsTree(mem, root, paths) && Represents(mem, root, pt)
    requires Done(mem, paths, root, USER_PML4_ENTRIES, 4, freed, leaves)
    ensures HoldPages(paths, leaves, vs) && NoDuplicates(vs) && forall v :: v in vs <==> v in pt
  {
    forall k | 0 <= k < |leaves| ensures HasPage(paths, pt, leaves[k]) {
      assert leaves[k] in leaves;
      var v := LeafHasPage(mem, root, paths, pt, leaves[k]);
    }
    vs := seq(|leaves|, k requires 0 <= k < |leaves| && HasPage(paths, pt, leaves[k]) => PageOf(paths, pt, leaves[k]));
    forall i, j | 0 <= i < j < |vs| ensures vs[i] != vs[j] {
      if vs[i] == vs[j] {
        LeafIsBelow(mem, root, paths, leaves[i]);
        LeafIsBelow(mem, root, paths, leaves[j]);
        OneLeaf(mem, root, paths, vs[i], leaves[i], leaves[j]);
      }
    }
    forall v | v in pt ensures v in vs {
      var slot := PageHasLeaf(mem, root, paths, pt, v);
      var k :| 0 <= k < |leaves| && leaves[k] == slot;
      SamePage(v, vs[k]);
    }
  }

  lemma LeafIsBelow(mem: Mem, root: Frame, paths: Paths, slot: Slot)
    requires IsTree(mem, root, paths) && SlotDownTo(mem, paths, root, USER_PML4_ENTRIES, slot, 4)
    ensures DownTo(mem, root, USER_PML4_ENTRIES, slot.0, 4)
  {
    assert TableInv(mem, paths, slot.0) && LinkInv(mem, paths, slot.0, slot.1);
  }

  /** The process maps no MAP_SHARED page. */
  predicate AllPrivate(s: Cow.State, p: Cow.Pid)
    requires p in s.procs
  {
    forall v :: v in s.procs[p].pt ==> !s.procs[p].pt[v].shared
  }

  /** Tearing down each page once, in any order, leaves a process that can be reaped. */
  lemma {:induction false} TearAll(s: Cow.State, p: Cow.Pid, vs: seq<Cow.Vpn>) returns (s': Cow.State)
    requires p in s.procs && s.procs[p].pc.Dying?
    requires NoDuplicates(vs) && forall v :: v in vs <==> v in s.procs[p].pt
    ensures TearRun(s, p, vs, s') && Cow.CanReap(s', p)
    ensures Cow.Inv(s) && AllPrivate(s, p) ==> Cow.Inv(s')
    decreases |vs|
  {
    if vs == [] {
      s' := s;
      assert forall v :: v !in s.procs[p].pt;
      assert s.procs[p].pt == map[];
    } else {
      assert vs[0] in vs;
      var next := Cow.DoTearPage(s, p, vs[0]);
      if Cow.Inv(s) { Cow.TearPageKeepsInv(s, p, vs[0]); }
      forall v ensures v in vs[1..] <==> v in next.procs[p].pt { RestOf(vs, v); }
      s' := TearAll(next, p, vs[1..]);
    }
  }

  lemma RestOf(vs: seq<Cow.Vpn>, v: Cow.Vpn)
    requires vs != [] && NoDuplicates(vs)
    ensures v in vs[1..] <==> v in vs && v != vs[0]
  {
    assert vs == [vs[0]] + vs[1..];
  }

  /**
   `free_user_mappings` of a dying process: the leaves that the tree walk visits are its pages, each
   once, and giving these up in the order of the visit leaves a process with no page.
   */
  method FreeUserMappings(mem: Mem, root: Frame, ghost paths: Paths, ghost s: Cow.State, ghost p: Cow.Pid)
    returns (mem': Mem, freed: seq<Frame>, leaves: seq<Slot>, ghost vs: seq<Cow.Vpn>, ghost s': Cow.State)
    requires IsTree(mem, root, paths) && Cow.Inv(s) && p in s.procs && s.procs[p].pc.Dying?
    requires Represents(mem, root, s.procs[p].pt)
    ensures HoldPages(paths, leaves, vs) && TearRun(s, p, vs, s') && Cow.CanReap(s', p)
    ensures AllPrivate(s, p) ==> Cow.Inv(s')
    ensures Represents(mem', root, map[]) && NoDuplicates(freed) && root !in freed
  {
    mem', freed, leaves := FreeUserHalf(mem, root, paths);
    vs := LeavesArePages(mem, root, paths, s.procs[p].pt, freed, leaves);
    s' := TearAll(s, p, vs);
  }
}
