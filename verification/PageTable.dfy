/**
 Four-level page tables. `mem` holds the 512 entry words of each table frame; a
 walk through them gives each virtual address its mapping.
 */
module PageTableSpec {
  import opened Bits
  import opened Common
  import opened PageEntry

  type Frame = nat
  type Mem = map<Frame, seq<nat>>

  /** A page of `span` bytes at physical address `base`, and the flags of its leaf entry. */
  datatype Mapping = Mapping(base: nat, span: nat, flags: nat)

  const ENTRIES: nat := 512
  const TABLE_FLAGS: nat := 3

  function EntryAt(mem: Mem, f: Frame, i: nat): nat {
    if f in mem && i < |mem[f]| then mem[f][i] else 0
  }

  function Span(level: nat): nat {
    if level == 1 then PAGE_SIZE else if level == 2 then HUGE_SIZE else GIANT_SIZE
  }

  /** Follows `path` from table `f`; the length of the path is the level of the table. */
  function Resolve(mem: Mem, f: Frame, path: seq<nat>): (m: Option<Mapping>)
    requires |path| > 0
    ensures m.Some? ==> m.value.span in {PAGE_SIZE, HUGE_SIZE, GIANT_SIZE}
    decreases |path|
  {
    var e := EntryAt(mem, f, path[0]);
    if !IsPresent(e) then None
    else if |path| == 1 || (|path| <= 3 && IsHuge(e)) then Some(Mapping(FrameOf(e), Span(|path|), FlagsOf(e)))
    else Resolve(mem, FrameOf(e), path[1..])
  }

  function Translation(m: Option<Mapping>, virt: nat): Option<nat>
    requires m.Some? ==> m.value.span > 0
  {
    if m.None? then None else Some(m.value.base + virt % m.value.span)
  }

  /** Follows `path` through tables only. */
  function NodeAt(mem: Mem, f: Frame, path: seq<nat>): Option<Frame>
    decreases |path|
  {
    if path == [] then Some(f)
    else
      var e := EntryAt(mem, f, path[0]);
      if !IsPresent(e) || IsHuge(e) then None else NodeAt(mem, FrameOf(e), path[1..])
  }

  /** The walk passes only writable entries, which is what a store needs. */
  predicate MayWrite(mem: Mem, f: Frame, path: seq<nat>)
    requires |path| > 0
    decreases |path|
  {
    var e := EntryAt(mem, f, path[0]);
    && IsPresent(e) && IsWritable(e)
    && (|path| == 1 || (|path| <= 3 && IsHuge(e)) || MayWrite(mem, FrameOf(e), path[1..]))
  }

  // The tables form a tree: `paths` gives each table the one path that leads to it.

  type Paths = map<Frame, seq<nat>>

  ghost predicate LinkInv(mem: Mem, paths: Paths, f: Frame, i: nat)
    requires f in paths
  {
    var e := EntryAt(mem, f, i);
    i < ENTRIES && |paths[f]| < 3 && IsPresent(e) && !(|paths[f]| == 2 && IsHuge(e)) ==>
      !IsHuge(e) && IsWritable(e) && FrameOf(e) in paths && paths[FrameOf(e)] == paths[f] + [i]
  }

  ghost predicate TableInv(mem: Mem, paths: Paths, f: Frame) {
    f in paths ==> f in mem && |mem[f]| == ENTRIES && |paths[f]| <= 3 && forall i: nat :: LinkInv(mem, paths, f, i)
  }

  ghost predicate IsTree(mem: Mem, root: Frame, paths: Paths) {
    root in paths && paths[root] == [] && forall f: Frame :: TableInv(mem, paths, f)
  }

  predicate IsPath(path: seq<nat>) {
    forall i :: 0 <= i < |path| ==> path[i] < ENTRIES
  }

  /** No table is reached along two paths. */
  lemma {:induction false} NodesAreDistinct(mem: Mem, root: Frame, paths: Paths, f: Frame, path: seq<nat>)
    requires IsTree(mem, root, paths) && f in paths && IsPath(path) && |paths[f]| + |path| <= 3
    ensures var n := NodeAt(mem, f, path); n.Some? ==> n.value in paths && paths[n.value] == paths[f] + path
    decreases |path|
  {
    assert TableInv(mem, paths, f);
    if path == [] {
      assert paths[f] + path == paths[f];
    } else {
      assert LinkInv(mem, paths, f, path[0]);
      var e := EntryAt(mem, f, path[0]);
      if IsPresent(e) && !IsHuge(e) {
        assert (paths[f] + [path[0]]) + path[1..] == paths[f] + path;
        NodesAreDistinct(mem, root, paths, FrameOf(e), path[1..]);
      }
    }
  }

  /** A page can be written if and only if its leaf entry says so: the tables above it never forbid it. */
  lemma {:induction false} LeafDecidesWrites(mem: Mem, root: Frame, paths: Paths, f: Frame, path: seq<nat>)
    requires IsTree(mem, root, paths) && f in paths && IsPath(path) && 0 < |path| && |paths[f]| + |path| == 4
    ensures var m := Resolve(mem, f, path); MayWrite(mem, f, path) <==> m.Some? && IsWritable(m.value.flags)
    decreases |path|
  {
    assert TableInv(mem, paths, f);
    assert LinkInv(mem, paths, f, path[0]);
    var e := EntryAt(mem, f, path[0]);
    FlagsKeepWritable(e);
    if IsPresent(e) && |path| > 1 && !(|path| <= 3 && IsHuge(e)) {
      LeafDecidesWrites(mem, root, paths, FrameOf(e), path[1..]);
    }
  }

  lemma {:induction false} ResolveThroughNode(mem: Mem, f: Frame, path: seq<nat>, rest: seq<nat>)
    requires NodeAt(mem, f, path).Some? && |rest| > 0
    ensures Resolve(mem, f, path + rest) == Resolve(mem, NodeAt(mem, f, path).value, rest)
    decreases |path|
  {
    if path == [] {
      assert path + rest == rest;
    } else {
      assert (path + rest)[1..] == path[1..] + rest;
      ResolveThroughNode(mem, FrameOf(EntryAt(mem, f, path[0])), path[1..], rest);
    }
  }

  lemma {:induction false} NodeThroughNode(mem: Mem, f: Frame, path: seq<nat>, i: nat)
    requires NodeAt(mem, f, path).Some?
    ensures NodeAt(mem, f, path + [i]) == NodeAt(mem, NodeAt(mem, f, path).value, [i])
    decreases |path|
  {
    if path == [] {
      assert path + [i] == [i];
    } else {
      assert (path + [i])[1..] == path[1..] + [i];
      NodeThroughNode(mem, FrameOf(EntryAt(mem, f, path[0])), path[1..], i);
    }
  }

  function WriteEntry(mem: Mem, f: Frame, i: nat, e: nat): Mem
    requires f in mem && i < |mem[f]|
  {
    var row: seq<nat> := mem[f][i := e];
    mem[f := row]
  }

  /** Writing an entry changes nothing for a walk that does not pass it. */
  lemma {:induction false} WriteElsewhere(mem: Mem, root: Frame, paths: Paths, g: Frame, i: nat, e: nat, f: Frame,
                                          path: seq<nat>)
    requires IsTree(mem, root, paths) && f in paths && IsPath(path) && 0 < |path| && |paths[f]| + |path| == 4
    requires g in paths && g in mem && i < |mem[g]|
    requires !(paths[g] + [i] <= paths[f] + path)
    ensures Resolve(WriteEntry(mem, g, i, e), f, path) == Resolve(mem, f, path)
    decreases |path|
  {
    assert TableInv(mem, paths, f);
    assert LinkInv(mem, paths, f, path[0]);
    assert (paths[f] + path)[..|paths[f]| + 1] == paths[f] + [path[0]];
    var w := EntryAt(mem, f, path[0]);
    if IsPresent(w) && |path| > 1 && !(|path| <= 3 && IsHuge(w)) {
      assert (paths[f] + [path[0]]) + path[1..] == paths[f] + path;
      WriteElsewhere(mem, root, paths, g, i, e, FrameOf(w), path[1..]);
    }
  }

  /** The same for the tables along a path. */
  lemma {:induction false} WriteElsewhereNode(mem: Mem, root: Frame, paths: Paths, g: Frame, i: nat, e: nat, f: Frame,
                                              path: seq<nat>)
    requires IsTree(mem, root, paths) && f in paths && IsPath(path) && |paths[f]| + |path| <= 3
    requires g in paths && g in mem && i < |mem[g]|
    requires !(paths[g] + [i] <= paths[f] + path)
    ensures NodeAt(WriteEntry(mem, g, i, e), f, path) == NodeAt(mem, f, path)
    decreases |path|
  {
    if path != [] {
      assert TableInv(mem, paths, f);
      assert LinkInv(mem, paths, f, path[0]);
      assert (paths[f] + path)[..|paths[f]| + 1] == paths[f] + [path[0]];
      var w := EntryAt(mem, f, path[0]);
      if IsPresent(w) && !IsHuge(w) {
        assert (paths[f] + [path[0]]) + path[1..] == paths[f] + path;
        WriteElsewhereNode(mem, root, paths, g, i, e, FrameOf(w), path[1..]);
      }
    }
  }

  /** A table frame is page aligned and below 2^48, so that an entry can name it. */
  predicate IsTableFrame(n: Frame) {
    n % PAGE_SIZE == 0 && n < TWO_48
  }

  function ZeroTable(): seq<nat> {
    seq(ENTRIES, _ => 0)
  }

  /** Links the zeroed frame `n` at entry `i` of table `g`. */
  function LinkTable(mem: Mem, g: Frame, i: nat, n: Frame): Mem
    requires g in mem && i < |mem[g]| && g != n
  {
    WriteEntry(mem[n := ZeroTable()], g, i, NewPage(n, TABLE_FLAGS))
  }

  lemma TableEntry(n: Frame)
    requires IsTableFrame(n)
    ensures var e := NewPage(n, TABLE_FLAGS); IsPresent(e) && IsWritable(e) && !IsHuge(e) && FrameOf(e) == n
    ensures !IsPresent(0)
  {
    FrameRoundTripIff(n, TABLE_FLAGS);
    PresenceOfNewPage(n, TABLE_FLAGS);
    TestBits(TABLE_FLAGS);
    TestBits(0);
    assert Bit(3, 0) && Bit(3, 1) && !Bit(3, 7);
  }

  /** What linking requires: a free slot of a table that is not a leaf table, and a frame that is no table yet. */
  ghost predicate CanLink(mem: Mem, root: Frame, paths: Paths, g: Frame, i: nat, n: Frame) {
    && IsTree(mem, root, paths) && g in paths && g in mem && i < ENTRIES && i < |mem[g]| && |paths[g]| < 3
    && !IsPresent(mem[g][i]) && n !in paths && IsTableFrame(n)
  }

  lemma LinkKeepsTree(mem: Mem, root: Frame, paths: Paths, g: Frame, i: nat, n: Frame)
    requires CanLink(mem, root, paths, g, i, n)
    ensures IsTree(LinkTable(mem, g, i, n), root, paths[n := paths[g] + [i]])
  {
    var mem', paths' := LinkTable(mem, g, i, n), paths[n := paths[g] + [i]];
    TableEntry(n);
    forall f: Frame ensures TableInv(mem', paths', f) {
      assert TableInv(mem, paths, f);
      if f in paths' {
        forall j: nat ensures LinkInv(mem', paths', f, j) {
          if f != n { assert LinkInv(mem, paths, f, j); }
        }
      }
    }
  }

  /** A new empty table changes no translation. */
  lemma {:induction false} LinkKeepsMappings(mem: Mem, root: Frame, paths: Paths, g: Frame, i: nat, n: Frame, f: Frame,
                                             path: seq<nat>)
    requires CanLink(mem, root, paths, g, i, n)
    requires f in paths && IsPath(path) && 0 < |path| && |paths[f]| + |path| == 4
    ensures Resolve(LinkTable(mem, g, i, n), f, path) == Resolve(mem, f, path)
    decreases |path|
  {
    var mem' := LinkTable(mem, g, i, n);
    TableEntry(n);
    assert TableInv(mem, paths, f);
    assert LinkInv(mem, paths, f, path[0]);
    var w := EntryAt(mem, f, path[0]);
    if f == g && path[0] == i {
      assert EntryAt(mem', n, path[1]) == 0;
      assert Resolve(mem', n, path[1..]).None?;
    } else {
      assert EntryAt(mem', f, path[0]) == w;
      if IsPresent(w) && |path| > 1 && !(|path| <= 3 && IsHuge(w)) {
        LinkKeepsMappings(mem, root, paths, g, i, n, FrameOf(w), path[1..]);
      }
    }
  }

  /** Tables that could be reached still can. */
  lemma {:induction false} LinkKeepsNode(mem: Mem, root: Frame, paths: Paths, g: Frame, i: nat, n: Frame, f: Frame,
                                         path: seq<nat>)
    requires CanLink(mem, root, paths, g, i, n)
    requires f in paths && IsPath(path) && |paths[f]| + |path| <= 3 && NodeAt(mem, f, path).Some?
    ensures NodeAt(LinkTable(mem, g, i, n), f, path) == NodeAt(mem, f, path)
    decreases |path|
  {
    if path != [] {
      assert TableInv(mem, paths, f);
      assert LinkInv(mem, paths, f, path[0]);
      var w := EntryAt(mem, f, path[0]);
      assert EntryAt(LinkTable(mem, g, i, n), f, path[0]) == w;
      LinkKeepsNode(mem, root, paths, g, i, n, FrameOf(w), path[1..]);
    }
  }

  /** Writing a leaf table's entry, or a huge page into a page directory, keeps the tree. */
  lemma WriteLeafKeepsTree(mem: Mem, root: Frame, paths: Paths, g: Frame, i: nat, e: nat)
    requires IsTree(mem, root, paths) && g in paths && g in mem && i < |mem[g]|
    requires |paths[g]| == 3 || (|paths[g]| == 2 && IsHuge(e))
    ensures IsTree(WriteEntry(mem, g, i, e), root, paths)
  {
    var mem' := WriteEntry(mem, g, i, e);
    forall f: Frame ensures TableInv(mem', paths, f) {
      assert TableInv(mem, paths, f);
      if f in paths {
        forall j: nat ensures LinkInv(mem', paths, f, j) { assert LinkInv(mem, paths, f, j); }
      }
    }
  }

  /** The mapping that an entry gives at level `level`. */
  function LeafOf(e: nat, level: nat): Option<Mapping> {
    if IsPresent(e) then Some(Mapping(FrameOf(e), Span(level), FlagsOf(e))) else None
  }

  /** Writing a leaf entry changes the mapping of exactly the addresses whose path passes it. */
  lemma WriteLeafMaps(mem: Mem, root: Frame, paths: Paths, g: Frame, prefix: seq<nat>, i: nat, e: nat, path: seq<nat>)
    requires IsTree(mem, root, paths) && g in mem && i < |mem[g]| && IsPath(path) && |path| == 4
    requires IsPath(prefix) && NodeAt(mem, root, prefix) == Some(g)
    requires |prefix| == 3 || (|prefix| == 2 && IsHuge(e))
    ensures Resolve(WriteEntry(mem, g, i, e), root, path) ==
      if prefix + [i] <= path then LeafOf(e, 4 - |prefix|) else Resolve(mem, root, path)
  {
    NodesAreDistinct(mem, root, paths, root, prefix);
    assert [] + prefix == prefix && [] + path == path;
    if prefix + [i] <= path {
      WriteLeafHere(mem, root, paths, g, prefix, i, e, path);
    } else {
      WriteElsewhere(mem, root, paths, g, i, e, root, path);
    }
  }

  lemma WriteLeafHere(mem: Mem, root: Frame, paths: Paths, g: Frame, prefix: seq<nat>, i: nat, e: nat, path: seq<nat>)
    requires IsTree(mem, root, paths) && g in paths && paths[g] == prefix && g in mem && i < |mem[g]| && |path| == 4
    requires IsPath(prefix) && NodeAt(mem, root, prefix) == Some(g) && prefix + [i] <= path
    requires |prefix| == 3 || (|prefix| == 2 && IsHuge(e))
    ensures Resolve(WriteEntry(mem, g, i, e), root, path) == LeafOf(e, 4 - |prefix|)
  {
    var mem' := WriteEntry(mem, g, i, e);
    assert [] + prefix == prefix && !(prefix + [i] <= prefix);
    WriteElsewhereNode(mem, root, paths, g, i, e, root, prefix);
    var rest := path[|prefix|..];
    assert path == prefix + rest && rest[0] == i;
    ResolveThroughNode(mem', root, prefix, rest);
    assert EntryAt(mem', g, i) == e;
  }

  /** The two memories map every address alike. */
  ghost predicate SameMappings(mem: Mem, mem': Mem, root: Frame) {
    forall path: seq<nat> | |path| == 4 && IsPath(path) :: Resolve(mem', root, path) == Resolve(mem, root, path)
  }
}
