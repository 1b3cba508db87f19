/** One process's descriptor table, with the hooks that keep reference counts. */
module FdTable {
  import opened Common

  const MAX_FDS: nat := 64
  const EBADF: int := -9
  const EMFILE: int := -24

  datatype FdEntry = FdEntry(vnode: nat, offset: nat, flags: nat)

  type Slots = seq<Option<FdEntry>>

  function Units(slot: Option<FdEntry>, v: nat): nat {
    if slot.Some? && slot.value.vnode == v then 1 else 0
  }

  /** How many slots name the vnode. */
  function CountOf(t: Slots, v: nat): nat {
    if t == [] then 0 else CountOf(t[..|t| - 1], v) + Units(t[|t| - 1], v)
  }

  lemma {:induction false} CountAfterUpdate(t: Slots, i: nat, slot: Option<FdEntry>, v: nat)
    requires i < |t|
    ensures CountOf(t[i := slot], v) == CountOf(t, v) - Units(t[i], v) + Units(slot, v)
    decreases |t|
  {
    var n := |t| - 1;
    if i < n {
      CountAfterUpdate(t[..n], i, slot, v);
      assert t[i := slot][..n] == t[..n][i := slot];
    } else {
      assert t[i := slot][..n] == t[..n];
    }
  }

  /** The reference counts behind the hooks; vnodes that are not counted are left alone. */
  class RefCounts {
    var counts: map<nat, int>

    method Inc(v: nat)
      modifies this
      ensures counts.Keys == old(counts).Keys
      ensures forall u :: u in counts ==> counts[u] == old(counts)[u] + if u == v then 1 else 0
    {
      if v in counts { counts := counts[v := counts[v] + 1]; }
    }

    method Dec(v: nat)
      modifies this
      ensures counts.Keys == old(counts).Keys
      ensures forall u :: u in counts ==> counts[u] == old(counts)[u] - if u == v then 1 else 0
    {
      if v in counts { counts := counts[v := counts[v] - 1]; }
    }
  }

  /** The counts moved by as much as the table names each vnode more or less often. */
  ghost predicate Conserves(before: map<nat, int>, after: map<nat, int>, was: Slots, now: Slots) {
    && after.Keys == before.Keys
    && forall v :: v in before ==> after[v] - before[v] == CountOf(now, v) - CountOf(was, v)
  }

  predicate IsOpen(t: Slots, fd: int) {
    0 <= fd < |t| && t[fd].Some?
  }

  /** The lowest free descriptor, or EMFILE. */
  predicate IsLowestFree(t: Slots, fd: int) {
    if fd == EMFILE then forall i :: 0 <= i < |t| ==> t[i].Some?
    else 0 <= fd < |t| && t[fd].None? && forall i :: 0 <= i < fd ==> t[i].Some?
  }

  class FdTable {
    const fds: array<Option<FdEntry>>

    ghost predicate Valid()
      reads this, fds
    {
      fds.Length == MAX_FDS
    }

    constructor ()
      ensures Valid() && fresh(fds) && forall i :: 0 <= i < MAX_FDS ==> fds[i].None?
    {
      fds := new Option<FdEntry>[MAX_FDS](_ => None);
    }

    /** The search that `alloc` and `dup` do. */
    method FindFree() returns (fd: int)
      requires Valid()
      ensures IsLowestFree(fds[..], fd)
    {
      fd := 0;
      while fd < MAX_FDS
        invariant 0 <= fd <= MAX_FDS
        invariant forall i :: 0 <= i < fd ==> fds[i].Some?
      {
        if fds[fd].None? { return; }
        fd := fd + 1;
      }
      fd := EMFILE;
    }

    method Alloc(vnode: nat, flags: nat) returns (fd: int)
      requires Valid()
      modifies fds
      ensures IsLowestFree(old(fds[..]), fd)
      ensures fds[..] == if fd == EMFILE then old(fds[..]) else old(fds[..])[fd := Some(FdEntry(vnode, 0, flags))]
    {
      fd := FindFree();
      if fd != EMFILE { fds[fd] := Some(FdEntry(vnode, 0, flags)); }
    }

    method Close(fd: int) returns (r: int)
      requires Valid()
      modifies fds
      ensures r == if IsOpen(old(fds[..]), fd) then 0 else EBADF
      ensures fds[..] == if r == 0 then old(fds[..])[fd := None] else old(fds[..])
    {
      if fd < 0 || fd >= MAX_FDS { return EBADF; }
      if fds[fd].None? { return EBADF; }
      fds[fd] := None;
      return 0;
    }

    /** Duplicates a descriptor to the lowest free one, and takes a reference for it. */
    method Dup(refs: RefCounts, oldFd: int) returns (fd: int)
      requires Valid()
      modifies fds, refs
      ensures !IsOpen(old(fds[..]), oldFd) ==> fd == EBADF
      ensures IsOpen(old(fds[..]), oldFd) ==> IsLowestFree(old(fds[..]), fd)
      ensures fds[..] == if fd < 0 then old(fds[..]) else old(fds[..])[fd := old(fds[..])[oldFd]]
      ensures Conserves(old(refs.counts), refs.counts, old(fds[..]), fds[..])
    {
      if oldFd < 0 || oldFd >= MAX_FDS { return EBADF; }
      var entry := fds[oldFd];
      if entry.None? { return EBADF; }
      fd := FindFree();
      if fd != EMFILE {
        ghost var t := fds[..];
        fds[fd] := entry;
        assert fds[..] == t[fd := entry];
        forall v ensures CountOf(fds[..], v) == CountOf(t, v) + Units(entry, v) { CountAfterUpdate(t, fd, entry, v); }
        refs.Inc(entry.value.vnode);
      }
    }

    /** Makes one descriptor an alias of another; an open target gives its reference up first. */
    method Dup2(refs: RefCounts, oldFd: int, newFd: int) returns (fd: int)
      requires Valid()
      modifies fds, refs
      ensures fd == if IsOpen(old(fds[..]), oldFd) && 0 <= newFd < MAX_FDS then newFd else EBADF
      ensures fds[..] == if fd == EBADF then old(fds[..]) else old(fds[..])[newFd := old(fds[..])[oldFd]]
      ensures Conserves(old(refs.counts), refs.counts, old(fds[..]), fds[..])
    {
      if oldFd < 0 || oldFd >= MAX_FDS || fds[oldFd].None? { return EBADF; }
      if oldFd == newFd {
        assert fds[..] == fds[..][newFd := fds[..][oldFd]];
        return newFd;
      }
      var entry := fds[oldFd];
      if newFd < 0 || newFd >= MAX_FDS { return EBADF; }
      ghost var t := fds[..];
      var replaced := fds[newFd];
      if replaced.Some? { refs.Dec(replaced.value.vnode); }
      fds[newFd] := entry;
      assert fds[..] == t[newFd := entry];
      forall v ensures CountOf(fds[..], v) == CountOf(t, v) - Units(replaced, v) + Units(entry, v) {
        CountAfterUpdate(t, newFd, entry, v);
      }
      refs.Inc(entry.value.vnode);
      return newFd;
    }

    /** The child's table: a copy, with a reference taken for every slot. */
    method CloneForFork(refs: RefCounts) returns (child: FdTable)
      requires Valid()
      modifies refs
      ensures child.Valid() && fresh(child) && fresh(child.fds) && child.fds[..] == fds[..]
      ensures refs.counts.Keys == old(refs.counts).Keys
      ensures forall v :: v in refs.counts && v != 0 ==> refs.counts[v] == old(refs.counts)[v] + CountOf(fds[..], v)
    {
      ghost var t := fds[..];
      var i := 0;
      while i < MAX_FDS
        invariant 0 <= i <= MAX_FDS && refs.counts.Keys == old(refs.counts).Keys
        invariant forall v :: v in refs.counts && v != 0 ==> refs.counts[v] == old(refs.counts)[v] + CountOf(t[..i], v)
      {
        assert t[..i + 1][..i] == t[..i];
        if fds[i].Some? && fds[i].value.vnode != 0 { refs.Inc(fds[i].value.vnode); }
        i := i + 1;
      }
      assert t[..MAX_FDS] == t;
      child := new FdTable();
      forall k | 0 <= k < MAX_FDS { child.fds[k] := fds[k]; }
      assert fds[..] == t;
    }
  }
}
