/** Which pages a process can store to: what fork and the faults do to the permission bits. */
module CowPermissions {
  import opened Common
  import opened CowSpec
  import opened CowMachine
  import opened CowRefinement

  /** For each process, the pages that it has and whether it can store to them. */
  type Perms = map<Pid, map<Vpn, bool>>

  /** A store succeeds, at once or after a copy-on-write fault. */
  predicate Storable(e: Pte) { e.writable || e.cow }

  function SetPerm(a: Perms, p: Pid, v: Vpn, w: bool): Perms {
    if p in a then a[p := a[p][v := w]] else a
  }

  /**
   The permissions as the steps ask for them. A private file page can always be stored to, and so
   can every private page once fork has reached it; faults and the rest of fork change nothing.
   */
  function PermNext(a: Perms, l: Label): Perms {
    match l
    case Spawn(p) => a[p := map[]]
    case MapFresh(p, v, f, page, w) => SetPerm(a, p, v, w)
    case FileMap(p, v, f) => SetPerm(a, p, v, true)
    case SharedFault(p, v, f, w) => SetPerm(a, p, v, w)
    case ForkMark(p, v) => SetPerm(a, p, v, true)
    case UnmapClear(p, v) => if p in a then a[p := a[p] - {v}] else a
    case ForkEnd(p, c) => if p in a then a[c := a[p]] else a
    case ExitBegin(p) => a - {p}
    case _ => a
  }

  function PermAfter(labels: seq<Label>): Perms {
    if labels == [] then map[] else PermNext(PermAfter(labels[..|labels| - 1]), labels[|labels| - 1])
  }

  predicate PermsOf(pt: map<Vpn, Pte>, perms: map<Vpn, bool>) {
    perms.Keys == pt.Keys && forall v :: v in pt ==> perms[v] == Storable(pt[v])
  }

  predicate PermsInv(s: State, a: Perms, q: Pid) {
    (q in a <==> Visible(s, q)) && (Visible(s, q) ==> PermsOf(s.procs[q].pt, a[q]))
  }

  predicate IsForkStep(l: Label) {
    l.ForkBegin? || l.ForkMark? || l.ForkShare? || l.ForkMap? || l.ForkCopyShared? || l.ForkEnd?
  }

  lemma ForkKeepsPerms(s: State, l: Label, a: Perms, q: Pid)
    requires Inv(s) && Enabled(s, l) && IsForkStep(l) && PermsInv(s, a, q) && PermsInv(s, a, l.p)
    ensures PermsInv(Next(s, l), PermNext(a, l), q)
  {
    assert PcInv(s, l.p) && PcInv(s, q);
    if l.ForkEnd? { ForkDone(s, l.p, l.c); }
  }

  lemma OtherKeepsPerms(s: State, l: Label, a: Perms, q: Pid)
    requires Enabled(s, l) && !IsForkStep(l) && PermsInv(s, a, q)
    ensures PermsInv(Next(s, l), PermNext(a, l), q)
  {
    if l.MapFresh? || l.FileMap? || l.SharedFault? || l.UnmapClear? {
      MapKeepsPerms(s, l, a, q);
    } else {
      RestKeepsPerms(s, l, a, q);
    }
  }

  lemma MapKeepsPerms(s: State, l: Label, a: Perms, q: Pid)
    requires Enabled(s, l) && (l.MapFresh? || l.FileMap? || l.SharedFault? || l.UnmapClear?) && PermsInv(s, a, q)
    ensures PermsInv(Next(s, l), PermNext(a, l), q)
  {
  }

  lemma RestKeepsPerms(s: State, l: Label, a: Perms, q: Pid)
    requires Enabled(s, l) && !IsForkStep(l) && PermsInv(s, a, q)
    requires !l.MapFresh? && !l.FileMap? && !l.SharedFault? && !l.UnmapClear?
    ensures PermsInv(Next(s, l), PermNext(a, l), q)
  {
  }

  lemma {:induction false} RunKeepsPerms(states: seq<State>, labels: seq<Label>, i: nat, q: Pid)
    requires IsRun(states, labels) && i < |states| && AllSafe(states, labels, i)
    ensures PermsInv(states[i], PermAfter(labels[..i]), q)
    decreases i
  {
    if i > 0 {
      var s, l, a := states[i - 1], labels[i - 1], PermAfter(labels[..i - 1]);
      RunKeepsPerms(states, labels, i - 1, q);
      RunKeepsInv(states, labels, i - 1);
      assert IsStep(s, l, states[i]);
      assert labels[..i][..i - 1] == labels[..i - 1];
      if IsForkStep(l) {
        RunKeepsPerms(states, labels, i - 1, l.p);
        ForkKeepsPerms(s, l, a, q);
      } else {
        OtherKeepsPerms(s, l, a, q);
      }
    }
  }

  /** As long as the steps are safe, a process can store to just the pages that the steps so far gave it to store to. */
  lemma PermissionsAre(states: seq<State>, labels: seq<Label>, i: nat, p: Pid, v: Vpn)
    requires IsRun(states, labels) && i < |states| && AllSafe(states, labels, i) && Visible(states[i], p)
    ensures var a := PermAfter(labels[..i]);
      && p in a && (v in a[p] <==> v in states[i].procs[p].pt)
      && (v in a[p] ==> a[p][v] == Storable(states[i].procs[p].pt[v]))
  {
    RunKeepsPerms(states, labels, i, p);
    var pt, perms := states[i].procs[p].pt, PermAfter(labels[..i])[p];
    assert v in pt <==> v in pt.Keys;
    assert v in perms <==> v in perms.Keys;
  }

  /** A copy-on-write fault leaves the page with the same bytes, and the process can store to it at once. */
  lemma CowFaultResolves(states: seq<State>, labels: seq<Label>, i: nat, p: Pid, v: Vpn, copy: Frame, off: nat)
    requires IsRun(states, labels) && i < |labels| && AllSafe(states, labels, i) && labels[i] == CowFault(p, v, copy)
    requires off < PAGE_SIZE
    ensures HasPage(states[i], p, v) && CanWrite(states[i + 1], p, v, off)
    ensures var s, s' := states[i], states[i + 1];
      PageOf(s', s'.procs[p].pt[v].frame) == PageOf(s, s.procs[p].pt[v].frame)
  {
    assert IsStep(states[i], labels[i], states[i + 1]);
    RunKeepsInv(states, labels, i);
    assert WholePage(states[i], states[i].procs[p].pt[v].frame);
  }

  predicate IsForked(pt: map<Vpn, Pte>) {
    forall v :: v in pt ==> pt[v].shared || (pt[v].cow && !pt[v].writable)
  }

  /**
   When fork returns, the child's page table is the parent's: MAP_SHARED entries as they were, and
   every other entry read-only and CoW in both.
   */
  lemma ForkCopiesTable(states: seq<State>, labels: seq<Label>, i: nat, p: Pid, c: Pid)
    requires IsRun(states, labels) && i < |labels| && AllSafe(states, labels, i) && labels[i] == ForkEnd(p, c)
    ensures p in states[i + 1].procs && c in states[i + 1].procs
    ensures states[i + 1].procs[c].pt == states[i + 1].procs[p].pt
    ensures IsForked(states[i + 1].procs[p].pt)
  {
    var s := states[i];
    assert IsStep(s, labels[i], states[i + 1]);
    RunKeepsInv(states, labels, i);
    ForkDone(s, p, c);
    forall v | v in s.procs[p].pt
      ensures s.procs[p].pt[v].shared || (s.procs[p].pt[v].cow && !s.procs[p].pt[v].writable)
    {
      assert EntryInv(s, p, v);
    }
  }
}
