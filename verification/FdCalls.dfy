/** Whole calls on descriptors, in runs of the machine that counts references. */
module FdCalls {
  import opened Common
  import opened FdRefs
  import Fd = FdTable

  predicate IsFree(t: Table, fd: int) { 0 <= fd < |t| && t[fd].None? }

  /** `fd` is the lowest free descriptor. */
  predicate IsLowest(t: Table, fd: int) {
    IsFree(t, fd) && forall i :: 0 <= i < fd ==> !IsFree(t, i)
  }

  /** The lowest free descriptor has become `slot`. */
  ghost predicate Adds(t: Table, slot: Option<Vnode>, t': Table) {
    exists n: nat :: IsLowest(t, n) && t' == t[n := slot]
  }

  /** What a call leaves of the caller's table: new descriptors are the lowest free ones, a pipe's read end first. */
  ghost predicate Leaves(t: Table, l: Label, t': Table) {
    match l
    case OpenFile(p, v) => Adds(t, Some(v), t')
    case Pipe(p, r, w) => exists mid :: Adds(t, Some(r), mid) && Adds(mid, Some(w), t')
    case Close(p, fd) => IsOpen(t, fd) && t' == t[fd := None]
    case Dup(p, fd) => IsOpen(t, fd) && Adds(t, t[fd], t')
    case Dup2(p, fd, to) => IsOpen(t, fd) && 0 <= to < |t| && t' == t[to := t[fd]]
    case ForkStart(p, child) => t' == t
    case _ => false
  }

  predicate IsReady(s: State, p: Pid) { p in s.procs && s.procs[p].pc.Ready? }

  predicate IsCall(l: Label) {
    l.OpenFile? || l.Pipe? || l.Close? || l.Dup? || l.Dup2? || l.ForkStart?
  }

  /** The first step of a call does what the call does to the table. */
  lemma CallBegins(s: State, l: Label)
    requires Inv(s) && Enabled(s, l) && IsCall(l)
    ensures Has(Next(s, l), l.p) && Leaves(s.procs[l.p].table, l, Next(s, l).procs[l.p].table)
    ensures InCallOf(Next(s, l), l)
  {
    StepKeepsInv(s, l);
    assert ProcInv(Next(s, l), l.p);
    var t := s.procs[l.p].table;
    if l.OpenFile? || l.Pipe? || l.Dup? { assert IsLowest(t, FirstFree(t, 0)); }
    if l.Pipe? {
      var mid := t[FirstFree(t, 0) := Some(l.r)];
      assert Adds(t, Some(l.r), mid);
      assert IsLowest(mid, FirstFree(t, FirstFree(t, 0) + 1));
    }
  }

  /** The caller is still in the call, or it has returned; a fork then has made the child. */
  predicate InCallOf(s: State, l: Label) {
    l.p in s.procs &&
    var pc := s.procs[l.p].pc;
    match l
    case Close(p, fd) => pc.Releasing? || pc.Ready?
    case Dup(p, fd) => pc.Acquiring? || pc.Ready?
    case Dup2(p, fd, to) => pc.Replacing? || pc.Acquiring? || pc.Ready?
    case ForkStart(p, child) => (pc.Cloning? && pc.child == child) || (pc.Ready? && Inherits(s, p, child))
    case _ => pc.Ready?
  }

  /** The child runs with a copy of the parent's table. */
  predicate Inherits(s: State, p: Pid, child: Pid) {
    p in s.procs && child in s.procs && s.procs[child].pc.Ready? && s.procs[child].table == s.procs[p].table
  }

  /** The other steps of a call leave the table alone. */
  lemma CallGoesOn(s: State, l: Label, call: Label)
    requires Inv(s) && Enabled(s, l) && l.p == call.p && InCallOf(s, call) && !IsReady(s, l.p)
    ensures l.p in Next(s, l).procs && Next(s, l).procs[l.p].table == s.procs[l.p].table && InCallOf(Next(s, l), call)
  {
    assert ProcInv(s, l.p);
    if l.ForkEnd? { ForkEndKeepsInv(s, l.p); }
  }

  /** No step of another process touches a caller. */
  lemma OthersStay(s: State, l: Label, p: Pid)
    requires Inv(s) && Enabled(s, l) && l.p != p && p in s.procs && !s.procs[p].pc.Embryo?
    ensures p in Next(s, l).procs && Next(s, l).procs[p] == s.procs[p]
  {
    assert ProcInv(s, l.p);
  }

  lemma {:induction false} CallProgress(states: seq<State>, labels: seq<Label>, i: nat, k: nat)
    requires IsRun(states, labels) && i < k <= |labels| && IsCall(labels[i])
    requires forall j :: i < j < k ==> !IsReady(states[j], labels[i].p)
    ensures labels[i].p in states[i].procs && InCallOf(states[k], labels[i])
    ensures Leaves(states[i].procs[labels[i].p].table, labels[i], states[k].procs[labels[i].p].table)
    decreases k
  {
    var call := labels[i];
    RunKeepsInv(states, labels, k - 1);
    assert states[k] == Next(states[k - 1], labels[k - 1]);
    if k == i + 1 {
      CallBegins(states[i], call);
    } else {
      CallProgress(states, labels, i, k - 1);
      assert !IsReady(states[k - 1], call.p);
      if labels[k - 1].p == call.p {
        CallGoesOn(states[k - 1], labels[k - 1], call);
      } else {
        OthersStay(states[k - 1], labels[k - 1], call.p);
      }
    }
  }

  /**
   When a call has returned, whatever other processes did meanwhile, the caller's table has changed
   as the call says and in no other way, and a forked child has a copy of it.
   */
  lemma CallReturns(states: seq<State>, labels: seq<Label>, i: nat, k: nat)
    requires IsRun(states, labels) && i < k <= |labels| && IsCall(labels[i])
    requires (forall j :: i < j < k ==> !IsReady(states[j], labels[i].p)) && IsReady(states[k], labels[i].p)
    ensures labels[i].p in states[i].procs
    ensures Leaves(states[i].procs[labels[i].p].table, labels[i], states[k].procs[labels[i].p].table)
    ensures labels[i].ForkStart? ==> Inherits(states[k], labels[i].p, labels[i].child)
  {
    CallProgress(states, labels, i, k);
  }
}
