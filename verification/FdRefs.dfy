/**
 Descriptor tables and the reference counts of pipe ends: a machine whose steps
 are the sections under a table's lock and the single changes of a count.

 A forked child's table is filled slot by slot as the parent takes the references
 for it; the child runs only when the table is complete.
 */
module FdRefs {
  import opened Bits
  import opened Common
  import Fd = FdTable

  type Pid = int
  type Vnode = int

  type Table = seq<Option<Vnode>>

  datatype Pc =
    | Ready
    | Releasing(v: Vnode)
    | Replacing(v: Vnode, a: int, b: int)
    | Acquiring(a: int, b: int)
    | Cloning(child: Pid, k: nat)
    | Embryo
    | Exiting(taken: Table, k: nat)

  datatype Proc = Proc(table: Table, pc: Pc)

  /** `refs` has the count of every pipe end that was created. */
  datatype State = State(procs: map<Pid, Proc>, refs: map<Vnode, nat>)

  datatype Label =
    | OpenFile(p: Pid, v: Vnode)
    | Pipe(p: Pid, r: Vnode, w: Vnode)
    | Close(p: Pid, fd: int)
    | Release(p: Pid)
    | Dup(p: Pid, fd: int)
    | Dup2(p: Pid, fd: int, to: int)
    | DropReplaced(p: Pid)
    | Acquire(p: Pid)
    | ForkStart(p: Pid, child: Pid)
    | CloneSlot(p: Pid)
    | ForkEnd(p: Pid)
    | Exit(p: Pid)
    | ExitRelease(p: Pid)
    | ExitEnd(p: Pid)

  function EmptyTable(): (t: Table)
    ensures |t| == Fd.MAX_FDS && forall i :: 0 <= i < Fd.MAX_FDS ==> t[i].None?
  {
    seq(Fd.MAX_FDS, _ => None)
  }

  /** The lowest free slot from `i` on, or the length. */
  function FirstFree(t: Table, i: nat): (r: nat)
    requires i <= |t|
    ensures i <= r <= |t| && (r < |t| ==> t[r].None?) && forall k :: i <= k < r ==> t[k].Some?
    decreases |t| - i
  {
    if i == |t| || t[i].None? then i else FirstFree(t, i + 1)
  }

  predicate IsOpen(t: Table, fd: int) {
    0 <= fd < |t| && t[fd].Some?
  }

  /** The count is a 32-bit word: taking one from zero would wrap. */
  function Decremented(refs: map<Vnode, nat>, v: Vnode): map<Vnode, nat> {
    if v !in refs then refs else refs[v := if refs[v] == 0 then TWO_32 - 1 else refs[v] - 1]
  }

  function Incremented(refs: map<Vnode, nat>, v: Vnode): map<Vnode, nat> {
    if v in refs then refs[v := refs[v] + 1] else refs
  }

  // Claims

  datatype Claim = Slot(pid: Pid, fd: int) | InFlight(pid: Pid)

  /** A slot whose reference has not been taken yet. */
  predicate IsTarget(pc: Pc, i: int) {
    (pc.Acquiring? && pc.b == i) || (pc.Replacing? && pc.b == i)
  }

  predicate SlotClaims(proc: Proc, i: int, v: Vnode) {
    || (0 <= i < |proc.table| && proc.table[i] == Some(v) && !IsTarget(proc.pc, i))
    || (proc.pc.Exiting? && proc.pc.k <= i < |proc.pc.taken| && proc.pc.taken[i] == Some(v))
  }

  predicate Pends(pc: Pc, v: Vnode) {
    (pc.Releasing? || pc.Replacing?) && pc.v == v
  }

  predicate IsClaim(s: State, c: Claim, v: Vnode) {
    c.pid in s.procs &&
    match c
    case Slot(p, i) => SlotClaims(s.procs[p], i, v)
    case InFlight(p) => Pends(s.procs[p].pc, v)
  }

  ghost predicate AreTheClaims(s: State, v: Vnode, cs: set<Claim>) {
    forall c :: c in cs <==> IsClaim(s, c, v)
  }

  lemma FinitelyManyClaims(s: State, v: Vnode)
    ensures exists cs :: AreTheClaims(s, v, cs)
  {
    var slots := set p, i | p in s.procs && 0 <= i < |s.procs[p].table| && IsClaim(s, Slot(p, i), v) :: Slot(p, i);
    var taken := set p, i |
      p in s.procs && s.procs[p].pc.Exiting? && 0 <= i < |s.procs[p].pc.taken|
      && IsClaim(s, Slot(p, i), v) :: Slot(p, i);
    var pending := set p | p in s.procs && IsClaim(s, InFlight(p), v) :: InFlight(p);
    assert AreTheClaims(s, v, slots + taken + pending);
  }

  /** Everything that holds a reference to `v`. */
  ghost function Claims(s: State, v: Vnode): (cs: set<Claim>)
    ensures forall c :: c in cs <==> IsClaim(s, c, v)
  {
    FinitelyManyClaims(s, v);
    var cs :| AreTheClaims(s, v, cs);
    cs
  }

  // Steps

  predicate Has(s: State, p: Pid) {
    p in s.procs && |s.procs[p].table| == Fd.MAX_FDS
  }

  function SetProc(s: State, p: Pid, table: Table, pc: Pc): State {
    s.(procs := s.procs[p := Proc(table, pc)])
  }

  /** New vnodes are fresh frames, which nothing names. */
  ghost predicate Enabled(s: State, l: Label) {
    Has(s, l.p) &&
    var t, pc := s.procs[l.p].table, s.procs[l.p].pc;
    match l
    case OpenFile(p, v) => pc.Ready? && FirstFree(t, 0) < Fd.MAX_FDS && v !in s.refs
    case Pipe(p, r, w) =>
      && pc.Ready? && FirstFree(t, 0) < Fd.MAX_FDS && FirstFree(t, FirstFree(t, 0) + 1) < Fd.MAX_FDS
      && r != w && r !in s.refs && w !in s.refs && Claims(s, r) == {} && Claims(s, w) == {}
    case Close(p, fd) => pc.Ready? && IsOpen(t, fd)
    case Release(p) => pc.Releasing?
    case Dup(p, fd) => pc.Ready? && IsOpen(t, fd) && FirstFree(t, 0) < Fd.MAX_FDS
    case Dup2(p, fd, to) => pc.Ready? && IsOpen(t, fd) && fd != to && 0 <= to < Fd.MAX_FDS
    case DropReplaced(p) => pc.Replacing?
    case Acquire(p) => pc.Acquiring? && IsOpen(t, pc.b)
    case ForkStart(p, child) => pc.Ready? && child !in s.procs
    case CloneSlot(p) => pc.Cloning? && pc.k < Fd.MAX_FDS && Has(s, pc.child)
    case ForkEnd(p) => pc.Cloning? && pc.k == Fd.MAX_FDS && pc.child in s.procs
    case Exit(p) => pc.Ready?
    case ExitRelease(p) => pc.Exiting? && pc.k < |pc.taken|
    case ExitEnd(p) => pc.Exiting? && pc.k == |pc.taken|
  }

  function DoPipe(s: State, p: Pid, r: Vnode, w: Vnode): State
    requires Has(s, p) && FirstFree(s.procs[p].table, 0) < Fd.MAX_FDS
    requires FirstFree(s.procs[p].table, FirstFree(s.procs[p].table, 0) + 1) < Fd.MAX_FDS
  {
    var t := s.procs[p].table;
    var i := FirstFree(t, 0);
    var j := FirstFree(t, i + 1);
    SetProc(s, p, t[i := Some(r)][j := Some(w)], Ready).(refs := s.refs[r := 1][w := 1])
  }

  function DoDup2(s: State, p: Pid, fd: int, to: int): State
    requires Has(s, p) && IsOpen(s.procs[p].table, fd) && 0 <= to < Fd.MAX_FDS
  {
    var t := s.procs[p].table;
    SetProc(s, p, t[to := t[fd]], if t[to].Some? then Replacing(t[to].value, fd, to) else Acquiring(fd, to))
  }

  function DoCloneSlot(s: State, p: Pid): State
    requires Has(s, p) && s.procs[p].pc.Cloning? && s.procs[p].pc.k < Fd.MAX_FDS && Has(s, s.procs[p].pc.child)
  {
    var t, c, k := s.procs[p].table, s.procs[p].pc.child, s.procs[p].pc.k;
    var s1 := SetProc(s, p, t, Cloning(c, k + 1));
    if t[k].None? then s1
    else SetProc(s1, c, s.procs[c].table[k := t[k]], s.procs[c].pc).(refs := Incremented(s.refs, t[k].value))
  }

  function DoExitRelease(s: State, p: Pid): State
    requires p in s.procs && s.procs[p].pc.Exiting? && s.procs[p].pc.k < |s.procs[p].pc.taken|
  {
    var pc := s.procs[p].pc;
    var s1 := SetProc(s, p, s.procs[p].table, Exiting(pc.taken, pc.k + 1));
    if pc.taken[pc.k].None? then s1 else s1.(refs := Decremented(s.refs, pc.taken[pc.k].value))
  }

  ghost function Next(s: State, l: Label): State
    requires Enabled(s, l)
  {
    var t, pc := s.procs[l.p].table, s.procs[l.p].pc;
    match l
    case OpenFile(p, v) => SetProc(s, p, t[FirstFree(t, 0) := Some(v)], Ready)
    case Pipe(p, r, w) => DoPipe(s, p, r, w)
    case Close(p, fd) => SetProc(s, p, t[fd := None], Releasing(t[fd].value))
    case Release(p) => SetProc(s, p, t, Ready).(refs := Decremented(s.refs, pc.v))
    case Dup(p, fd) => SetProc(s, p, t[FirstFree(t, 0) := t[fd]], Acquiring(fd, FirstFree(t, 0)))
    case Dup2(p, fd, to) => DoDup2(s, p, fd, to)
    case DropReplaced(p) => SetProc(s, p, t, Acquiring(pc.a, pc.b)).(refs := Decremented(s.refs, pc.v))
    case Acquire(p) => SetProc(s, p, t, Ready).(refs := Incremented(s.refs, t[pc.b].value))
    case ForkStart(p, child) => SetProc(SetProc(s, p, t, Cloning(child, 0)), child, EmptyTable(), Embryo)
    case CloneSlot(p) => DoCloneSlot(s, p)
    case ForkEnd(p) => SetProc(SetProc(s, p, t, Ready), pc.child, s.procs[pc.child].table, Ready)
    case Exit(p) => SetProc(s, p, EmptyTable(), Exiting(t, 0))
    case ExitRelease(p) => DoExitRelease(s, p)
    case ExitEnd(p) => s.(procs := s.procs - {p})
  }

  // Invariants

  /** The count is the number of holders. */
  ghost predicate Counted(s: State, v: Vnode) {
    v in s.refs ==> s.refs[v] == |Claims(s, v)|
  }

  ghost predicate ProcInv(s: State, p: Pid) {
    p in s.procs ==>
      var t := s.procs[p].table;
      && |t| == Fd.MAX_FDS
      && match s.procs[p].pc
         case Acquiring(a, b) => PairInv(t, a, b)
         case Replacing(v, a, b) => PairInv(t, a, b)
         case Cloning(c, k) => CloneInv(s, p, c, k)
         case Exiting(taken, k) =>
           |taken| == Fd.MAX_FDS && k <= Fd.MAX_FDS && forall i :: 0 <= i < Fd.MAX_FDS ==> t[i].None?
         case _ => true
  }

  /** The slot whose reference is under way duplicates another one. */
  predicate PairInv(t: Table, a: int, b: int) {
    0 <= a < |t| && 0 <= b < |t| && a != b && t[a].Some? && t[b] == t[a]
  }

  ghost predicate CloneInv(s: State, p: Pid, c: Pid, k: nat) {
    && p in s.procs && c in s.procs && c != p && k <= Fd.MAX_FDS
    && s.procs[c].pc.Embryo? && |s.procs[c].table| == Fd.MAX_FDS
    && |s.procs[p].table| == Fd.MAX_FDS
    && (forall i :: 0 <= i < k ==> s.procs[c].table[i] == s.procs[p].table[i])
    && (forall i :: k <= i < Fd.MAX_FDS ==> s.procs[c].table[i].None?)
    && (forall q :: q in s.procs && q != p && s.procs[q].pc.Cloning? ==> s.procs[q].pc.child != c)
  }

  ghost predicate Inv(s: State) {
    (forall v :: Counted(s, v)) && (forall p :: ProcInv(s, p))
  }

  // Counting

  ghost predicate SameClaims(s: State, s': State, v: Vnode) {
    forall c :: IsClaim(s', c, v) <==> IsClaim(s, c, v)
  }

  /** `c` is the one new claim. */
  ghost predicate OneMore(s: State, s': State, v: Vnode, c: Claim) {
    !IsClaim(s, c, v) && forall x :: IsClaim(s', x, v) <==> IsClaim(s, x, v) || x == c
  }

  lemma SameCount(s: State, s': State, v: Vnode)
    requires Counted(s, v) && SameClaims(s, s', v)
    requires (v in s'.refs <==> v in s.refs) && (v in s.refs ==> s'.refs[v] == s.refs[v])
    ensures Counted(s', v)
  {
    assert Claims(s', v) == Claims(s, v);
  }

  lemma CountUp(s: State, s': State, v: Vnode, c: Claim)
    requires Counted(s, v) && OneMore(s, s', v, c) && s'.refs == Incremented(s.refs, v)
    ensures Counted(s', v)
  {
    assert Claims(s', v) == Claims(s, v) + {c};
  }

  lemma CountDown(s: State, s': State, v: Vnode, c: Claim)
    requires Counted(s, v) && OneMore(s', s, v, c) && s'.refs == Decremented(s.refs, v)
    ensures Counted(s', v) && (v in s.refs ==> s.refs[v] > 0)
  {
    assert Claims(s, v) == Claims(s', v) + {c};
  }

  /** A slot's claim becomes a pending release. */
  lemma CountMoved(s: State, s': State, v: Vnode, c: Claim, d: Claim)
    requires Counted(s, v) && s'.refs == s.refs && c != d && IsClaim(s, c, v) && !IsClaim(s', c, v)
    requires !IsClaim(s, d, v) && IsClaim(s', d, v)
    requires forall x :: x != c && x != d ==> (IsClaim(s', x, v) <==> IsClaim(s, x, v))
    ensures Counted(s', v)
  {
    assert Claims(s', v) == Claims(s, v) - {c} + {d};
  }

  /** Only `p` changed, and it does not start a clone. */
  ghost predicate StepOf(s: State, s': State, p: Pid) {
    && p in s.procs && s'.procs.Keys == s.procs.Keys
    && (forall q :: q in s.procs && q != p ==> s'.procs[q] == s.procs[q])
    && !s.procs[p].pc.Embryo? && !s'.procs[p].pc.Cloning?
  }

  lemma OthersKeep(s: State, s': State, p: Pid, q: Pid)
    requires StepOf(s, s', p) && q != p && ProcInv(s, q)
    ensures ProcInv(s', q)
  {
  }

  /** The claims of the other processes stay. */
  lemma OwnClaims(s: State, s': State, p: Pid, v: Vnode)
    requires StepOf(s, s', p)
    requires forall i :: SlotClaims(s'.procs[p], i, v) <==> SlotClaims(s.procs[p], i, v)
    requires Pends(s'.procs[p].pc, v) <==> Pends(s.procs[p].pc, v)
    ensures SameClaims(s, s', v)
  {
    forall c ensures IsClaim(s', c, v) <==> IsClaim(s, c, v) { }
  }

  // Each step keeps the invariant

  lemma OpenFileKeepsInv(s: State, p: Pid, v: Vnode)
    requires Inv(s) && Has(s, p) && s.procs[p].pc.Ready? && FirstFree(s.procs[p].table, 0) < Fd.MAX_FDS && v !in s.refs
    ensures Inv(SetProc(s, p, s.procs[p].table[FirstFree(s.procs[p].table, 0) := Some(v)], Ready))
  {
    var t := s.procs[p].table;
    var s' := SetProc(s, p, t[FirstFree(t, 0) := Some(v)], Ready);
    forall q ensures ProcInv(s', q) { assert ProcInv(s, q); if q != p { OthersKeep(s, s', p, q); } }
    forall u ensures Counted(s', u) {
      assert Counted(s, u);
      if u != v { OwnClaims(s, s', p, u); SameCount(s, s', u); }
    }
  }

  lemma CloseKeepsInv(s: State, p: Pid, fd: int)
    requires Inv(s) && Has(s, p) && s.procs[p].pc.Ready? && IsOpen(s.procs[p].table, fd)
    ensures Inv(SetProc(s, p, s.procs[p].table[fd := None], Releasing(s.procs[p].table[fd].value)))
  {
    var t := s.procs[p].table;
    var v := t[fd].value;
    var s' := SetProc(s, p, t[fd := None], Releasing(v));
    forall q ensures ProcInv(s', q) { assert ProcInv(s, q); if q != p { OthersKeep(s, s', p, q); } }
    forall u ensures Counted(s', u) {
      assert Counted(s, u);
      if u == v {
        CountMoved(s, s', v, Slot(p, fd), InFlight(p));
      } else {
        OwnClaims(s, s', p, u);
        SameCount(s, s', u);
      }
    }
  }

  /** A pending release happens. */
  lemma ReleaseKeepsInv(s: State, p: Pid, pc: Pc)
    requires Inv(s) && p in s.procs && (s.procs[p].pc.Releasing? || s.procs[p].pc.Replacing?)
    requires pc == if s.procs[p].pc.Releasing? then Ready else Acquiring(s.procs[p].pc.a, s.procs[p].pc.b)
    ensures Inv(SetProc(s, p, s.procs[p].table, pc).(refs := Decremented(s.refs, s.procs[p].pc.v)))
    ensures s.procs[p].pc.v in s.refs ==> s.refs[s.procs[p].pc.v] > 0
  {
    var v := s.procs[p].pc.v;
    var s' := SetProc(s, p, s.procs[p].table, pc).(refs := Decremented(s.refs, v));
    forall q ensures ProcInv(s', q) { assert ProcInv(s, q); if q != p { OthersKeep(s, s', p, q); } }
    assert Counted(s, v);
    assert OneMore(s', s, v, InFlight(p));
    CountDown(s, s', v, InFlight(p));
    forall u | u != v ensures Counted(s', u) {
      assert Counted(s, u);
      OwnClaims(s, s', p, u);
      SameCount(s, s', u);
    }
  }

  lemma DupKeepsInv(s: State, p: Pid, fd: int, to: int)
    requires Inv(s) && Has(s, p) && s.procs[p].pc.Ready? && IsOpen(s.procs[p].table, fd)
    requires 0 <= to < Fd.MAX_FDS && s.procs[p].table[to].None?
    ensures Inv(SetProc(s, p, s.procs[p].table[to := s.procs[p].table[fd]], Acquiring(fd, to)))
  {
    var t := s.procs[p].table;
    var s' := SetProc(s, p, t[to := t[fd]], Acquiring(fd, to));
    forall q ensures ProcInv(s', q) { assert ProcInv(s, q); if q != p { OthersKeep(s, s', p, q); } }
    forall u ensures Counted(s', u) {
      assert Counted(s, u);
      OwnClaims(s, s', p, u);
      SameCount(s, s', u);
    }
  }

  lemma Dup2KeepsInv(s: State, p: Pid, fd: int, to: int)
    requires Inv(s) && Has(s, p) && s.procs[p].pc.Ready? && IsOpen(s.procs[p].table, fd) && fd != to
    requires 0 <= to < Fd.MAX_FDS
    ensures Inv(DoDup2(s, p, fd, to))
  {
    var t := s.procs[p].table;
    if t[to].None? {
      DupKeepsInv(s, p, fd, to);
    } else {
      var s' := DoDup2(s, p, fd, to);
      forall q ensures ProcInv(s', q) { assert ProcInv(s, q); if q != p { OthersKeep(s, s', p, q); } }
      forall u ensures Counted(s', u) {
        assert Counted(s, u);
        if u == t[to].value {
          CountMoved(s, s', u, Slot(p, to), InFlight(p));
        } else {
          OwnClaims(s, s', p, u);
          SameCount(s, s', u);
        }
      }
    }
  }

  lemma AcquireKeepsInv(s: State, p: Pid)
    requires Inv(s) && Has(s, p) && s.procs[p].pc.Acquiring? && IsOpen(s.procs[p].table, s.procs[p].pc.b)
    ensures Inv(SetProc(s, p, s.procs[p].table, Ready)
                  .(refs := Incremented(s.refs, s.procs[p].table[s.procs[p].pc.b].value)))
  {
    var t, b := s.procs[p].table, s.procs[p].pc.b;
    var v := t[b].value;
    var s' := SetProc(s, p, t, Ready).(refs := Incremented(s.refs, v));
    forall q ensures ProcInv(s', q) { assert ProcInv(s, q); if q != p { OthersKeep(s, s', p, q); } }
    assert Counted(s, v);
    assert OneMore(s, s', v, Slot(p, b));
    CountUp(s, s', v, Slot(p, b));
    forall u | u != v ensures Counted(s', u) {
      assert Counted(s, u);
      OwnClaims(s, s', p, u);
      SameCount(s, s', u);
    }
  }

  lemma PipeKeepsInv(s: State, p: Pid, r: Vnode, w: Vnode)
    requires Inv(s) && Enabled(s, Pipe(p, r, w))
    ensures Inv(DoPipe(s, p, r, w))
  {
    var t := s.procs[p].table;
    var i := FirstFree(t, 0);
    var j := FirstFree(t, i + 1);
    var s' := DoPipe(s, p, r, w);
    forall q ensures ProcInv(s', q) { assert ProcInv(s, q); if q != p { OthersKeep(s, s', p, q); } }
    NewEndIsCounted(s, s', r, Slot(p, i));
    NewEndIsCounted(s, s', w, Slot(p, j));
    forall u | u != r && u != w ensures Counted(s', u) { PipeKeepsCount(s, p, r, w, u); }
  }

  /** A new pipe changes no other count. */
  lemma PipeKeepsCount(s: State, p: Pid, r: Vnode, w: Vnode, u: Vnode)
    requires Inv(s) && Enabled(s, Pipe(p, r, w)) && u != r && u != w
    ensures Counted(DoPipe(s, p, r, w), u)
  {
    var s' := DoPipe(s, p, r, w);
    assert Counted(s, u);
    OwnClaims(s, s', p, u);
    SameCount(s, s', u);
  }

  lemma NewEndIsCounted(s: State, s': State, v: Vnode, c: Claim)
    requires Claims(s, v) == {} && v in s'.refs && s'.refs[v] == 1
    requires forall x :: x !in Claims(s, v) ==> (IsClaim(s', x, v) <==> x == c)
    ensures Counted(s', v)
  {
    assert Claims(s', v) == {c};
  }

  lemma ForkStartKeepsInv(s: State, p: Pid, child: Pid)
    requires Inv(s) && Has(s, p) && s.procs[p].pc.Ready? && child !in s.procs
    ensures Inv(SetProc(SetProc(s, p, s.procs[p].table, Cloning(child, 0)), child, EmptyTable(), Embryo))
  {
    var s' := SetProc(SetProc(s, p, s.procs[p].table, Cloning(child, 0)), child, EmptyTable(), Embryo);
    forall q | q in s.procs && s.procs[q].pc.Cloning? ensures s.procs[q].pc.child != child { assert ProcInv(s, q); }
    forall q ensures ProcInv(s', q) { assert ProcInv(s, q); }
    forall u ensures Counted(s', u) {
      assert Counted(s, u);
      forall c ensures IsClaim(s', c, u) <==> IsClaim(s, c, u) { }
      SameCount(s, s', u);
    }
  }

  lemma CloneSlotKeepsInv(s: State, p: Pid)
    requires Inv(s) && Has(s, p) && s.procs[p].pc.Cloning? && s.procs[p].pc.k < Fd.MAX_FDS
    requires Has(s, s.procs[p].pc.child)
    ensures Inv(DoCloneSlot(s, p))
  {
    var s' := DoCloneSlot(s, p);
    var t, c, k := s.procs[p].table, s.procs[p].pc.child, s.procs[p].pc.k;
    assert ProcInv(s, p) && ProcInv(s, c);
    forall q ensures ProcInv(s', q) { assert ProcInv(s, q); }
    if t[k].None? {
      forall u ensures Counted(s', u) {
        assert Counted(s, u);
        forall x ensures IsClaim(s', x, u) <==> IsClaim(s, x, u) { }
        SameCount(s, s', u);
      }
    } else {
      CloneSlotCounts(s, p);
    }
  }

  lemma CloneSlotCounts(s: State, p: Pid)
    requires Inv(s) && Has(s, p) && s.procs[p].pc.Cloning? && s.procs[p].pc.k < Fd.MAX_FDS
    requires Has(s, s.procs[p].pc.child)
    requires s.procs[p].table[s.procs[p].pc.k].Some?
    ensures forall u :: Counted(DoCloneSlot(s, p), u)
  {
    var s' := DoCloneSlot(s, p);
    var t, c, k := s.procs[p].table, s.procs[p].pc.child, s.procs[p].pc.k;
    var v := t[k].value;
    assert ProcInv(s, p);
    assert Counted(s, v);
    assert OneMore(s, s', v, Slot(c, k));
    CountUp(s, s', v, Slot(c, k));
    forall u | u != v ensures Counted(s', u) {
      assert Counted(s, u);
      forall x ensures IsClaim(s', x, u) <==> IsClaim(s, x, u) { }
      SameCount(s, s', u);
    }
  }

  lemma ForkEndKeepsInv(s: State, p: Pid)
    requires Inv(s) && Has(s, p) && s.procs[p].pc.Cloning? && s.procs[p].pc.k == Fd.MAX_FDS
    requires s.procs[p].pc.child in s.procs
    ensures var c := s.procs[p].pc.child;
      && s.procs[c].table == s.procs[p].table
      && Inv(SetProc(SetProc(s, p, s.procs[p].table, Ready), c, s.procs[c].table, Ready))
  {
    var c := s.procs[p].pc.child;
    var s' := SetProc(SetProc(s, p, s.procs[p].table, Ready), c, s.procs[c].table, Ready);
    assert ProcInv(s, p);
    forall q ensures ProcInv(s', q) { assert ProcInv(s, q); }
    forall u ensures Counted(s', u) {
      assert Counted(s, u);
      forall x ensures IsClaim(s', x, u) <==> IsClaim(s, x, u) { }
      SameCount(s, s', u);
    }
  }

  lemma ExitKeepsInv(s: State, p: Pid)
    requires Inv(s) && Has(s, p) && s.procs[p].pc.Ready?
    ensures Inv(SetProc(s, p, EmptyTable(), Exiting(s.procs[p].table, 0)))
  {
    var s' := SetProc(s, p, EmptyTable(), Exiting(s.procs[p].table, 0));
    forall q ensures ProcInv(s', q) { assert ProcInv(s, q); if q != p { OthersKeep(s, s', p, q); } }
    forall u ensures Counted(s', u) {
      assert Counted(s, u);
      OwnClaims(s, s', p, u);
      SameCount(s, s', u);
    }
  }

  lemma ExitReleaseKeepsInv(s: State, p: Pid)
    requires Inv(s) && p in s.procs && s.procs[p].pc.Exiting? && s.procs[p].pc.k < |s.procs[p].pc.taken|
    ensures Inv(DoExitRelease(s, p))
    ensures var x := s.procs[p].pc.taken[s.procs[p].pc.k]; x.Some? && x.value in s.refs ==> s.refs[x.value] > 0
  {
    var s' := DoExitRelease(s, p);
    var pc := s.procs[p].pc;
    assert ProcInv(s, p);
    forall q ensures ProcInv(s', q) { assert ProcInv(s, q); if q != p { OthersKeep(s, s', p, q); } }
    if pc.taken[pc.k].Some? {
      var v := pc.taken[pc.k].value;
      assert Counted(s, v);
      assert OneMore(s', s, v, Slot(p, pc.k));
      CountDown(s, s', v, Slot(p, pc.k));
    }
    forall u | pc.taken[pc.k] != Some(u) ensures Counted(s', u) {
      assert Counted(s, u);
      OwnClaims(s, s', p, u);
      SameCount(s, s', u);
    }
  }

  lemma ExitEndKeepsInv(s: State, p: Pid)
    requires Inv(s) && p in s.procs && s.procs[p].pc.Exiting? && s.procs[p].pc.k == |s.procs[p].pc.taken|
    ensures Inv(s.(procs := s.procs - {p}))
  {
    var s' := s.(procs := s.procs - {p});
    assert ProcInv(s, p);
    forall q ensures ProcInv(s', q) { assert ProcInv(s, q); }
    forall u ensures Counted(s', u) {
      assert Counted(s, u);
      forall x ensures IsClaim(s', x, u) <==> IsClaim(s, x, u) { }
      SameCount(s, s', u);
    }
  }

  lemma StepKeepsInv(s: State, l: Label)
    requires Inv(s) && Enabled(s, l)
    ensures Inv(Next(s, l))
  {
    match l
    case OpenFile(p, v) => OpenFileKeepsInv(s, p, v);
    case Pipe(p, r, w) => PipeKeepsInv(s, p, r, w);
    case Close(p, fd) => CloseKeepsInv(s, p, fd);
    case Release(p) => ReleaseKeepsInv(s, p, Ready);
    case Dup(p, fd) => DupKeepsInv(s, p, fd, FirstFree(s.procs[p].table, 0));
    case Dup2(p, fd, to) => Dup2KeepsInv(s, p, fd, to);
    case DropReplaced(p) => ReleaseKeepsInv(s, p, Acquiring(s.procs[p].pc.a, s.procs[p].pc.b));
    case Acquire(p) => AcquireKeepsInv(s, p);
    case ForkStart(p, child) => ForkStartKeepsInv(s, p, child);
    case CloneSlot(p) => CloneSlotKeepsInv(s, p);
    case ForkEnd(p) => ForkEndKeepsInv(s, p);
    case Exit(p) => ExitKeepsInv(s, p);
    case ExitRelease(p) => ExitReleaseKeepsInv(s, p);
    case ExitEnd(p) => ExitEndKeepsInv(s, p);
  }

  // Runs

  ghost predicate Init(s: State) {
    s.refs == map[] && forall p :: p in s.procs ==> s.procs[p] == Proc(EmptyTable(), Ready)
  }

  ghost predicate IsRun(states: seq<State>, labels: seq<Label>) {
    && |states| == |labels| + 1
    && Init(states[0])
    && (forall i :: 0 <= i < |labels| ==> Enabled(states[i], labels[i]) && states[i + 1] == Next(states[i], labels[i]))
  }

  lemma {:induction false} RunKeepsInv(states: seq<State>, labels: seq<Label>, i: nat)
    requires IsRun(states, labels) && i < |states|
    ensures Inv(states[i])
  {
    if i > 0 {
      RunKeepsInv(states, labels, i - 1);
      StepKeepsInv(states[i - 1], labels[i - 1]);
    }
  }

  predicate Names(s: State, p: Pid, fd: int, v: Vnode) {
    p in s.procs && 0 <= fd < |s.procs[p].table| && s.procs[p].table[fd] == Some(v)
  }

  /** Nothing names the end, and no release of it is under way. */
  ghost predicate NobodyHolds(s: State, v: Vnode) {
    (forall p, fd :: !Names(s, p, fd, v)) && forall c :: !IsClaim(s, c, v)
  }

  /** A pipe end's count is zero exactly when no process holds the end. */
  lemma ZeroIffNobodyHolds(states: seq<State>, labels: seq<Label>, i: nat, v: Vnode)
    requires IsRun(states, labels) && i < |states| && v in states[i].refs
    ensures states[i].refs[v] == 0 <==> NobodyHolds(states[i], v)
  {
    var s := states[i];
    RunKeepsInv(states, labels, i);
    assert Counted(s, v);
    if s.refs[v] == 0 {
      forall c ensures !IsClaim(s, c, v) { assert c !in Claims(s, v); }
      forall p, fd ensures !Names(s, p, fd, v) {
        assert ProcInv(s, p);
        assert !IsClaim(s, Slot(p, fd), v);
        if p in s.procs && IsTarget(s.procs[p].pc, fd) { assert !IsClaim(s, Slot(p, s.procs[p].pc.a), v); }
      }
    } else {
      assert Claims(s, v) != {};
    }
  }

  ghost predicate IsQuiet(s: State) {
    forall p :: p in s.procs ==> s.procs[p].pc.Ready?
  }

  /** With no call under way, the count is the number of descriptors that name the end, over all tables. */
  lemma CountIsSlots(states: seq<State>, labels: seq<Label>, i: nat, v: Vnode, slots: set<Claim>)
    requires IsRun(states, labels) && i < |states| && v in states[i].refs && IsQuiet(states[i])
    requires forall c :: c in slots <==> c.Slot? && Names(states[i], c.pid, c.fd, v)
    ensures states[i].refs[v] == |slots|
  {
    RunKeepsInv(states, labels, i);
    assert Counted(states[i], v);
    assert slots == Claims(states[i], v);
  }

  /** The end whose count a step takes one from. */
  predicate Drops(s: State, l: Label, v: Vnode) {
    l.p in s.procs &&
    var pc := s.procs[l.p].pc;
    || (l.Release? && pc.Releasing? && pc.v == v)
    || (l.DropReplaced? && pc.Replacing? && pc.v == v)
    || (l.ExitRelease? && pc.Exiting? && pc.k < |pc.taken| && pc.taken[pc.k] == Some(v))
  }

  /** No count is ever taken below zero. */
  lemma NeverUnderflows(states: seq<State>, labels: seq<Label>, i: nat, v: Vnode)
    requires IsRun(states, labels) && i < |labels| && v in states[i].refs && Drops(states[i], labels[i], v)
    ensures states[i].refs[v] > 0 && v in states[i + 1].refs && states[i + 1].refs[v] == states[i].refs[v] - 1
  {
    var s, l := states[i], labels[i];
    RunKeepsInv(states, labels, i);
    match l
    case Release(p) => ReleaseKeepsInv(s, p, Ready);
    case DropReplaced(p) => ReleaseKeepsInv(s, p, Acquiring(s.procs[p].pc.a, s.procs[p].pc.b));
    case ExitRelease(p) => ExitReleaseKeepsInv(s, p);
  }
}
