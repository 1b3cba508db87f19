/** Whole calls of `activate_address_space` and of an edit with its shootdown, in runs of the shootdown machine. */
module ShootdownCalls {
  import opened Common
  import opened Shootdown

  // The active sets

  /** The spaces in whose active sets a CPU is: during a switch, the old one and the new one. */
  predicate IsMarkedIn(core: Core, a: Space) {
    match core.pc
    case Marked(next, prev) => a == next || prev == Some(a)
    case Stored(next, prev) => a == next || prev == Some(a)
    case Loaded(next, prev) => a == next || prev == Some(a)
    case _ => core.cr3 == Some(a)
  }

  predicate MarksInv(s: State, c: Cpu, a: Space) {
    c in s.cores ==> (c in Active(s, a) <==> IsMarkedIn(s.cores[c], a))
  }

  lemma StepKeepsMarks(s: State, l: Label, c: Cpu, a: Space)
    requires Inv(s) && Enabled(s, l) && MarksInv(s, c, a)
    ensures MarksInv(Next(s, l), c, a)
  {
    assert CoreInv(s, c);
    if l.LMark? || l.LStore? || l.LLoad? || l.LUnmark? {
      SwitchKeepsMarks(s, l, c, a);
    } else {
      OtherKeepsMarks(s, l, c, a);
    }
  }

  lemma SwitchKeepsMarks(s: State, l: Label, c: Cpu, a: Space)
    requires Enabled(s, l) && MarksInv(s, c, a) && CoreInv(s, c)
    requires l.LMark? || l.LStore? || l.LLoad? || l.LUnmark?
    ensures MarksInv(Next(s, l), c, a)
  {
  }

  lemma OtherKeepsMarks(s: State, l: Label, c: Cpu, a: Space)
    requires Enabled(s, l) && MarksInv(s, c, a) && !l.LMark? && !l.LStore? && !l.LLoad? && !l.LUnmark?
    ensures MarksInv(Next(s, l), c, a)
  {
    assert Next(s, l).active == s.active;
  }

  lemma {:induction false} RunKeepsMarks(states: seq<State>, labels: seq<Label>, i: nat, c: Cpu, a: Space)
    requires IsRun(states, labels) && i < |states|
    ensures MarksInv(states[i], c, a)
  {
    if i > 0 {
      RunKeepsMarks(states, labels, i - 1, c, a);
      RunKeepsInv(states, labels, i - 1);
      StepKeepsMarks(states[i - 1], labels[i - 1], c, a);
    }
  }

  /**
   In every state of a run, a CPU that is not switching is in the active set of a space if and only
   if it has the space loaded; one that is switching is also in that of the space it leaves or enters.
   */
  lemma MarkedIffLoaded(states: seq<State>, labels: seq<Label>, i: nat, c: Cpu, a: Space)
    requires IsRun(states, labels) && i < |states| && c in states[i].cores
    ensures var core := states[i].cores[c];
      && (!IsActivating(core.pc) ==> (c in Active(states[i], a) <==> core.cr3 == Some(a)))
      && (IsActivating(core.pc) ==>
            (c in Active(states[i], a) <==> core.cr3 == Some(a) || core.pc.next == a || core.pc.prev == Some(a)))
  {
    RunKeepsMarks(states, labels, i, c, a);
    RunKeepsInv(states, labels, i);
    assert CoreInv(states[i], c);
  }

  // Calls

  predicate IsIdle(s: State, c: Cpu) { c in s.cores && s.cores[c].pc.Idle? }

  /** No state between `i` and `k` has the CPU outside its call. */
  ghost predicate InCall(states: seq<State>, c: Cpu, i: nat, k: nat) {
    k < |states| && forall j :: i < j < k ==> !IsIdle(states[j], c)
  }

  lemma OthersStay(s: State, l: Label, c: Cpu)
    requires Enabled(s, l) && c in s.cores && l.c != c
    ensures c in Next(s, l).cores && Next(s, l).cores[c].pc == s.cores[c].pc
  {
    MovesOne(s, l);
  }

  /** A step changes one CPU. */
  lemma MovesOne(s: State, l: Label)
    requires Enabled(s, l)
    ensures l.c in Next(s, l).cores && Next(s, l).cores == s.cores[l.c := Next(s, l).cores[l.c]]
  {
  }

  predicate IsSwitchingTo(pc: Pc, a: Space) { IsActivating(pc) && pc.next == a }

  lemma SwitchStep(s: State, l: Label, a: Space)
    requires Enabled(s, l) && l.c in s.cores && IsSwitchingTo(s.cores[l.c].pc, a)
    ensures l.c in Next(s, l).cores
    ensures var pc := Next(s, l).cores[l.c].pc;
      IsSwitchingTo(pc, a) || (pc.Idle? && l.LUnmark? && s.cores[l.c].pc.Loaded?)
  {
  }

  lemma {:induction false} SwitchProgress(states: seq<State>, labels: seq<Label>, c: Cpu, a: Space, i: nat, k: nat)
    requires IsRun(states, labels) && i < k <= |labels| && labels[i] == LMark(c, a) && InCall(states, c, i, k)
    ensures c in states[k].cores
    ensures IsSwitchingTo(states[k].cores[c].pc, a) || Unmarked(states[k - 1], labels[k - 1], states[k], c, a)
    decreases k
  {
    assert states[k] == Next(states[k - 1], labels[k - 1]);
    if k > i + 1 {
      SwitchProgress(states, labels, c, a, i, k - 1);
      assert !IsIdle(states[k - 1], c);
      if labels[k - 1].c != c {
        OthersStay(states[k - 1], labels[k - 1], c);
      } else {
        SwitchStep(states[k - 1], labels[k - 1], a);
      }
    }
  }

  /** The last step of a switch. */
  predicate Unmarked(s: State, l: Label, s': State, c: Cpu, a: Space) {
    && l == LUnmark(c) && c in s.cores && s.cores[c].pc.Loaded? && IsSwitchingTo(s.cores[c].pc, a) && IsIdle(s', c)
  }

  lemma AfterUnmark(s: State, l: Label, s': State, c: Cpu, a: Space)
    requires Inv(s) && Enabled(s, l) && s' == Next(s, l) && Unmarked(s, l, s', c, a)
    ensures s'.cores[c].cr3 == s'.cores[c].slot == Some(a)
  {
    assert CoreInv(s, c);
  }

  /** A switch that has returned has loaded the space and recorded it, and is in no other active set. */
  lemma SwitchReturns(states: seq<State>, labels: seq<Label>, c: Cpu, a: Space, i: nat, k: nat)
    requires IsRun(states, labels) && i < k <= |labels| && labels[i] == LMark(c, a)
    requires InCall(states, c, i, k) && IsIdle(states[k], c)
    ensures states[k].cores[c].cr3 == states[k].cores[c].slot == Some(a)
    ensures forall b :: c in Active(states[k], b) <==> b == a
  {
    SwitchProgress(states, labels, c, a, i, k);
    RunKeepsInv(states, labels, k - 1);
    AfterUnmark(states[k - 1], labels[k - 1], states[k], c, a);
    forall b ensures c in Active(states[k], b) <==> b == a { MarkedIffLoaded(states, labels, k, c, b); }
  }

  predicate IsShootingFor(pc: Pc, a: Space, v: Page, n: nat) {
    IsShooting(pc) && pc.space == a && pc.page == v && pc.version == n
  }

  lemma ShootStep(s: State, l: Label, a: Space, v: Page, n: nat)
    requires Enabled(s, l) && l.c in s.cores && IsShootingFor(s.cores[l.c].pc, a, v, n)
    ensures l.c in Next(s, l).cores
    ensures var pc := Next(s, l).cores[l.c].pc;
      IsShootingFor(pc, a, v, n) || (pc.Idle? && l.LResume? && s.cores[l.c].pc == Returned(a, v, n))
  {
  }

  lemma {:induction false} ShootProgress(states: seq<State>, labels: seq<Label>, c: Cpu, a: Space, v: Page, n: nat,
                                         i: nat, k: nat)
    requires IsRun(states, labels) && i < k <= |labels| && labels[i] == LEdit(c, a, v) && InCall(states, c, i, k)
    requires n == Version(states[i], a, v) + 1
    ensures c in states[k].cores
    ensures IsShootingFor(states[k].cores[c].pc, a, v, n) || Resumed(states[k - 1], labels[k - 1], c, a, v, n)
    decreases k
  {
    assert states[k] == Next(states[k - 1], labels[k - 1]);
    if k > i + 1 {
      ShootProgress(states, labels, c, a, v, n, i, k - 1);
      assert !IsIdle(states[k - 1], c);
      if labels[k - 1].c != c {
        OthersStay(states[k - 1], labels[k - 1], c);
      } else {
        ShootStep(states[k - 1], labels[k - 1], a, v, n);
      }
    }
  }

  predicate Resumed(s: State, l: Label, c: Cpu, a: Space, v: Page, n: nat) {
    l == LResume(c) && c in s.cores && s.cores[c].pc == Returned(a, v, n)
  }

  /** What `d` has cached for page `v` of space `a`, if anything, is version `n` or later. */
  predicate UpToDate(s: State, d: Cpu, a: Space, v: Page, n: nat)
    requires d in s.cores
  {
    var t := Tag(PcidOf(s, a), v);
    t in s.cores[d].tlb ==> s.cores[d].tlb[t].space == a && s.cores[d].tlb[t].version >= n
  }

  lemma AfterResume(s: State, l: Label, s': State, c: Cpu, a: Space, v: Page, n: nat, d: Cpu)
    requires Inv(s) && Enabled(s, l) && s' == Next(s, l) && Resumed(s, l, c, a, v, n)
    requires d in s'.cores && s'.cores[d].cr3 == Some(a)
    ensures UpToDate(s', d, a, v, n)
  {
    assert ShootInv(s, c, d) && TlbInv(s, d, v);
  }

  lemma LastStep(states: seq<State>, labels: seq<Label>, c: Cpu, a: Space, v: Page, n: nat, k: nat, d: Cpu)
    requires IsRun(states, labels) && 0 < k <= |labels| && Resumed(states[k - 1], labels[k - 1], c, a, v, n)
    requires d in states[k].cores && states[k].cores[d].cr3 == Some(a)
    ensures UpToDate(states[k], d, a, v, n)
  {
    RunKeepsInv(states, labels, k - 1);
    AfterResume(states[k - 1], labels[k - 1], states[k], c, a, v, n, d);
  }

  /**
   When an edit and its shootdown are over, no CPU that has the space loaded holds a translation of
   the page from before the edit, whatever the other CPUs did meanwhile.
   */
  lemma ShootdownReturns(states: seq<State>, labels: seq<Label>, c: Cpu, a: Space, v: Page, i: nat, k: nat, d: Cpu)
    requires IsRun(states, labels) && i < k <= |labels| && labels[i] == LEdit(c, a, v)
    requires InCall(states, c, i, k) && IsIdle(states[k], c)
    requires d in states[k].cores && states[k].cores[d].cr3 == Some(a)
    ensures UpToDate(states[k], d, a, v, Version(states[i], a, v) + 1)
  {
    ShootProgress(states, labels, c, a, v, Version(states[i], a, v) + 1, i, k);
    LastStep(states, labels, c, a, v, Version(states[i], a, v) + 1, k, d);
  }
}
