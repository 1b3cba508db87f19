/**
 Cross-CPU TLB shootdown, as a machine over the steps of `activate_address_space`,
 `shootdown_page`, `shootdown_handler` and the hardware page walker.

 Every edit of a page-table entry raises the version of the page; a TLB entry
 remembers the version that it was filled from. A CPU runs one of the kernel
 paths below at a time, and its interrupt handler may run between any two of
 their steps.
 */
module Shootdown {
  import opened Bits
  import opened Common
  import CpuMask

  type Cpu = int
  type Space = int
  type Page = int

  datatype TlbEntry = TlbEntry(space: Space, version: nat)

  /** TLB entries are tagged with the PCID under which they were filled. */
  datatype Tag = Tag(pcid: nat, page: Page)

  datatype Pc =
    | Idle
      // activate_address_space
    | Marked(next: Space, prev: Option<Space>)
    | Stored(next: Space, prev: Option<Space>)
    | Loaded(next: Space, prev: Option<Space>)
      // an edit of `page` of `space` to `version`, and its shootdown
    | Edited(space: Space, page: Page, version: nat)
    | Snapped(space: Space, page: Page, version: nat, mask: set<Cpu>)
    | Flushed(space: Space, page: Page, version: nat, remote: set<Cpu>)
    | Locked(space: Space, page: Page, version: nat, remote: set<Cpu>)
    | Posted(space: Space, page: Page, version: nat, remote: set<Cpu>, unsent: set<Cpu>)
    | Returned(space: Space, page: Page, version: nat)

  /** shootdown_handler */
  datatype Handler = NoIrq | Read(page: Option<Page>) | Invalidated

  datatype Core = Core(
    cr3: Option<Space>,
    slot: Option<Space>,        // CPU_CURRENT_AS
    tlb: map<Tag, TlbEntry>,
    pc: Pc,
    handler: Handler)

  /** PENDING_SHOOTDOWN */
  datatype Request = Request(targets: set<Cpu>, remaining: nat, page: Page)

  datatype State = State(
    cores: map<Cpu, Core>,
    pcid: map<Space, nat>,            // the address spaces and their PCIDs
    active: map<Space, set<Cpu>>,     // active_cpus of each address space
    version: map<Space, map<Page, nat>>,
    request: Option<Request>,
    serialize: Option<Cpu>,           // the holder of SHOOTDOWN_SERIALIZE
    ipis: set<Cpu>)                   // CPUs with an undelivered shootdown IPI

  function Version(s: State, a: Space, v: Page): nat {
    if a in s.version && v in s.version[a] then s.version[a][v] else 0
  }

  function Active(s: State, a: Space): set<Cpu> {
    if a in s.active then s.active[a] else {}
  }

  function PcidOf(s: State, a: Space): nat {
    if a in s.pcid then s.pcid[a] else 0
  }

  function SetCore(s: State, c: Cpu, core: Core): State {
    s.(cores := s.cores[c := core])
  }

  function SetPc(s: State, c: Cpu, pc: Pc): State
    requires c in s.cores
  {
    SetCore(s, c, s.cores[c].(pc := pc))
  }

  predicate At(s: State, c: Cpu) {
    c in s.cores
  }

  /** INVLPG: drop the translation of `v` under the current PCID. */
  function Invlpg(s: State, core: Core, v: Page): Core {
    if core.cr3.Some? then core.(tlb := core.tlb - {Tag(PcidOf(s, core.cr3.value), v)}) else core
  }

  // The hardware

  predicate CanFill(s: State, c: Cpu) { At(s, c) && s.cores[c].cr3.Some? }

  /** A page walk caches the current translation. */
  function DoFill(s: State, c: Cpu, v: Page): State
    requires CanFill(s, c)
  {
    var a := s.cores[c].cr3.value;
    SetCore(s, c, s.cores[c].(tlb := s.cores[c].tlb[Tag(PcidOf(s, a), v) := TlbEntry(a, Version(s, a, v))]))
  }

  function DoEvict(s: State, c: Cpu, t: Tag): State
    requires At(s, c)
  {
    SetCore(s, c, s.cores[c].(tlb := s.cores[c].tlb - {t}))
  }

  // activate_address_space

  predicate CanMark(s: State, c: Cpu, a: Space) {
    At(s, c) && s.cores[c].pc.Idle? && a in s.pcid && s.cores[c].slot != Some(a)
  }

  function DoMark(s: State, c: Cpu, a: Space): State
    requires At(s, c)
  {
    SetPc(s, c, Marked(a, s.cores[c].slot)).(active := s.active[a := Active(s, a) + {c}])
  }

  predicate CanStore(s: State, c: Cpu) { At(s, c) && s.cores[c].pc.Marked? }

  function DoStore(s: State, c: Cpu): State
    requires CanStore(s, c)
  {
    var pc := s.cores[c].pc;
    SetCore(s, c, s.cores[c].(slot := Some(pc.next), pc := Stored(pc.next, pc.prev)))
  }

  predicate CanLoad(s: State, c: Cpu) { At(s, c) && s.cores[c].pc.Stored? }

  /** A CR3 load with bit 63 clear flushes the entries of the new PCID. */
  function DoLoad(s: State, c: Cpu): State
    requires CanLoad(s, c)
  {
    var core := s.cores[c];
    var kept := map t | t in core.tlb && t.pcid != PcidOf(s, core.pc.next) :: core.tlb[t];
    SetCore(s, c, core.(cr3 := Some(core.pc.next), tlb := kept, pc := Loaded(core.pc.next, core.pc.prev)))
  }

  predicate CanUnmark(s: State, c: Cpu) { At(s, c) && s.cores[c].pc.Loaded? }

  function DoUnmark(s: State, c: Cpu): State
    requires CanUnmark(s, c)
  {
    var prev := s.cores[c].pc.prev;
    if prev.Some? then
      SetPc(s, c, Idle).(active := s.active[prev.value := Active(s, prev.value) - {c}])
    else
      SetPc(s, c, Idle)
  }

  // shootdown_page

  predicate CanEdit(s: State, c: Cpu, a: Space) { At(s, c) && s.cores[c].pc.Idle? && a in s.pcid }

  function DoEdit(s: State, c: Cpu, a: Space, v: Page): State
    requires At(s, c)
  {
    var n := Version(s, a, v) + 1;
    var pages := if a in s.version then s.version[a] else map[];
    SetPc(s, c, Edited(a, v, n)).(version := s.version[a := pages[v := n]])
  }

  predicate CanSnapshot(s: State, c: Cpu) { At(s, c) && s.cores[c].pc.Edited? }

  function DoSnapshot(s: State, c: Cpu): State
    requires CanSnapshot(s, c)
  {
    var pc := s.cores[c].pc;
    SetPc(s, c, Snapped(pc.space, pc.page, pc.version, Active(s, pc.space)))
  }

  predicate CanFlushLocal(s: State, c: Cpu) { At(s, c) && s.cores[c].pc.Snapped? }

  /** The local INVLPG and `remote_targets`. */
  function DoFlushLocal(s: State, c: Cpu): State
    requires CanFlushLocal(s, c)
  {
    var core := s.cores[c];
    var pc := core.pc;
    SetCore(s, c, Invlpg(s, core, pc.page).(pc := Flushed(pc.space, pc.page, pc.version, pc.mask - {c})))
  }

  predicate CanReturnEarly(s: State, c: Cpu) {
    At(s, c) && s.cores[c].pc.Flushed? && s.cores[c].pc.remote == {}
  }

  predicate CanAcquire(s: State, c: Cpu) {
    At(s, c) && s.cores[c].pc.Flushed? && s.cores[c].pc.remote != {} && s.serialize.None?
  }

  function DoAcquire(s: State, c: Cpu): State
    requires CanAcquire(s, c)
  {
    var pc := s.cores[c].pc;
    SetPc(s, c, Locked(pc.space, pc.page, pc.version, pc.remote)).(serialize := Some(c))
  }

  predicate CanPost(s: State, c: Cpu) { At(s, c) && s.cores[c].pc.Locked? }

  function DoPost(s: State, c: Cpu): State
    requires CanPost(s, c)
  {
    var pc := s.cores[c].pc;
    SetPc(s, c, Posted(pc.space, pc.page, pc.version, pc.remote, pc.remote))
      .(request := Some(Request(pc.remote, |pc.remote|, pc.page)))
  }

  predicate CanSend(s: State, c: Cpu, t: Cpu) {
    At(s, c) && s.cores[c].pc.Posted? && t in s.cores[c].pc.unsent
  }

  function DoSend(s: State, c: Cpu, t: Cpu): State
    requires CanSend(s, c, t)
  {
    var pc := s.cores[c].pc;
    SetPc(s, c, pc.(unsent := pc.unsent - {t})).(ipis := s.ipis + {t})
  }

  /** The spin-wait sees `remaining == 0` (or no request), and the call returns. */
  predicate CanFinish(s: State, c: Cpu) {
    At(s, c) && s.cores[c].pc.Posted? && s.cores[c].pc.unsent == {}
    && (s.request.Some? ==> s.request.value.remaining == 0)
  }

  function DoFinish(s: State, c: Cpu): State
    requires CanFinish(s, c)
  {
    var pc := s.cores[c].pc;
    SetPc(s, c, Returned(pc.space, pc.page, pc.version)).(serialize := None)
  }

  function DoReturnEarly(s: State, c: Cpu): State
    requires CanReturnEarly(s, c)
  {
    var pc := s.cores[c].pc;
    SetPc(s, c, Returned(pc.space, pc.page, pc.version))
  }

  predicate CanResume(s: State, c: Cpu) { At(s, c) && s.cores[c].pc.Returned? }

  // shootdown_handler

  predicate CanRead(s: State, t: Cpu) { At(s, t) && t in s.ipis && s.cores[t].handler.NoIrq? }

  function DoRead(s: State, t: Cpu): State
    requires At(s, t)
  {
    var page := if s.request.Some? && t in s.request.value.targets then Some(s.request.value.page) else None;
    SetCore(s, t, s.cores[t].(handler := Read(page))).(ipis := s.ipis - {t})
  }

  predicate CanInvalidate(s: State, t: Cpu) { At(s, t) && s.cores[t].handler.Read? }

  function DoInvalidate(s: State, t: Cpu): State
    requires CanInvalidate(s, t)
  {
    var core := s.cores[t];
    var flushed := if core.handler.page.Some? then Invlpg(s, core, core.handler.page.value) else core;
    SetCore(s, t, flushed.(handler := Invalidated))
  }

  predicate CanAck(s: State, t: Cpu) { At(s, t) && s.cores[t].handler.Invalidated? }

  function DoAck(s: State, t: Cpu): State
    requires At(s, t)
  {
    var r := if s.request.None? then s.request
             else Some(s.request.value.(remaining := WrapSub64(s.request.value.remaining, 1)));
    SetCore(s, t, s.cores[t].(handler := NoIrq)).(request := r)
  }

  datatype Label =
    | LFill(c: Cpu, v: Page) | LEvict(c: Cpu, t: Tag)
    | LMark(c: Cpu, a: Space) | LStore(c: Cpu) | LLoad(c: Cpu) | LUnmark(c: Cpu)
    | LEdit(c: Cpu, a: Space, v: Page) | LSnapshot(c: Cpu) | LFlushLocal(c: Cpu) | LReturnEarly(c: Cpu)
    | LAcquire(c: Cpu) | LPost(c: Cpu) | LSend(c: Cpu, target: Cpu) | LFinish(c: Cpu) | LResume(c: Cpu)
    | LRead(c: Cpu) | LInvalidate(c: Cpu) | LAck(c: Cpu)

  predicate Enabled(s: State, l: Label) {
    match l
    case LFill(c, v) => CanFill(s, c)
    case LEvict(c, t) => At(s, c)
    case LMark(c, a) => CanMark(s, c, a)
    case LStore(c) => CanStore(s, c)
    case LLoad(c) => CanLoad(s, c)
    case LUnmark(c) => CanUnmark(s, c)
    case LEdit(c, a, v) => CanEdit(s, c, a)
    case LSnapshot(c) => CanSnapshot(s, c)
    case LFlushLocal(c) => CanFlushLocal(s, c)
    case LReturnEarly(c) => CanReturnEarly(s, c)
    case LAcquire(c) => CanAcquire(s, c)
    case LPost(c) => CanPost(s, c)
    case LSend(c, t) => CanSend(s, c, t)
    case LFinish(c) => CanFinish(s, c)
    case LResume(c) => CanResume(s, c)
    case LRead(c) => CanRead(s, c)
    case LInvalidate(c) => CanInvalidate(s, c)
    case LAck(c) => CanAck(s, c)
  }

  function Next(s: State, l: Label): State
    requires Enabled(s, l)
  {
    match l
    case LFill(c, v) => DoFill(s, c, v)
    case LEvict(c, t) => DoEvict(s, c, t)
    case LMark(c, a) => DoMark(s, c, a)
    case LStore(c) => DoStore(s, c)
    case LLoad(c) => DoLoad(s, c)
    case LUnmark(c) => DoUnmark(s, c)
    case LEdit(c, a, v) => DoEdit(s, c, a, v)
    case LSnapshot(c) => DoSnapshot(s, c)
    case LFlushLocal(c) => DoFlushLocal(s, c)
    case LReturnEarly(c) => DoReturnEarly(s, c)
    case LAcquire(c) => DoAcquire(s, c)
    case LPost(c) => DoPost(s, c)
    case LSend(c, t) => DoSend(s, c, t)
    case LFinish(c) => DoFinish(s, c)
    case LResume(c) => SetPc(s, c, Idle)
    case LRead(c) => DoRead(s, c)
    case LInvalidate(c) => DoInvalidate(s, c)
    case LAck(c) => DoAck(s, c)
  }

  // Invariants

  /** What is loaded in CR3 is marked active, and the slot follows CR3 except just before a load. */
  predicate CoreInv(s: State, c: Cpu) {
    c in s.cores ==>
      var core := s.cores[c];
      && (core.cr3.Some? ==> c in Active(s, core.cr3.value))
      && (match core.pc
          case Marked(next, prev) => core.cr3 == prev && core.slot == prev && prev != Some(next) && c in Active(s, next)
          case Stored(next, prev) =>
            core.cr3 == prev && core.slot == Some(next) && prev != Some(next) && c in Active(s, next)
          case Loaded(next, prev) => core.cr3 == core.slot == Some(next) && prev != Some(next)
          case _ => core.cr3 == core.slot)
  }

  /** Under the PCID of the loaded space there are only entries of that space, none from the future. */
  predicate TlbInv(s: State, c: Cpu, v: Page) {
    c in s.cores && s.cores[c].cr3.Some? ==>
      var a := s.cores[c].cr3.value;
      var t := Tag(PcidOf(s, a), v);
      t in s.cores[c].tlb ==> s.cores[c].tlb[t].space == a && s.cores[c].tlb[t].version <= Version(s, a, v)
  }

  /** `d` holds no translation of page `v` of space `a` older than version `n` that it could use. */
  predicate Fresh(s: State, d: Cpu, a: Space, v: Page, n: nat) {
    d in s.cores && s.cores[d].cr3 == Some(a) && Tag(PcidOf(s, a), v) in s.cores[d].tlb ==>
      s.cores[d].tlb[Tag(PcidOf(s, a), v)].version >= n
  }

  predicate IsActivating(pc: Pc) {
    pc.Marked? || pc.Stored? || pc.Loaded?
  }

  predicate IsShooting(pc: Pc) {
    pc.Edited? || pc.Snapped? || pc.Flushed? || pc.Locked? || pc.Posted? || pc.Returned?
  }

  /** `d` has not yet invalidated the page for the shootdown in progress on `c`. */
  predicate MayBeStale(s: State, c: Cpu, d: Cpu)
    requires c in s.cores
  {
    match s.cores[c].pc
    case Edited(_, _, _) => true
    case Snapped(_, _, _, mask) => d in mask
    case Flushed(_, _, _, remote) => d in remote
    case Locked(_, _, _, remote) => d in remote
    case Posted(_, _, _, _, unsent) => d in unsent || d in s.ipis || (d in s.cores && s.cores[d].handler.Read?)
    case _ => false
  }

  predicate ShootInv(s: State, c: Cpu, d: Cpu) {
    c in s.cores && IsShooting(s.cores[c].pc) ==>
      var pc := s.cores[c].pc;
      && pc.version <= Version(s, pc.space, pc.page)
      && (MayBeStale(s, c, d) || Fresh(s, d, pc.space, pc.page, pc.version))
  }

  /** The targets that have not acknowledged the request in flight. */
  ghost function Unacknowledged(s: State, unsent: set<Cpu>): (un: set<Cpu>)
    ensures forall d :: d in un <==> d in unsent || d in s.ipis || Busy(s, d)
  {
    unsent + s.ipis + set d | d in s.cores && Busy(s, d)
  }

  predicate Busy(s: State, d: Cpu) {
    d in s.cores && !s.cores[d].handler.NoIrq?
  }

  /** The holder of the serializing lock is the one CPU whose request can be in flight. */
  ghost predicate LockInv(s: State, c: Cpu) {
    c in s.cores ==>
      && (s.serialize == Some(c) <==> s.cores[c].pc.Locked? || s.cores[c].pc.Posted?)
      && (s.cores[c].pc.Posted? ==> RequestInv(s, c))
  }

  ghost predicate RequestInv(s: State, c: Cpu)
    requires c in s.cores && s.cores[c].pc.Posted?
  {
    var pc := s.cores[c].pc;
    var un := Unacknowledged(s, pc.unsent);
    && s.request.Some?
    && s.request.value.targets == pc.remote && s.request.value.page == pc.page
    && un <= pc.remote && s.request.value.remaining == |un|
    && (forall d :: d in pc.unsent ==> d !in s.ipis && !Busy(s, d))
    && (forall d :: d in s.ipis ==> !Busy(s, d))
    && (forall d :: d in s.cores && s.cores[d].handler.Read? ==> s.cores[d].handler.page == Some(pc.page))
  }

  predicate InFlight(s: State) {
    s.serialize.Some? && s.serialize.value in s.cores && s.cores[s.serialize.value].pc.Posted?
  }

  /** Between requests no IPI is pending and no handler runs. */
  ghost predicate QuietInv(s: State) {
    && (s.serialize.Some? ==> s.serialize.value in s.cores)
    && (!InFlight(s) ==> s.ipis == {} && forall d :: !Busy(s, d))
  }

  /** Masks name CPUs of the machine, of which there are at most 64. */
  predicate MaskInv(s: State, c: Cpu) {
    c in s.cores ==>
      match s.cores[c].pc
      case Snapped(_, _, _, mask) => mask <= s.cores.Keys
      case Flushed(_, _, _, remote) => remote <= s.cores.Keys
      case Locked(_, _, _, remote) => remote <= s.cores.Keys
      case Posted(_, _, _, remote, _) => remote <= s.cores.Keys
      case _ => true
  }

  predicate ActiveInv(s: State, a: Space) {
    Active(s, a) <= s.cores.Keys
  }

  ghost predicate MasksInv(s: State) {
    && |s.cores.Keys| <= CpuMask.MAX_SHOOTDOWN_CPUS
    && (forall c :: MaskInv(s, c))
    && (forall a :: ActiveInv(s, a))
  }

  ghost predicate Inv(s: State) {
    && (forall c :: CoreInv(s, c))
    && (forall c, v :: TlbInv(s, c, v))
    && (forall c, d :: ShootInv(s, c, d))
    && (forall c :: LockInv(s, c))
    && QuietInv(s)
  }

  // Steps that leave the request protocol alone

  /** The step changes nothing that the request protocol depends on. */
  ghost predicate ProtocolKept(s: State, s': State) {
    && s'.request == s.request && s'.serialize == s.serialize && s'.ipis == s.ipis
    && s'.cores.Keys == s.cores.Keys
    && forall d :: d in s.cores && d in s'.cores ==>
         && s'.cores[d].handler == s.cores[d].handler
         && (s.cores[d].pc.Posted? || s'.cores[d].pc.Posted? || s.cores[d].pc.Locked? || s'.cores[d].pc.Locked? ==>
               s'.cores[d].pc == s.cores[d].pc)
  }

  lemma ProtocolKeptKeepsLocks(s: State, s': State)
    requires Inv(s) && ProtocolKept(s, s')
    ensures QuietInv(s')
    ensures forall c :: LockInv(s', c)
  {
    forall d ensures d in s'.cores <==> d in s.cores { assert d in s'.cores.Keys <==> d in s.cores.Keys; }
    forall d ensures Busy(s', d) <==> Busy(s, d) { }
    if s.serialize.Some? {
      assert s.serialize.value in s.cores && LockInv(s, s.serialize.value);
    }
    forall c ensures LockInv(s', c) {
      assert LockInv(s, c);
      if c in s.cores && s'.cores[c].pc.Posted? {
        assert Unacknowledged(s', s'.cores[c].pc.unsent) == Unacknowledged(s, s.cores[c].pc.unsent);
      }
    }
  }

  lemma FillKeepsInv(s: State, c: Cpu, v: Page)
    requires Inv(s) && CanFill(s, c)
    ensures Inv(DoFill(s, c, v))
  {
    var s' := DoFill(s, c, v);
    ProtocolKeptKeepsLocks(s, s');
    forall x ensures CoreInv(s', x) { assert CoreInv(s, x); }
    forall x, u ensures TlbInv(s', x, u) { assert TlbInv(s, x, u); }
    forall x, d ensures ShootInv(s', x, d) { assert ShootInv(s, x, d); }
  }

  lemma EvictKeepsInv(s: State, c: Cpu, t: Tag)
    requires Inv(s) && At(s, c)
    ensures Inv(DoEvict(s, c, t))
  {
    var s' := DoEvict(s, c, t);
    ProtocolKeptKeepsLocks(s, s');
    forall x ensures CoreInv(s', x) { assert CoreInv(s, x); }
    forall x, u ensures TlbInv(s', x, u) { assert TlbInv(s, x, u); }
    forall x, d ensures ShootInv(s', x, d) { assert ShootInv(s, x, d); }
  }

  lemma MarkKeepsInv(s: State, c: Cpu, a: Space)
    requires Inv(s) && CanMark(s, c, a)
    ensures Inv(DoMark(s, c, a))
  {
    var s' := DoMark(s, c, a);
    ProtocolKeptKeepsLocks(s, s');
    forall x ensures CoreInv(s', x) { assert CoreInv(s, x); }
    forall x, u ensures TlbInv(s', x, u) { assert TlbInv(s, x, u); }
    forall x, d ensures ShootInv(s', x, d) { assert ShootInv(s, x, d); }
  }

  lemma StoreKeepsInv(s: State, c: Cpu)
    requires Inv(s) && CanStore(s, c)
    ensures Inv(DoStore(s, c))
  {
    var s' := DoStore(s, c);
    ProtocolKeptKeepsLocks(s, s');
    forall x ensures CoreInv(s', x) { assert CoreInv(s, x); }
    forall x, u ensures TlbInv(s', x, u) { assert TlbInv(s, x, u); }
    forall x, d ensures ShootInv(s', x, d) { assert ShootInv(s, x, d); }
  }

  lemma LoadKeepsInv(s: State, c: Cpu)
    requires Inv(s) && CanLoad(s, c)
    ensures Inv(DoLoad(s, c))
  {
    var s' := DoLoad(s, c);
    ProtocolKeptKeepsLocks(s, s');
    forall x ensures CoreInv(s', x) { assert CoreInv(s, x); }
    forall x, u ensures TlbInv(s', x, u) { assert TlbInv(s, x, u); }
    forall x, d ensures ShootInv(s', x, d) { assert ShootInv(s, x, d); }
  }

  lemma UnmarkKeepsCores(s: State, c: Cpu)
    requires Inv(s) && CanUnmark(s, c)
    ensures forall x :: CoreInv(DoUnmark(s, c), x)
    ensures forall x, u :: TlbInv(DoUnmark(s, c), x, u)
  {
    var s' := DoUnmark(s, c);
    forall x ensures CoreInv(s', x) { assert CoreInv(s, x) && CoreInv(s, c); }
    forall x, u ensures TlbInv(s', x, u) { assert TlbInv(s, x, u); }
  }

  lemma UnmarkKeepsInv(s: State, c: Cpu)
    requires Inv(s) && CanUnmark(s, c)
    ensures Inv(DoUnmark(s, c))
  {
    var s' := DoUnmark(s, c);
    ProtocolKeptKeepsLocks(s, s');
    UnmarkKeepsCores(s, c);
    forall x, d ensures ShootInv(s', x, d) { UnmarkKeepsShoot(s, c, x, d); }
  }

  lemma UnmarkKeepsShoot(s: State, c: Cpu, x: Cpu, d: Cpu)
    requires Inv(s) && CanUnmark(s, c)
    ensures ShootInv(DoUnmark(s, c), x, d)
  {
    if x in s.cores { ShootKept(s, DoUnmark(s, c), x, d); }
  }

  lemma EditKeepsInv(s: State, c: Cpu, a: Space, v: Page)
    requires Inv(s) && CanEdit(s, c, a)
    ensures Inv(DoEdit(s, c, a, v))
  {
    var s' := DoEdit(s, c, a, v);
    ProtocolKeptKeepsLocks(s, s');
    forall x ensures CoreInv(s', x) { assert CoreInv(s, x); }
    forall x, u ensures TlbInv(s', x, u) { assert TlbInv(s, x, u); }
    forall x, d ensures ShootInv(s', x, d) { assert ShootInv(s, x, d); }
  }

  lemma SnapshotKeepsInv(s: State, c: Cpu)
    requires Inv(s) && CanSnapshot(s, c)
    ensures Inv(DoSnapshot(s, c))
  {
    var s' := DoSnapshot(s, c);
    ProtocolKeptKeepsLocks(s, s');
    forall x ensures CoreInv(s', x) { assert CoreInv(s, x); }
    forall x, u ensures TlbInv(s', x, u) { assert TlbInv(s, x, u); }
    forall x, d ensures ShootInv(s', x, d) { assert ShootInv(s, x, d) && CoreInv(s, d); }
  }

  lemma FlushLocalKeepsInv(s: State, c: Cpu)
    requires Inv(s) && CanFlushLocal(s, c)
    ensures Inv(DoFlushLocal(s, c))
  {
    var s' := DoFlushLocal(s, c);
    ProtocolKeptKeepsLocks(s, s');
    forall x ensures CoreInv(s', x) { assert CoreInv(s, x); }
    forall x, u ensures TlbInv(s', x, u) { assert TlbInv(s, x, u); }
    forall x, d ensures ShootInv(s', x, d) { assert ShootInv(s, x, d); }
  }

  lemma ReturnEarlyKeepsInv(s: State, c: Cpu)
    requires Inv(s) && CanReturnEarly(s, c)
    ensures Inv(DoReturnEarly(s, c))
  {
    var s' := DoReturnEarly(s, c);
    ProtocolKeptKeepsLocks(s, s');
    forall x ensures CoreInv(s', x) { assert CoreInv(s, x); }
    forall x, u ensures TlbInv(s', x, u) { assert TlbInv(s, x, u); }
    forall x, d ensures ShootInv(s', x, d) { assert ShootInv(s, x, d); }
  }

  lemma ResumeKeepsInv(s: State, c: Cpu)
    requires Inv(s) && CanResume(s, c)
    ensures Inv(SetPc(s, c, Idle))
  {
    var s' := SetPc(s, c, Idle);
    ProtocolKeptKeepsLocks(s, s');
    forall x ensures CoreInv(s', x) { assert CoreInv(s, x); }
    forall x, u ensures TlbInv(s', x, u) { assert TlbInv(s, x, u); }
    forall x, d ensures ShootInv(s', x, d) { assert ShootInv(s, x, d); }
  }

  // The request protocol

  /** TLBs, CR3 and the active masks are left alone. */
  ghost predicate TlbsKept(s: State, s': State) {
    && s'.pcid == s.pcid && s'.active == s.active && s'.version == s.version
    && s'.cores.Keys == s.cores.Keys
    && forall d :: d in s.cores && d in s'.cores ==>
         && s'.cores[d].cr3 == s.cores[d].cr3 && s'.cores[d].slot == s.cores[d].slot
         && s'.cores[d].tlb == s.cores[d].tlb
         && (IsActivating(s.cores[d].pc) || IsActivating(s'.cores[d].pc) ==> s'.cores[d].pc == s.cores[d].pc)
  }

  lemma TlbsKeptKeepsCores(s: State, s': State)
    requires Inv(s) && TlbsKept(s, s')
    ensures forall c :: CoreInv(s', c)
    ensures forall c, v :: TlbInv(s', c, v)
  {
    forall d ensures d in s'.cores <==> d in s.cores { assert d in s'.cores.Keys <==> d in s.cores.Keys; }
    forall c ensures CoreInv(s', c) { assert CoreInv(s, c); }
    forall c, v ensures TlbInv(s', c, v) { assert TlbInv(s, c, v); }
  }

  /** A step that touches no TLB and does not clear a CPU of suspicion keeps the shootdowns sound. */
  lemma ShootKept(s: State, s': State, c: Cpu, d: Cpu)
    requires Inv(s) && c in s.cores && c in s'.cores
    requires s'.pcid == s.pcid && s'.version == s.version
    requires d in s'.cores ==> d in s.cores && s'.cores[d].cr3 == s.cores[d].cr3 && s'.cores[d].tlb == s.cores[d].tlb
    requires IsShooting(s'.cores[c].pc) ==>
               && IsShooting(s.cores[c].pc)
               && s'.cores[c].pc.space == s.cores[c].pc.space && s'.cores[c].pc.page == s.cores[c].pc.page
               && s'.cores[c].pc.version == s.cores[c].pc.version
               && (MayBeStale(s, c, d) ==> MayBeStale(s', c, d))
    ensures ShootInv(s', c, d)
  {
    assert ShootInv(s, c, d);
  }

  lemma AcquireKeepsInv(s: State, c: Cpu)
    requires Inv(s) && CanAcquire(s, c)
    ensures Inv(DoAcquire(s, c))
  {
    var s' := DoAcquire(s, c);
    TlbsKeptKeepsCores(s, s');
    forall d ensures !Busy(s', d) { assert !Busy(s, d); }
    forall x ensures LockInv(s', x) { assert LockInv(s, x); }
    forall x, d ensures ShootInv(s', x, d) {
      if x in s'.cores { ShootKept(s, s', x, d); }
    }
  }

  lemma PostKeepsInv(s: State, c: Cpu)
    requires Inv(s) && CanPost(s, c)
    ensures Inv(DoPost(s, c))
  {
    var s' := DoPost(s, c);
    TlbsKeptKeepsCores(s, s');
    assert LockInv(s, c);
    forall d ensures !Busy(s', d) { assert !Busy(s, d); }
    forall d | d in s'.cores ensures s'.cores[d].handler.NoIrq? { assert !Busy(s', d); }
    assert Unacknowledged(s', s'.cores[c].pc.unsent) == s.cores[c].pc.remote;
    forall x ensures LockInv(s', x) { assert LockInv(s, x); }
    forall x, d ensures ShootInv(s', x, d) {
      if x in s'.cores { assert LockInv(s, x); ShootKept(s, s', x, d); }
    }
  }

  /** The request in flight after a step of its protocol, from what the step did to the waiting targets. */
  lemma InFlightKept(s: State, s': State)
    requires Inv(s) && InFlight(s) && s'.serialize == s.serialize
    requires s'.cores.Keys == s.cores.Keys
    requires var c := s.serialize.value;
             && s'.cores[c].pc.Posted? && RequestInv(s', c)
    requires forall x :: x in s.cores && x in s'.cores && x != s.serialize.value ==> s'.cores[x].pc == s.cores[x].pc
    ensures QuietInv(s')
    ensures forall x :: LockInv(s', x)
  {
    forall d ensures d in s'.cores <==> d in s.cores { assert d in s'.cores.Keys <==> d in s.cores.Keys; }
    forall x ensures LockInv(s', x) { assert LockInv(s, x); }
  }

  lemma SendKeepsLocks(s: State, c: Cpu, t: Cpu)
    requires Inv(s) && CanSend(s, c, t)
    ensures QuietInv(DoSend(s, c, t))
    ensures forall x :: LockInv(DoSend(s, c, t), x)
  {
    var s' := DoSend(s, c, t);
    assert LockInv(s, c);
    forall d ensures Busy(s', d) <==> Busy(s, d) { }
    assert Unacknowledged(s', s'.cores[c].pc.unsent) == Unacknowledged(s, s.cores[c].pc.unsent);
    InFlightKept(s, s');
  }

  lemma SendKeepsInv(s: State, c: Cpu, t: Cpu)
    requires Inv(s) && CanSend(s, c, t)
    ensures Inv(DoSend(s, c, t))
  {
    var s' := DoSend(s, c, t);
    SendKeepsLocks(s, c, t);
    TlbsKeptKeepsCores(s, s');
    forall x, d ensures ShootInv(s', x, d) {
      if x in s'.cores { assert LockInv(s, x) && LockInv(s, c); ShootKept(s, s', x, d); }
    }
  }

  lemma FinishKeepsInv(s: State, c: Cpu)
    requires Inv(s) && CanFinish(s, c)
    ensures Inv(DoFinish(s, c))
  {
    var s' := DoFinish(s, c);
    TlbsKeptKeepsCores(s, s');
    assert LockInv(s, c);
    var un := Unacknowledged(s, s.cores[c].pc.unsent);
    assert un == {};
    forall d ensures d !in s.ipis && !Busy(s, d) && !Busy(s', d) { assert d !in un; }
    assert s.ipis == {};
    forall x ensures LockInv(s', x) { assert LockInv(s, x); }
    forall x, d ensures ShootInv(s', x, d) { assert ShootInv(s, x, d) && LockInv(s, x) && !Busy(s, d); }
  }

  lemma ReadKeepsLocks(s: State, t: Cpu)
    requires Inv(s) && CanRead(s, t)
    ensures QuietInv(DoRead(s, t))
    ensures forall x :: LockInv(DoRead(s, t), x)
  {
    var s' := DoRead(s, t);
    var c := s.serialize.value;
    assert LockInv(s, c);
    assert t in Unacknowledged(s, s.cores[c].pc.unsent);
    forall d ensures Busy(s', d) <==> Busy(s, d) || d == t { }
    assert Unacknowledged(s', s'.cores[c].pc.unsent) == Unacknowledged(s, s.cores[c].pc.unsent);
    InFlightKept(s, s');
  }

  lemma ReadKeepsInv(s: State, t: Cpu)
    requires Inv(s) && CanRead(s, t)
    ensures Inv(DoRead(s, t))
  {
    var s' := DoRead(s, t);
    ReadKeepsLocks(s, t);
    TlbsKeptKeepsCores(s, s');
    forall x, d ensures ShootInv(s', x, d) {
      if x in s'.cores { ShootKept(s, s', x, d); }
    }
  }

  /** A running handler belongs to the request in flight, which still waits for it. */
  lemma BusyIsAwaited(s: State, t: Cpu)
    requires Inv(s) && Busy(s, t)
    ensures InFlight(s) && s.request.Some? && s.request.value.remaining > 0
    ensures t in s.request.value.targets
    ensures s.cores[t].handler.Read? ==> s.cores[t].handler.page == Some(s.request.value.page)
  {
    var c := s.serialize.value;
    assert LockInv(s, c);
    assert t in Unacknowledged(s, s.cores[c].pc.unsent);
  }

  lemma InvalidateKeepsLocks(s: State, t: Cpu)
    requires Inv(s) && CanInvalidate(s, t)
    ensures QuietInv(DoInvalidate(s, t))
    ensures forall x :: LockInv(DoInvalidate(s, t), x)
  {
    var s' := DoInvalidate(s, t);
    BusyIsAwaited(s, t);
    var c := s.serialize.value;
    assert LockInv(s, c);
    forall d ensures Busy(s', d) <==> Busy(s, d) { }
    assert Unacknowledged(s', s'.cores[c].pc.unsent) == Unacknowledged(s, s.cores[c].pc.unsent);
    InFlightKept(s, s');
  }

  lemma InvalidateKeepsInv(s: State, t: Cpu)
    requires Inv(s) && CanInvalidate(s, t)
    ensures Inv(DoInvalidate(s, t))
  {
    var s' := DoInvalidate(s, t);
    BusyIsAwaited(s, t);
    InvalidateKeepsLocks(s, t);
    forall x ensures CoreInv(s', x) { assert CoreInv(s, x); }
    forall x, u ensures TlbInv(s', x, u) { assert TlbInv(s, x, u); }
    forall x, d ensures ShootInv(s', x, d) { assert ShootInv(s, x, d) && LockInv(s, x); }
  }

  lemma AckKeepsLocks(s: State, t: Cpu)
    requires Inv(s) && MasksInv(s) && CanAck(s, t)
    ensures QuietInv(DoAck(s, t))
    ensures forall x :: LockInv(DoAck(s, t), x)
  {
    var s' := DoAck(s, t);
    BusyIsAwaited(s, t);
    var c := s.serialize.value;
    assert LockInv(s, c);
    var un := Unacknowledged(s, s.cores[c].pc.unsent);
    forall d ensures Busy(s', d) <==> Busy(s, d) && d != t { }
    assert Unacknowledged(s', s'.cores[c].pc.unsent) == un - {t};
    AtMost64(s, c, un);
    InFlightKept(s, s');
  }

  lemma AckKeepsInv(s: State, t: Cpu)
    requires Inv(s) && MasksInv(s) && CanAck(s, t)
    ensures Inv(DoAck(s, t))
  {
    var s' := DoAck(s, t);
    AckKeepsLocks(s, t);
    TlbsKeptKeepsCores(s, s');
    forall x, d ensures ShootInv(s', x, d) {
      if x in s'.cores { ShootKept(s, s', x, d); }
    }
  }

  lemma AtMost64(s: State, c: Cpu, un: set<Cpu>)
    requires MasksInv(s) && c in s.cores && s.cores[c].pc.Posted? && un <= s.cores[c].pc.remote
    ensures |un| <= CpuMask.MAX_SHOOTDOWN_CPUS
  {
    assert MaskInv(s, c);
    SubsetSize(un, s.cores.Keys);
  }

  lemma SubsetSize<T>(a: set<T>, b: set<T>)
    requires a <= b
    ensures |a| <= |b|
  {
    assert b == a + (b - a);
  }

  lemma StepKeepsMask(s: State, l: Label, d: Cpu)
    requires MasksInv(s) && Enabled(s, l)
    ensures MaskInv(Next(s, l), d)
  {
    if l.LSnapshot? {
      SnapshotKeepsMask(s, l.c, d);
    } else if l.LFlushLocal? || l.LReturnEarly? || l.LAcquire? || l.LPost? || l.LSend? || l.LFinish? || l.LResume? {
      ShootKeepsMask(s, l, d);
    } else {
      OtherKeepsMask(s, l, d);
    }
  }

  lemma SnapshotKeepsMask(s: State, c: Cpu, d: Cpu)
    requires MasksInv(s) && CanSnapshot(s, c)
    ensures MaskInv(DoSnapshot(s, c), d)
  {
    assert MaskInv(s, d) && ActiveInv(s, s.cores[c].pc.space);
  }

  lemma ShootKeepsMask(s: State, l: Label, d: Cpu)
    requires MasksInv(s) && Enabled(s, l)
    requires l.LFlushLocal? || l.LReturnEarly? || l.LAcquire? || l.LPost? || l.LSend? || l.LFinish? || l.LResume?
    ensures MaskInv(Next(s, l), d)
  {
    assert MaskInv(s, d);
  }

  lemma OtherKeepsMask(s: State, l: Label, d: Cpu)
    requires MasksInv(s) && Enabled(s, l)
    requires l.LFill? || l.LEvict? || l.LMark? || l.LStore? || l.LLoad? || l.LUnmark? || l.LEdit?
             || l.LRead? || l.LInvalidate? || l.LAck?
    ensures MaskInv(Next(s, l), d)
  {
    assert MaskInv(s, d);
  }

  lemma StepKeepsActive(s: State, l: Label, a: Space)
    requires MasksInv(s) && Enabled(s, l)
    ensures ActiveInv(Next(s, l), a) && Next(s, l).cores.Keys == s.cores.Keys
  {
    assert ActiveInv(s, a);
  }

  lemma StepKeepsMasks(s: State, l: Label)
    requires MasksInv(s) && Enabled(s, l)
    ensures MasksInv(Next(s, l))
  {
    var s' := Next(s, l);
    StepKeepsActive(s, l, 0);
    forall d ensures MaskInv(s', d) { StepKeepsMask(s, l, d); }
    forall a ensures ActiveInv(s', a) { StepKeepsActive(s, l, a); }
  }

  lemma StepKeepsInv(s: State, l: Label)
    requires Inv(s) && MasksInv(s) && Enabled(s, l)
    ensures Inv(Next(s, l)) && MasksInv(Next(s, l))
  {
    StepKeepsMasks(s, l);
    match l
    case LFill(c, v) => FillKeepsInv(s, c, v);
    case LEvict(c, t) => EvictKeepsInv(s, c, t);
    case LMark(c, a) => MarkKeepsInv(s, c, a);
    case LStore(c) => StoreKeepsInv(s, c);
    case LLoad(c) => LoadKeepsInv(s, c);
    case LUnmark(c) => UnmarkKeepsInv(s, c);
    case LEdit(c, a, v) => EditKeepsInv(s, c, a, v);
    case LSnapshot(c) => SnapshotKeepsInv(s, c);
    case LFlushLocal(c) => FlushLocalKeepsInv(s, c);
    case LReturnEarly(c) => ReturnEarlyKeepsInv(s, c);
    case LAcquire(c) => AcquireKeepsInv(s, c);
    case LPost(c) => PostKeepsInv(s, c);
    case LSend(c, t) => SendKeepsInv(s, c, t);
    case LFinish(c) => FinishKeepsInv(s, c);
    case LResume(c) => ResumeKeepsInv(s, c);
    case LRead(c) => ReadKeepsInv(s, c);
    case LInvalidate(c) => InvalidateKeepsInv(s, c);
    case LAck(c) => AckKeepsInv(s, c);
  }

  // Whole runs

  const BOOT: Core := Core(None, None, map[], Idle, NoIrq)

  /** At boot no address space is loaded and no request was ever made. */
  ghost predicate Init(s: State) {
    && (forall c :: c in s.cores ==> 0 <= c < CpuMask.MAX_SHOOTDOWN_CPUS && s.cores[c] == BOOT)
    && s.active == map[] && s.version == map[] && s.request == None && s.serialize == None && s.ipis == {}
  }

  ghost predicate IsRun(states: seq<State>, labels: seq<Label>) {
    && |states| == |labels| + 1
    && Init(states[0])
    && forall i :: 0 <= i < |labels| ==> Enabled(states[i], labels[i]) && states[i + 1] == Next(states[i], labels[i])
  }

  lemma {:induction false} BoundedIdsAreFew(ids: set<int>, n: nat)
    requires forall c :: c in ids ==> 0 <= c < n
    ensures |ids| <= n
  {
    if n == 0 {
      forall c ensures c !in ids { }
      assert ids == {};
    } else {
      BoundedIdsAreFew(ids - {n - 1}, n - 1);
    }
  }

  lemma {:induction false} RunKeepsInv(states: seq<State>, labels: seq<Label>, i: nat)
    requires IsRun(states, labels) && i < |states|
    ensures Inv(states[i]) && MasksInv(states[i])
  {
    if i > 0 {
      RunKeepsInv(states, labels, i - 1);
      StepKeepsInv(states[i - 1], labels[i - 1]);
    } else {
      BoundedIdsAreFew(states[0].cores.Keys, CpuMask.MAX_SHOOTDOWN_CPUS);
    }
  }

  /**
   When `shootdown_page` has returned for an edit of page `v` of space `a` to version
   `n`, every CPU that has `a` loaded, whether or not it had it loaded at any earlier
   moment of the call, holds no translation of `v` from before the edit.
   */
  lemma ShootdownIsComplete(states: seq<State>, labels: seq<Label>, i: nat, c: Cpu, d: Cpu)
    requires IsRun(states, labels) && i < |states|
    requires c in states[i].cores && states[i].cores[c].pc.Returned?
    requires d in states[i].cores && states[i].cores[d].cr3 == Some(states[i].cores[c].pc.space)
    ensures var s, pc := states[i], states[i].cores[c].pc;
            var t := Tag(PcidOf(s, pc.space), pc.page);
            t in s.cores[d].tlb ==>
              s.cores[d].tlb[t].space == pc.space && s.cores[d].tlb[t].version >= pc.version
  {
    RunKeepsInv(states, labels, i);
    assert ShootInv(states[i], c, d) && TlbInv(states[i], d, states[i].cores[c].pc.page);
  }

  /** In every state of a run, a CPU that has an address space loaded is marked in its active set. */
  lemma LoadedIsMarked(states: seq<State>, labels: seq<Label>, i: nat, c: Cpu)
    requires IsRun(states, labels) && i < |states|
    requires c in states[i].cores && states[i].cores[c].cr3.Some?
    ensures c in Active(states[i], states[i].cores[c].cr3.value)
  {
    RunKeepsInv(states, labels, i);
    assert CoreInv(states[i], c);
  }

  /**
   An acknowledgement always finds the request that it answers, with `remaining` equal
   to the number of targets still to acknowledge and not zero; and a new request is
   posted only when no IPI and no handler of an earlier one is outstanding.
   */
  lemma RequestsDoNotMix(states: seq<State>, labels: seq<Label>, i: nat)
    requires IsRun(states, labels) && i < |labels|
    ensures labels[i].LAck? ==>
              var s := states[i];
              && InFlight(s) && s.request.Some? && labels[i].c in s.request.value.targets
              && s.request.value.remaining == |Unacknowledged(s, s.cores[s.serialize.value].pc.unsent)| > 0
    ensures labels[i].LPost? ==> states[i].ipis == {} && forall d :: !Busy(states[i], d)
  {
    var s := states[i];
    RunKeepsInv(states, labels, i);
    if labels[i].LAck? {
      BusyIsAwaited(s, labels[i].c);
      assert LockInv(s, s.serialize.value);
    }
    if labels[i].LPost? {
      assert LockInv(s, labels[i].c);
    }
  }
}
