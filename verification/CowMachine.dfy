/**
 Copy-on-write ownership of physical frames, as a machine whose steps are the
 page-table writes and the lock-held sections of fork, write-fault resolution,
 file faults, munmap and teardown.

 Processes are single-threaded, so only a process itself edits its page table,
 but the steps of different processes interleave freely.
 */
module CowMachine {
  import opened Common
  import opened CowSpec

  type Pid = int
  type Vpn = int
  type Page = seq<bv8>

  /** A present leaf entry; `shared` marks the pages of a MAP_SHARED file mapping. */
  datatype Pte = Pte(frame: Frame, writable: bool, cow: bool, shared: bool)

  /** Where a process is in the kernel code that edits its page table. */
  datatype Pc =
    | Running
    | Forking(child: Pid, todo: set<Vpn>)
      // the parent entry of `vpn` is read-only and CoW, the frame is not yet shared
    | ForkMarked(child: Pid, todo: set<Vpn>, vpn: Vpn)
      // the frame is shared, the child entry is not yet written
    | ForkShared(child: Pid, todo: set<Vpn>, vpn: Vpn, frame: Frame)
      // the cache frame is shared, the private mapping is not yet written
    | FilePending(vpn: Vpn, frame: Frame)
      // the entry is cleared, its claim on the frame is not yet given up
    | Unmapping(frame: Frame, cow: bool)
    | Embryo  // a child whose fork has not returned
    | Dying   // an address space being torn down

  datatype Proc = Proc(pt: map<Vpn, Pte>, pc: Pc)

  datatype State = State(
    mem: map<Frame, Page>,    // the frames in use, and their contents
    table: Table,             // the share counts
    cached: set<Frame>,       // the frames held by the page cache
    procs: map<Pid, Proc>)

  datatype Label =
    | Spawn(p: Pid)
    | MapFresh(p: Pid, v: Vpn, f: Frame, page: Page, w: bool)
    | CacheFill(f: Frame, page: Page)
    | FileShare(p: Pid, v: Vpn, f: Frame)
    | FileMap(p: Pid, v: Vpn, f: Frame)
    | SharedFault(p: Pid, v: Vpn, f: Frame, w: bool)
    | Write(p: Pid, v: Vpn, off: nat, byte: bv8)
    | CowFault(p: Pid, v: Vpn, copy: Frame)
    | UnmapClear(p: Pid, v: Vpn)
    | UnmapRelease(p: Pid)
    | ForkBegin(p: Pid, c: Pid)
    | ForkMark(p: Pid, v: Vpn)
    | ForkShare(p: Pid)
    | ForkMap(p: Pid)
    | ForkCopyShared(p: Pid, v: Vpn)
    | ForkEnd(p: Pid, c: Pid)
    | ExitBegin(p: Pid)
    | TearPage(p: Pid, v: Vpn)
    | Reap(p: Pid)

  function SetProc(s: State, p: Pid, pt: map<Vpn, Pte>, pc: Pc): State {
    s.(procs := s.procs[p := Proc(pt, pc)])
  }

  /** Give up one claim on `f`; a sole claimant, or the owner of a frame that is not CoW, frees it. */
  function DropClaim(s: State, f: Frame, cow: bool): State {
    if cow && !Sole(s.table, f) then s.(table := Release(s.table, f))
    else s.(mem := s.mem - {f})
  }

  predicate IsRunning(s: State, p: Pid) {
    p in s.procs && s.procs[p].pc.Running?
  }

  predicate HasPage(s: State, p: Pid, v: Vpn) {
    p in s.procs && v in s.procs[p].pt
  }

  // The steps: for each, when it can happen and the state that it leaves

  predicate CanSpawn(s: State, p: Pid) { p !in s.procs }

  function DoSpawn(s: State, p: Pid): State { SetProc(s, p, map[], Running) }

  /** A freshly allocated and filled frame: demand-zero fault, ELF segment, stack, trampoline. */
  predicate CanMapFresh(s: State, p: Pid, v: Vpn, f: Frame, page: Page) {
    IsRunning(s, p) && v !in s.procs[p].pt && f !in s.mem && |page| == PAGE_SIZE
  }

  function DoMapFresh(s: State, p: Pid, v: Vpn, f: Frame, page: Page, w: bool): State
    requires p in s.procs
  {
    SetProc(s, p, s.procs[p].pt[v := Pte(f, w, false, false)], Running).(mem := s.mem[f := page])
  }

  predicate CanCacheFill(s: State, f: Frame, page: Page) { f !in s.mem && |page| == PAGE_SIZE }

  function DoCacheFill(s: State, f: Frame, page: Page): State {
    s.(mem := s.mem[f := page], cached := s.cached + {f})
  }

  /** Fault on a MAP_PRIVATE file page: `cow_share` of the cache frame, then the read-only CoW entry. */
  predicate CanFileShare(s: State, p: Pid, v: Vpn, f: Frame) {
    IsRunning(s, p) && v !in s.procs[p].pt && f in s.cached
  }

  ghost function DoFileShare(s: State, p: Pid, v: Vpn, f: Frame): State
    requires p in s.procs
  {
    SetProc(s, p, s.procs[p].pt, FilePending(v, f)).(table := Share(s.table, f))
  }

  predicate CanFileMap(s: State, p: Pid, v: Vpn, f: Frame) {
    p in s.procs && s.procs[p].pc == FilePending(v, f)
  }

  function DoFileMap(s: State, p: Pid, v: Vpn, f: Frame): State
    requires p in s.procs
  {
    SetProc(s, p, s.procs[p].pt[v := Pte(f, false, true, false)], Running)
  }

  /** Fault on a MAP_SHARED file page: the cache frame itself is mapped. */
  predicate CanSharedFault(s: State, p: Pid, v: Vpn, f: Frame) {
    IsRunning(s, p) && v !in s.procs[p].pt && f in s.cached
  }

  function DoSharedFault(s: State, p: Pid, v: Vpn, f: Frame, w: bool): State
    requires p in s.procs
  {
    SetProc(s, p, s.procs[p].pt[v := Pte(f, w, false, true)], Running)
  }

  /** A user store, which needs a writable entry. */
  predicate CanWrite(s: State, p: Pid, v: Vpn, off: nat) {
    IsRunning(s, p) && v in s.procs[p].pt && s.procs[p].pt[v].writable && off < PAGE_SIZE
    && s.procs[p].pt[v].frame in s.mem && |s.mem[s.procs[p].pt[v].frame]| == PAGE_SIZE
  }

  function DoWrite(s: State, p: Pid, v: Vpn, off: nat, byte: bv8): State
    requires CanWrite(s, p, v, off)
  {
    var f := s.procs[p].pt[v].frame;
    s.(mem := s.mem[f := s.mem[f][off := byte]])
  }

  predicate CanCowFault(s: State, p: Pid, v: Vpn, copy: Frame) {
    IsRunning(s, p) && v in s.procs[p].pt && s.procs[p].pt[v].cow && s.procs[p].pt[v].frame in s.mem
    && copy !in s.mem
  }

  /** `resolve_cow_fault_inner`: reuse the frame in place, or copy it away. */
  function DoCowFault(s: State, p: Pid, v: Vpn, copy: Frame): State
    requires HasPage(s, p, v) && s.procs[p].pt[v].frame in s.mem
  {
    var f := s.procs[p].pt[v].frame;
    if Sole(s.table, f) then
      SetProc(s, p, s.procs[p].pt[v := Pte(f, true, false, false)], s.procs[p].pc)
    else
      SetProc(s, p, s.procs[p].pt[v := Pte(copy, true, false, false)], s.procs[p].pc)
        .(mem := s.mem[copy := s.mem[f]], table := Release(s.table, f))
  }

  /** `unmap_pages` and `unmap_file_pages`: clear the entry, then give up the claim. */
  predicate CanUnmapClear(s: State, p: Pid, v: Vpn) { IsRunning(s, p) && v in s.procs[p].pt }

  function DoUnmapClear(s: State, p: Pid, v: Vpn): State
    requires HasPage(s, p, v)
  {
    var e := s.procs[p].pt[v];
    SetProc(s, p, s.procs[p].pt - {v}, if e.shared then Running else Unmapping(e.frame, e.cow))
  }

  predicate CanUnmapRelease(s: State, p: Pid) { p in s.procs && s.procs[p].pc.Unmapping? }

  function DoUnmapRelease(s: State, p: Pid): State
    requires CanUnmapRelease(s, p)
  {
    SetProc(DropClaim(s, s.procs[p].pc.frame, s.procs[p].pc.cow), p, s.procs[p].pt, Running)
  }

  /** `clone_user_half_cow`, one present entry at a time, in any order. */
  predicate CanForkBegin(s: State, p: Pid, c: Pid) { IsRunning(s, p) && c !in s.procs }

  function DoForkBegin(s: State, p: Pid, c: Pid): State
    requires p in s.procs
  {
    SetProc(SetProc(s, p, s.procs[p].pt, Forking(c, s.procs[p].pt.Keys)), c, map[], Embryo)
  }

  predicate CanForkMark(s: State, p: Pid, v: Vpn) {
    HasPage(s, p, v) && s.procs[p].pc.Forking? && v in s.procs[p].pc.todo && !s.procs[p].pt[v].shared
  }

  function DoForkMark(s: State, p: Pid, v: Vpn): State
    requires CanForkMark(s, p, v)
  {
    SetProc(s, p, s.procs[p].pt[v := s.procs[p].pt[v].(writable := false, cow := true)],
            ForkMarked(s.procs[p].pc.child, s.procs[p].pc.todo, v))
  }

  predicate IsMarked(s: State, p: Pid) {
    p in s.procs && s.procs[p].pc.ForkMarked? && s.procs[p].pc.vpn in s.procs[p].pt
  }

  function MarkedFrame(s: State, p: Pid): Frame
    requires IsMarked(s, p)
  {
    s.procs[p].pt[s.procs[p].pc.vpn].frame
  }

  /** The `cow_share` call of fork, whether or not the table can record the claim. */
  ghost function DoForkShare(s: State, p: Pid): State
    requires IsMarked(s, p)
  {
    var pc := s.procs[p].pc;
    SetProc(s, p, s.procs[p].pt, ForkShared(pc.child, pc.todo, pc.vpn, MarkedFrame(s, p)))
      .(table := Share(s.table, MarkedFrame(s, p)))
  }

  predicate CanForkMap(s: State, p: Pid) {
    p in s.procs && s.procs[p].pc.ForkShared? && s.procs[p].pc.child in s.procs
  }

  function DoForkMap(s: State, p: Pid): State
    requires CanForkMap(s, p)
  {
    var pc := s.procs[p].pc;
    var child := s.procs[pc.child];
    SetProc(SetProc(s, p, s.procs[p].pt, Forking(pc.child, pc.todo - {pc.vpn})),
            pc.child, child.pt[pc.vpn := Pte(pc.frame, false, true, false)], child.pc)
  }

  predicate CanForkCopyShared(s: State, p: Pid, v: Vpn) {
    HasPage(s, p, v) && s.procs[p].pc.Forking? && v in s.procs[p].pc.todo && s.procs[p].pt[v].shared
    && s.procs[p].pc.child in s.procs
  }

  function DoForkCopyShared(s: State, p: Pid, v: Vpn): State
    requires CanForkCopyShared(s, p, v)
  {
    var pc := s.procs[p].pc;
    var child := s.procs[pc.child];
    SetProc(SetProc(s, p, s.procs[p].pt, Forking(pc.child, pc.todo - {v})),
            pc.child, child.pt[v := s.procs[p].pt[v]], child.pc)
  }

  predicate CanForkEnd(s: State, p: Pid, c: Pid) {
    p in s.procs && s.procs[p].pc == Forking(c, {}) && c in s.procs
  }

  function DoForkEnd(s: State, p: Pid, c: Pid): State
    requires p in s.procs && c in s.procs
  {
    SetProc(SetProc(s, p, s.procs[p].pt, Running), c, s.procs[c].pt, Running)
  }

  /** Exit, or the old image of exec. */
  predicate CanExitBegin(s: State, p: Pid) { IsRunning(s, p) }

  function DoExitBegin(s: State, p: Pid): State
    requires p in s.procs
  {
    SetProc(s, p, s.procs[p].pt, Dying)
  }

  predicate CanTearPage(s: State, p: Pid, v: Vpn) { HasPage(s, p, v) && s.procs[p].pc.Dying? }

  /** One leaf of `free_table`, which does not look at mappings: a leaf that is not CoW is freed. */
  function DoTearPage(s: State, p: Pid, v: Vpn): State
    requires HasPage(s, p, v)
  {
    var e := s.procs[p].pt[v];
    SetProc(DropClaim(s, e.frame, e.cow), p, s.procs[p].pt - {v}, s.procs[p].pc)
  }

  predicate CanReap(s: State, p: Pid) { p in s.procs && s.procs[p].pc.Dying? && s.procs[p].pt == map[] }

  function DoReap(s: State, p: Pid): State { s.(procs := s.procs - {p}) }

  predicate Enabled(s: State, l: Label) {
    match l
    case Spawn(p) => CanSpawn(s, p)
    case MapFresh(p, v, f, page, w) => CanMapFresh(s, p, v, f, page)
    case CacheFill(f, page) => CanCacheFill(s, f, page)
    case FileShare(p, v, f) => CanFileShare(s, p, v, f)
    case FileMap(p, v, f) => CanFileMap(s, p, v, f)
    case SharedFault(p, v, f, w) => CanSharedFault(s, p, v, f)
    case Write(p, v, off, byte) => CanWrite(s, p, v, off)
    case CowFault(p, v, copy) => CanCowFault(s, p, v, copy)
    case UnmapClear(p, v) => CanUnmapClear(s, p, v)
    case UnmapRelease(p) => CanUnmapRelease(s, p)
    case ForkBegin(p, c) => CanForkBegin(s, p, c)
    case ForkMark(p, v) => CanForkMark(s, p, v)
    case ForkShare(p) => IsMarked(s, p)
    case ForkMap(p) => CanForkMap(s, p)
    case ForkCopyShared(p, v) => CanForkCopyShared(s, p, v)
    case ForkEnd(p, c) => CanForkEnd(s, p, c)
    case ExitBegin(p) => CanExitBegin(s, p)
    case TearPage(p, v) => CanTearPage(s, p, v)
    case Reap(p) => CanReap(s, p)
  }

  ghost function Next(s: State, l: Label): State
    requires Enabled(s, l)
  {
    match l
    case Spawn(p) => DoSpawn(s, p)
    case MapFresh(p, v, f, page, w) => DoMapFresh(s, p, v, f, page, w)
    case CacheFill(f, page) => DoCacheFill(s, f, page)
    case FileShare(p, v, f) => DoFileShare(s, p, v, f)
    case FileMap(p, v, f) => DoFileMap(s, p, v, f)
    case SharedFault(p, v, f, w) => DoSharedFault(s, p, v, f, w)
    case Write(p, v, off, byte) => DoWrite(s, p, v, off, byte)
    case CowFault(p, v, copy) => DoCowFault(s, p, v, copy)
    case UnmapClear(p, v) => DoUnmapClear(s, p, v)
    case UnmapRelease(p) => DoUnmapRelease(s, p)
    case ForkBegin(p, c) => DoForkBegin(s, p, c)
    case ForkMark(p, v) => DoForkMark(s, p, v)
    case ForkShare(p) => DoForkShare(s, p)
    case ForkMap(p) => DoForkMap(s, p)
    case ForkCopyShared(p, v) => DoForkCopyShared(s, p, v)
    case ForkEnd(p, c) => DoForkEnd(s, p, c)
    case ExitBegin(p) => DoExitBegin(s, p)
    case TearPage(p, v) => DoTearPage(s, p, v)
    case Reap(p) => DoReap(s, p)
  }

  /** What the code relies on: room in the table for a share, and no MAP_SHARED page in a teardown. */
  ghost predicate Safe(s: State, l: Label) {
    match l
    case FileShare(_, _, f) => CanShare(s.table, f)
    case ForkShare(p) => IsMarked(s, p) ==> CanShare(s.table, MarkedFrame(s, p))
    case TearPage(p, v) => HasPage(s, p, v) ==> !s.procs[p].pt[v].shared
    case _ => true
  }

  // Claims

  datatype Claim = Entry(pid: Pid, vpn: Vpn) | InFlight(pid: Pid) | PageCache

  predicate Pends(pc: Pc, f: Frame) {
    (pc.ForkShared? || pc.FilePending? || pc.Unmapping?) && pc.frame == f
  }

  predicate MapsTo(pt: map<Vpn, Pte>, v: Vpn, f: Frame) {
    v in pt && pt[v].frame == f && !pt[v].shared
  }

  predicate IsClaim(s: State, c: Claim, f: Frame) {
    match c
    case Entry(p, v) => p in s.procs && MapsTo(s.procs[p].pt, v, f)
    case InFlight(p) => p in s.procs && Pends(s.procs[p].pc, f)
    case PageCache => f in s.cached
  }

  ghost predicate AreTheClaims(s: State, f: Frame, cs: set<Claim>) {
    forall c :: c in cs <==> IsClaim(s, c, f)
  }

  lemma FinitelyManyClaims(s: State, f: Frame)
    ensures exists cs :: AreTheClaims(s, f, cs)
  {
    var entries := set p, v | p in s.procs && v in s.procs[p].pt && IsClaim(s, Entry(p, v), f) :: Entry(p, v);
    var pending := set p | p in s.procs && IsClaim(s, InFlight(p), f) :: InFlight(p);
    assert AreTheClaims(s, f, entries + pending + (if f in s.cached then {PageCache} else {}));
  }

  /** Everything that keeps `f` alive. */
  ghost function Claims(s: State, f: Frame): (cs: set<Claim>)
    ensures forall c :: c in cs <==> IsClaim(s, c, f)
  {
    FinitelyManyClaims(s, f);
    var cs :| AreTheClaims(s, f, cs);
    cs
  }

  // Invariants

  /** The frames in use are the claimed ones, and the share count counts the claims. */
  ghost predicate Counted(s: State, f: Frame) {
    if f in s.mem then Claims(s, f) != {} && |Claims(s, f)| == Count(s.table, f)
    else Claims(s, f) == {} && f !in s.table
  }

  /** A private entry that is not CoW, and so any writable one, holds the only claim on its frame. */
  ghost predicate EntryInv(s: State, p: Pid, v: Vpn) {
    p in s.procs && v in s.procs[p].pt ==>
      var e := s.procs[p].pt[v];
      if e.shared then !e.cow && e.frame in s.cached
      else (e.writable ==> !e.cow) && (!e.cow ==> Claims(s, e.frame) == {Entry(p, v)})
  }

  predicate IsForking(pc: Pc) {
    pc.Forking? || pc.ForkMarked? || pc.ForkShared?
  }

  /** The child under construction maps the pages done so far as the parent does, each CoW or MAP_SHARED. */
  predicate ForkInv(s: State, p: Pid)
    requires p in s.procs && IsForking(s.procs[p].pc)
  {
    var pc := s.procs[p].pc;
    var pt := s.procs[p].pt;
    && pc.child != p && pc.child in s.procs && s.procs[pc.child].pc.Embryo?
    && pc.todo <= pt.Keys
    && s.procs[pc.child].pt.Keys == pt.Keys - pc.todo
    && (forall v :: v in s.procs[pc.child].pt ==> s.procs[pc.child].pt[v] == pt[v] && (pt[v].cow || pt[v].shared))
    && (!pc.Forking? ==> pc.vpn in pc.todo && pt[pc.vpn].cow && !pt[pc.vpn].shared)
    && (pc.ForkShared? ==> pt[pc.vpn].frame == pc.frame)
  }

  ghost predicate PcInv(s: State, p: Pid) {
    p in s.procs ==>
      var pc := s.procs[p].pc;
      && (IsForking(pc) ==> ForkInv(s, p))
      && (pc.FilePending? ==> pc.frame in s.cached && pc.vpn !in s.procs[p].pt)
      && (pc.Unmapping? && !pc.cow ==> Claims(s, pc.frame) == {InFlight(p)})
  }

  /** Two forks in progress build different children. */
  predicate ForksApart(s: State, p: Pid, q: Pid) {
    p in s.procs && q in s.procs && p != q && IsForking(s.procs[p].pc) && IsForking(s.procs[q].pc) ==>
      s.procs[p].pc.child != s.procs[q].pc.child
  }

  predicate WholePage(s: State, f: Frame) {
    f in s.mem ==> |s.mem[f]| == PAGE_SIZE
  }

  ghost predicate Inv(s: State) {
    && ValidTable(s.table)
    && (forall f :: WholePage(s, f))
    && (forall f :: Counted(s, f))
    && (forall p, v :: EntryInv(s, p, v))
    && (forall p :: PcInv(s, p))
    && (forall p, q :: ForksApart(s, p, q))
  }

  // How a step of one process changes the claims on one frame

  ghost predicate OnlyChanges(s: State, s': State, p: Pid) {
    forall q :: q != p ==> (q in s'.procs <==> q in s.procs) && (q in s.procs ==> s'.procs[q] == s.procs[q])
  }

  ghost predicate StepOf(s: State, s': State, p: Pid) {
    s'.cached == s.cached && OnlyChanges(s, s', p) && p in s.procs && p in s'.procs
  }

  ghost predicate SameMaps(s: State, s': State, p: Pid, f: Frame)
    requires p in s.procs && p in s'.procs
  {
    forall v :: MapsTo(s'.procs[p].pt, v, f) <==> MapsTo(s.procs[p].pt, v, f)
  }

  ghost predicate MapsMore(s: State, s': State, p: Pid, v: Vpn, f: Frame)
    requires p in s.procs && p in s'.procs
  {
    && !MapsTo(s.procs[p].pt, v, f)
    && forall u :: MapsTo(s'.procs[p].pt, u, f) <==> u == v || MapsTo(s.procs[p].pt, u, f)
  }

  /** Only `p` has changed, and not in what it claims of `f`. */
  lemma SameClaims(s: State, s': State, p: Pid, f: Frame)
    requires StepOf(s, s', p) && SameMaps(s, s', p, f)
    requires Pends(s'.procs[p].pc, f) <==> Pends(s.procs[p].pc, f)
    ensures Claims(s', f) == Claims(s, f)
  {
    forall c ensures c in Claims(s', f) <==> c in Claims(s, f) {
      assert c.Entry? && c.pid == p ==> (MapsTo(s'.procs[p].pt, c.vpn, f) <==> MapsTo(s.procs[p].pt, c.vpn, f));
    }
  }

  lemma PendingAdded(s: State, s': State, p: Pid, f: Frame)
    requires StepOf(s, s', p) && SameMaps(s, s', p, f)
    requires Pends(s'.procs[p].pc, f) && !Pends(s.procs[p].pc, f)
    ensures Claims(s', f) == Claims(s, f) + {InFlight(p)}
    ensures |Claims(s', f)| == |Claims(s, f)| + 1
  {
    forall c ensures c in Claims(s', f) <==> c in Claims(s, f) + {InFlight(p)} {
      assert c.Entry? && c.pid == p ==> (MapsTo(s'.procs[p].pt, c.vpn, f) <==> MapsTo(s.procs[p].pt, c.vpn, f));
    }
    assert InFlight(p) !in Claims(s, f);
  }

  lemma EntryAdded(s: State, s': State, p: Pid, v: Vpn, f: Frame)
    requires StepOf(s, s', p) && MapsMore(s, s', p, v, f)
    requires Pends(s'.procs[p].pc, f) <==> Pends(s.procs[p].pc, f)
    ensures Claims(s', f) == Claims(s, f) + {Entry(p, v)}
    ensures |Claims(s', f)| == |Claims(s, f)| + 1
  {
    forall c ensures c in Claims(s', f) <==> c in Claims(s, f) + {Entry(p, v)} {
      assert c.Entry? && c.pid == p ==>
          (MapsTo(s'.procs[p].pt, c.vpn, f) <==> c.vpn == v || MapsTo(s.procs[p].pt, c.vpn, f));
    }
    assert Entry(p, v) !in Claims(s, f);
  }

  /** A pending claim becomes an entry. */
  lemma PendingMapped(s: State, s': State, p: Pid, v: Vpn, f: Frame)
    requires StepOf(s, s', p) && MapsMore(s, s', p, v, f)
    requires !Pends(s'.procs[p].pc, f) && Pends(s.procs[p].pc, f)
    ensures Claims(s', f) == Claims(s, f) - {InFlight(p)} + {Entry(p, v)}
    ensures |Claims(s', f)| == |Claims(s, f)|
  {
    forall c ensures c in Claims(s', f) <==> c in Claims(s, f) - {InFlight(p)} + {Entry(p, v)} {
      assert c.Entry? && c.pid == p ==>
          (MapsTo(s'.procs[p].pt, c.vpn, f) <==> c.vpn == v || MapsTo(s.procs[p].pt, c.vpn, f));
    }
    MovedElement(Claims(s, f), Claims(s', f), InFlight(p), Entry(p, v));
  }

  lemma MovedElement<T>(a: set<T>, b: set<T>, x: T, y: T)
    requires x in a && y !in a
    requires forall c :: c in b <==> c == y || (c != x && c in a)
    ensures b == a - {x} + {y}
    ensures |b| == |a|
  {
    assert b == (a - {x}) + {y};
  }

  /** A claimed frame is in use, and its share count counts the claim. */
  lemma ClaimedFrame(s: State, c: Claim, f: Frame)
    requires Inv(s) && IsClaim(s, c, f)
    ensures f in s.mem && c in Claims(s, f) && |Claims(s, f)| == Count(s.table, f)
  {
    assert Counted(s, f);
  }

  // What a step leaves alone

  /** `x` is a claim made by a process other than `p`. */
  predicate ByOther(x: Claim, p: Pid) {
    !x.PageCache? && x.pid != p
  }

  /** A claim that is alone on its frame, and not made by `p`, stays alone. */
  ghost predicate LoneClaimsKept(s: State, s': State, p: Pid) {
    forall f, x :: Claims(s, f) == {x} && ByOther(x, p) ==> Claims(s', f) == {x}
  }

  ghost predicate FramesInv(s: State) {
    && ValidTable(s.table)
    && (forall f :: WholePage(s, f))
    && (forall f :: Counted(s, f))
  }

  predicate SameFork(pc: Pc, pc': Pc) {
    IsForking(pc') ==> IsForking(pc) && pc'.child == pc.child
  }

  lemma OthersKept(s: State, s': State, p: Pid)
    requires Inv(s) && p in s.procs && p in s'.procs && OnlyChanges(s, s', p)
    requires !s.procs[p].pc.Embryo? && s.cached <= s'.cached && LoneClaimsKept(s, s', p)
    ensures forall q, u :: q != p ==> EntryInv(s', q, u)
    ensures forall q :: q != p ==> PcInv(s', q)
  {
    forall q, u | q != p ensures EntryInv(s', q, u) {
      assert EntryInv(s, q, u);
    }
    forall q | q != p ensures PcInv(s', q) {
      assert PcInv(s, q);
    }
  }

  /** A step of `p` alone keeps the invariant if it does so for the frames and for `p`. */
  lemma OneProcessKeepsInv(s: State, s': State, p: Pid)
    requires Inv(s) && p in s.procs && p in s'.procs && OnlyChanges(s, s', p)
    requires !s.procs[p].pc.Embryo? && s.cached <= s'.cached && LoneClaimsKept(s, s', p)
    requires SameFork(s.procs[p].pc, s'.procs[p].pc)
    requires FramesInv(s') && PcInv(s', p) && forall v :: EntryInv(s', p, v)
    ensures Inv(s')
  {
    OthersKept(s, s', p);
    forall q, r ensures ForksApart(s', q, r) { assert ForksApart(s, q, r); }
  }

  lemma ForkMarkKeepsInv(s: State, p: Pid, v: Vpn)
    requires Inv(s) && CanForkMark(s, p, v)
    ensures Inv(DoForkMark(s, p, v))
  {
    var s' := DoForkMark(s, p, v);
    assert PcInv(s, p);
    forall f ensures Claims(s', f) == Claims(s, f) { SameClaims(s, s', p, f); }
    forall f ensures Counted(s', f) && WholePage(s', f) { assert Counted(s, f) && WholePage(s, f); }
    forall u ensures EntryInv(s', p, u) { assert EntryInv(s, p, u); }
    OneProcessKeepsInv(s, s', p);
  }

  /** The `cow_share` of fork adds a claim, and counts it if and only if the table has room. */
  lemma ForkShareClaims(s: State, p: Pid)
    requires Inv(s) && IsMarked(s, p)
    ensures var s', f := DoForkShare(s, p), MarkedFrame(s, p);
            && Entry(p, s.procs[p].pc.vpn) in Claims(s, f)
            && Claims(s', f) == Claims(s, f) + {InFlight(p)}
            && (forall g :: g != f ==> Claims(s', g) == Claims(s, g))
            && (Counted(s', f) <==> CanShare(s.table, f))
            && (CanShare(s.table, f) ==> FramesInv(s'))
  {
    var s' := DoForkShare(s, p);
    var f := MarkedFrame(s, p);
    assert PcInv(s, p);
    ClaimedFrame(s, Entry(p, s.procs[p].pc.vpn), f);
    PendingAdded(s, s', p, f);
    forall g | g != f ensures Claims(s', g) == Claims(s, g) { SameClaims(s, s', p, g); }
    ShareCounts(s.table, f);
    forall g | g != f ensures Counted(s', g) && WholePage(s', g) { assert Counted(s, g) && WholePage(s, g); }
    assert WholePage(s, f);
  }

  /** The share of fork keeps the invariant if and only if the table has room for the claim. */
  lemma ForkShareKeepsInv(s: State, p: Pid)
    requires Inv(s) && IsMarked(s, p)
    ensures Inv(DoForkShare(s, p)) <==> CanShare(s.table, MarkedFrame(s, p))
    ensures Counted(DoForkShare(s, p), MarkedFrame(s, p)) <==> CanShare(s.table, MarkedFrame(s, p))
  {
    var s' := DoForkShare(s, p);
    ForkShareClaims(s, p);
    if CanShare(s.table, MarkedFrame(s, p)) {
      assert PcInv(s, p);
      forall u ensures EntryInv(s', p, u) { assert EntryInv(s, p, u); }
      OneProcessKeepsInv(s, s', p);
    }
  }

  // Every step keeps the invariant

  lemma SpawnKeepsInv(s: State, p: Pid)
    requires Inv(s) && CanSpawn(s, p)
    ensures Inv(DoSpawn(s, p))
  {
    var s' := DoSpawn(s, p);
    forall f ensures Claims(s', f) == Claims(s, f) { }
    forall f ensures Counted(s', f) && WholePage(s', f) { assert Counted(s, f) && WholePage(s, f); }
    forall q, u ensures EntryInv(s', q, u) { assert EntryInv(s, q, u); }
    forall q ensures PcInv(s', q) { assert PcInv(s, q); }
    forall q, r ensures ForksApart(s', q, r) { assert ForksApart(s, q, r); }
  }

  lemma ReapKeepsInv(s: State, p: Pid)
    requires Inv(s) && CanReap(s, p)
    ensures Inv(DoReap(s, p))
  {
    var s' := DoReap(s, p);
    forall f ensures Claims(s', f) == Claims(s, f) { }
    forall f ensures Counted(s', f) && WholePage(s', f) { assert Counted(s, f) && WholePage(s, f); }
    forall q, u ensures EntryInv(s', q, u) { assert EntryInv(s, q, u); }
    forall q ensures PcInv(s', q) { assert PcInv(s, q); }
    forall q, r ensures ForksApart(s', q, r) { assert ForksApart(s, q, r); }
  }

  lemma MapFreshKeepsInv(s: State, p: Pid, v: Vpn, f: Frame, page: Page, w: bool)
    requires Inv(s) && CanMapFresh(s, p, v, f, page)
    ensures Inv(DoMapFresh(s, p, v, f, page, w))
  {
    var s' := DoMapFresh(s, p, v, f, page, w);
    assert Counted(s, f);
    assert PcInv(s, p);
    EntryAdded(s, s', p, v, f);
    forall g | g != f ensures Claims(s', g) == Claims(s, g) { SameClaims(s, s', p, g); }
    forall g ensures Counted(s', g) && WholePage(s', g) { assert Counted(s, g) && WholePage(s, g); }
    forall u ensures EntryInv(s', p, u) { assert EntryInv(s, p, u); }
    OneProcessKeepsInv(s, s', p);
  }

  lemma CacheFillKeepsInv(s: State, f: Frame, page: Page)
    requires Inv(s) && CanCacheFill(s, f, page)
    ensures Inv(DoCacheFill(s, f, page))
  {
    var s' := DoCacheFill(s, f, page);
    assert Counted(s, f);
    assert Claims(s', f) == {PageCache};
    forall g | g != f ensures Claims(s', g) == Claims(s, g) { }
    forall g ensures Counted(s', g) && WholePage(s', g) { assert Counted(s, g) && WholePage(s, g); }
    forall q, u ensures EntryInv(s', q, u) { assert EntryInv(s, q, u); }
    forall q ensures PcInv(s', q) { assert PcInv(s, q); }
    forall q, r ensures ForksApart(s', q, r) { assert ForksApart(s, q, r); }
  }

  /** The `cow_share` of a private file fault adds a claim, and counts it if and only if the table has room. */
  lemma FileShareClaims(s: State, p: Pid, v: Vpn, f: Frame)
    requires Inv(s) && CanFileShare(s, p, v, f)
    ensures var s' := DoFileShare(s, p, v, f);
            && PageCache in Claims(s, f)
            && Claims(s', f) == Claims(s, f) + {InFlight(p)}
            && (forall g :: g != f ==> Claims(s', g) == Claims(s, g))
            && (Counted(s', f) <==> CanShare(s.table, f))
            && (CanShare(s.table, f) ==> FramesInv(s'))
  {
    var s' := DoFileShare(s, p, v, f);
    ClaimedFrame(s, PageCache, f);
    PendingAdded(s, s', p, f);
    forall g | g != f ensures Claims(s', g) == Claims(s, g) { SameClaims(s, s', p, g); }
    ShareCounts(s.table, f);
    forall g | g != f ensures Counted(s', g) && WholePage(s', g) { assert Counted(s, g) && WholePage(s, g); }
    assert WholePage(s, f);
  }

  /** The share of a file fault keeps the invariant if and only if the table has room for the claim. */
  lemma FileShareKeepsInv(s: State, p: Pid, v: Vpn, f: Frame)
    requires Inv(s) && CanFileShare(s, p, v, f)
    ensures Inv(DoFileShare(s, p, v, f)) <==> CanShare(s.table, f)
    ensures Counted(DoFileShare(s, p, v, f), f) <==> CanShare(s.table, f)
  {
    var s' := DoFileShare(s, p, v, f);
    FileShareClaims(s, p, v, f);
    if CanShare(s.table, f) {
      forall u ensures EntryInv(s', p, u) { assert EntryInv(s, p, u); }
      OneProcessKeepsInv(s, s', p);
    }
  }

  lemma FileMapKeepsInv(s: State, p: Pid, v: Vpn, f: Frame)
    requires Inv(s) && CanFileMap(s, p, v, f)
    ensures Inv(DoFileMap(s, p, v, f))
  {
    var s' := DoFileMap(s, p, v, f);
    assert PcInv(s, p);
    ClaimedFrame(s, InFlight(p), f);
    PendingMapped(s, s', p, v, f);
    forall g | g != f ensures Claims(s', g) == Claims(s, g) { SameClaims(s, s', p, g); }
    forall g ensures Counted(s', g) && WholePage(s', g) { assert Counted(s, g) && WholePage(s, g); }
    forall u ensures EntryInv(s', p, u) { assert EntryInv(s, p, u); }
    OneProcessKeepsInv(s, s', p);
  }

  lemma SharedFaultKeepsInv(s: State, p: Pid, v: Vpn, f: Frame, w: bool)
    requires Inv(s) && CanSharedFault(s, p, v, f)
    ensures Inv(DoSharedFault(s, p, v, f, w))
  {
    var s' := DoSharedFault(s, p, v, f, w);
    forall g ensures Claims(s', g) == Claims(s, g) { SameClaims(s, s', p, g); }
    forall g ensures Counted(s', g) && WholePage(s', g) { assert Counted(s, g) && WholePage(s, g); }
    forall u ensures EntryInv(s', p, u) { assert EntryInv(s, p, u); }
    OneProcessKeepsInv(s, s', p);
  }

  lemma WriteKeepsInv(s: State, p: Pid, v: Vpn, off: nat, byte: bv8)
    requires Inv(s) && CanWrite(s, p, v, off)
    ensures Inv(DoWrite(s, p, v, off, byte))
  {
    var s' := DoWrite(s, p, v, off, byte);
    forall g ensures Claims(s', g) == Claims(s, g) { SameClaims(s, s', p, g); }
    forall g ensures Counted(s', g) && WholePage(s', g) { assert Counted(s, g) && WholePage(s, g); }
    forall u ensures EntryInv(s', p, u) { assert EntryInv(s, p, u); }
    assert PcInv(s, p);
    OneProcessKeepsInv(s, s', p);
  }

  lemma SoleClaim(s: State, x: Claim, f: Frame)
    requires Inv(s) && IsClaim(s, x, f) && Sole(s.table, f)
    ensures Claims(s, f) == {x}
  {
    ClaimedFrame(s, x, f);
    var rest := Claims(s, f) - {x};
    assert |rest| == 0;
  }

  lemma ReuseKeepsInv(s: State, p: Pid, v: Vpn, copy: Frame)
    requires Inv(s) && CanCowFault(s, p, v, copy) && Sole(s.table, s.procs[p].pt[v].frame)
    ensures Inv(DoCowFault(s, p, v, copy))
  {
    var s' := DoCowFault(s, p, v, copy);
    assert EntryInv(s, p, v);
    SoleClaim(s, Entry(p, v), s.procs[p].pt[v].frame);
    forall g ensures Claims(s', g) == Claims(s, g) { SameClaims(s, s', p, g); }
    forall g ensures Counted(s', g) && WholePage(s', g) { assert Counted(s, g) && WholePage(s, g); }
    forall u ensures EntryInv(s', p, u) { assert EntryInv(s, p, u); }
    OneProcessKeepsInv(s, s', p);
  }

  lemma CopyAwayClaims(s: State, p: Pid, v: Vpn, copy: Frame)
    requires Inv(s) && CanCowFault(s, p, v, copy) && !Sole(s.table, s.procs[p].pt[v].frame)
    ensures var s', f := DoCowFault(s, p, v, copy), s.procs[p].pt[v].frame;
            && FramesInv(s')
            && f != copy && !s.procs[p].pt[v].shared
            && Claims(s, f) == Claims(s', f) + {Entry(p, v)}
            && Claims(s, copy) == {} && Claims(s', copy) == {Entry(p, v)}
            && forall g :: g != f && g != copy ==> Claims(s', g) == Claims(s, g)
  {
    var s', f := DoCowFault(s, p, v, copy), s.procs[p].pt[v].frame;
    assert EntryInv(s, p, v) && Counted(s, copy);
    ClaimedFrame(s, Entry(p, v), f);
    EntryAdded(s', s, p, v, f);
    EntryAdded(s, s', p, v, copy);
    forall g | g != f && g != copy ensures Claims(s', g) == Claims(s, g) { SameClaims(s, s', p, g); }
    ReleaseCounts(s.table, f);
    forall g ensures Counted(s', g) && WholePage(s', g) { assert Counted(s, g) && WholePage(s, g) && WholePage(s, f); }
  }

  lemma CopyAwayKeepsInv(s: State, p: Pid, v: Vpn, copy: Frame)
    requires Inv(s) && CanCowFault(s, p, v, copy) && !Sole(s.table, s.procs[p].pt[v].frame)
    ensures Inv(DoCowFault(s, p, v, copy))
  {
    var s' := DoCowFault(s, p, v, copy);
    CopyAwayClaims(s, p, v, copy);
    forall u ensures EntryInv(s', p, u) { assert EntryInv(s, p, u); }
    OneProcessKeepsInv(s, s', p);
  }

  lemma UnmapClearClaims(s: State, p: Pid, v: Vpn)
    requires Inv(s) && CanUnmapClear(s, p, v)
    ensures var s', e := DoUnmapClear(s, p, v), s.procs[p].pt[v];
            && FramesInv(s')
            && (!e.shared ==> Claims(s', e.frame) == Claims(s, e.frame) - {Entry(p, v)} + {InFlight(p)})
            && forall g :: g != e.frame || e.shared ==> Claims(s', g) == Claims(s, g)
  {
    var s', e := DoUnmapClear(s, p, v), s.procs[p].pt[v];
    if !e.shared { ClearedClaim(s, p, v); }
    forall g | g != e.frame || e.shared ensures Claims(s', g) == Claims(s, g) { SameClaims(s, s', p, g); }
    forall g ensures Counted(s', g) && WholePage(s', g) { assert Counted(s, g) && WholePage(s, g); }
  }

  lemma ClearedClaim(s: State, p: Pid, v: Vpn)
    requires Inv(s) && CanUnmapClear(s, p, v) && !s.procs[p].pt[v].shared
    ensures var s', f := DoUnmapClear(s, p, v), s.procs[p].pt[v].frame;
            && Claims(s', f) == Claims(s, f) - {Entry(p, v)} + {InFlight(p)}
            && |Claims(s', f)| == |Claims(s, f)|
  {
    var s', f := DoUnmapClear(s, p, v), s.procs[p].pt[v].frame;
    PendingMapped(s', s, p, v, f);
    assert Claims(s', f) == Claims(s, f) - {Entry(p, v)} + {InFlight(p)};
    assert Entry(p, v) in Claims(s, f) && InFlight(p) !in Claims(s, f);
  }

  lemma UnmapClearKeepsInv(s: State, p: Pid, v: Vpn)
    requires Inv(s) && CanUnmapClear(s, p, v)
    ensures Inv(DoUnmapClear(s, p, v))
  {
    var s', e := DoUnmapClear(s, p, v), s.procs[p].pt[v];
    assert EntryInv(s, p, v);
    assert !e.shared ==> Entry(p, v) in Claims(s, e.frame);
    UnmapClearClaims(s, p, v);
    forall u ensures EntryInv(s', p, u) { assert EntryInv(s, p, u); }
    OneProcessKeepsInv(s, s', p);
  }

  lemma UnmapReleaseKeepsInv(s: State, p: Pid)
    requires Inv(s) && CanUnmapRelease(s, p)
    ensures Inv(DoUnmapRelease(s, p))
  {
    var s', f := DoUnmapRelease(s, p), s.procs[p].pc.frame;
    assert PcInv(s, p);
    ClaimedFrame(s, InFlight(p), f);
    if Sole(s.table, f) { SoleClaim(s, InFlight(p), f); }
    PendingAdded(s', s, p, f);
    forall g | g != f ensures Claims(s', g) == Claims(s, g) { SameClaims(s, s', p, g); }
    ReleaseCounts(s.table, f);
    forall g ensures Counted(s', g) && WholePage(s', g) { assert Counted(s, g) && WholePage(s, g); }
    forall u ensures EntryInv(s', p, u) { assert EntryInv(s, p, u); }
    OneProcessKeepsInv(s, s', p);
  }

  lemma ExitBeginKeepsInv(s: State, p: Pid)
    requires Inv(s) && CanExitBegin(s, p)
    ensures Inv(DoExitBegin(s, p))
  {
    var s' := DoExitBegin(s, p);
    forall g ensures Claims(s', g) == Claims(s, g) { SameClaims(s, s', p, g); }
    forall g ensures Counted(s', g) && WholePage(s', g) { assert Counted(s, g) && WholePage(s, g); }
    forall u ensures EntryInv(s', p, u) { assert EntryInv(s, p, u); }
    OneProcessKeepsInv(s, s', p);
  }

  /** Tearing down a leaf keeps the invariant if and only if the leaf is not one of a MAP_SHARED mapping. */
  lemma TearPageKeepsInv(s: State, p: Pid, v: Vpn)
    requires Inv(s) && CanTearPage(s, p, v)
    ensures Inv(DoTearPage(s, p, v)) <==> !s.procs[p].pt[v].shared
    ensures Counted(DoTearPage(s, p, v), s.procs[p].pt[v].frame) <==> !s.procs[p].pt[v].shared
  {
    if s.procs[p].pt[v].shared {
      assert EntryInv(s, p, v);
      assert PageCache in Claims(DoTearPage(s, p, v), s.procs[p].pt[v].frame);
      assert !Counted(DoTearPage(s, p, v), s.procs[p].pt[v].frame);
    } else {
      TearPrivatePageKeepsInv(s, p, v);
    }
  }

  lemma TearPageClaims(s: State, p: Pid, v: Vpn)
    requires Inv(s) && CanTearPage(s, p, v) && !s.procs[p].pt[v].shared
    ensures var s', f := DoTearPage(s, p, v), s.procs[p].pt[v].frame;
            && FramesInv(s')
            && Claims(s, f) == Claims(s', f) + {Entry(p, v)}
            && forall g :: g != f ==> Claims(s', g) == Claims(s, g)
  {
    var s', f := DoTearPage(s, p, v), s.procs[p].pt[v].frame;
    assert EntryInv(s, p, v);
    ClaimedFrame(s, Entry(p, v), f);
    if Sole(s.table, f) { SoleClaim(s, Entry(p, v), f); }
    EntryAdded(s', s, p, v, f);
    forall g | g != f ensures Claims(s', g) == Claims(s, g) { SameClaims(s, s', p, g); }
    ReleaseCounts(s.table, f);
    forall g ensures Counted(s', g) && WholePage(s', g) { assert Counted(s, g) && WholePage(s, g); }
  }

  lemma TearPrivatePageKeepsInv(s: State, p: Pid, v: Vpn)
    requires Inv(s) && CanTearPage(s, p, v) && !s.procs[p].pt[v].shared
    ensures Inv(DoTearPage(s, p, v))
  {
    var s' := DoTearPage(s, p, v);
    TearPageClaims(s, p, v);
    assert PcInv(s, p);
    forall u ensures EntryInv(s', p, u) { assert EntryInv(s, p, u); }
    OneProcessKeepsInv(s, s', p);
  }

  // Fork edits the parent and the child

  ghost predicate OnlyChangePair(s: State, s': State, p: Pid, c: Pid) {
    forall q :: q != p && q != c ==>
      (q in s'.procs <==> q in s.procs) && (q in s.procs ==> s'.procs[q] == s.procs[q])
  }

  /** A step of `p` on its child `c` keeps what holds of the other processes. */
  lemma OthersKeptByFork(s: State, s': State, p: Pid, c: Pid)
    requires Inv(s) && p in s.procs && OnlyChangePair(s, s', p, c)
    requires !s.procs[p].pc.Embryo? && s.cached == s'.cached
    requires c in s.procs ==> IsForking(s.procs[p].pc) && s.procs[p].pc.child == c
    requires forall f, x :: Claims(s, f) == {x} && ByOther(x, p) && ByOther(x, c) ==> Claims(s', f) == {x}
    ensures forall q, u :: q != p && q != c ==> EntryInv(s', q, u)
    ensures forall q :: q != p && q != c ==> PcInv(s', q)
    ensures forall q :: q != p && q != c && q in s'.procs && IsForking(s'.procs[q].pc) ==> s'.procs[q].pc.child != c
  {
    forall q, u | q != p && q != c ensures EntryInv(s', q, u) { assert EntryInv(s, q, u); }
    forall q | q != p && q != c
      ensures PcInv(s', q)
      ensures q in s'.procs && IsForking(s'.procs[q].pc) ==> s'.procs[q].pc.child != c
    {
      assert PcInv(s, q) && ForksApart(s, p, q);
    }
  }

  lemma ForkBeginKeepsInv(s: State, p: Pid, c: Pid)
    requires Inv(s) && CanForkBegin(s, p, c)
    ensures Inv(DoForkBegin(s, p, c))
  {
    var s' := DoForkBegin(s, p, c);
    forall f ensures Claims(s', f) == Claims(s, f) { }
    forall f ensures Counted(s', f) && WholePage(s', f) { assert Counted(s, f) && WholePage(s, f); }
    OthersKeptByFork(s, s', p, c);
    forall q, u ensures EntryInv(s', q, u) { assert EntryInv(s, q, u); }
    forall q, r ensures ForksApart(s', q, r) { assert ForksApart(s, q, r); }
    assert PcInv(s', p) && PcInv(s', c);
  }

  lemma ForkMapClaims(s: State, p: Pid)
    requires Inv(s) && CanForkMap(s, p)
    ensures var s', c, v, f := DoForkMap(s, p), s.procs[p].pc.child, s.procs[p].pc.vpn, s.procs[p].pc.frame;
            && FramesInv(s')
            && Entry(p, v) in Claims(s, f) && InFlight(p) in Claims(s, f)
            && Claims(s', f) == Claims(s, f) - {InFlight(p)} + {Entry(c, v)}
            && forall g :: g != f ==> Claims(s', g) == Claims(s, g)
  {
    var s', c, v, f := DoForkMap(s, p), s.procs[p].pc.child, s.procs[p].pc.vpn, s.procs[p].pc.frame;
    assert PcInv(s, p);
    forall x ensures x in Claims(s', f) <==> x in Claims(s, f) - {InFlight(p)} + {Entry(c, v)} { }
    MovedElement(Claims(s, f), Claims(s', f), InFlight(p), Entry(c, v));
    forall g | g != f ensures Claims(s', g) == Claims(s, g) { ForkMapKeepsClaims(s, p, g); }
    forall g ensures Counted(s', g) && WholePage(s', g) { assert Counted(s, g) && WholePage(s, g); }
  }

  lemma ForkMapKeepsClaims(s: State, p: Pid, g: Frame)
    requires Inv(s) && CanForkMap(s, p) && g != s.procs[p].pc.frame
    ensures Claims(DoForkMap(s, p), g) == Claims(s, g)
  {
    var s' := DoForkMap(s, p);
    assert PcInv(s, p);
    forall x ensures IsClaim(s', x, g) <==> IsClaim(s, x, g) { }
  }

  lemma ForkMapKeepsInv(s: State, p: Pid)
    requires Inv(s) && CanForkMap(s, p)
    ensures Inv(DoForkMap(s, p))
  {
    var s', c := DoForkMap(s, p), s.procs[p].pc.child;
    assert PcInv(s, p);
    ForkMapClaims(s, p);
    OthersKeptByFork(s, s', p, c);
    forall q, u ensures EntryInv(s', q, u) { assert EntryInv(s, q, u); }
    forall q, r ensures ForksApart(s', q, r) { assert ForksApart(s, q, r); }
    assert EntryInv(s, p, s.procs[p].pc.vpn);
    assert PcInv(s', p) && PcInv(s', c);
  }

  /** A fork that has copied everything leaves parent and child one table, its entries MAP_SHARED or CoW. */
  lemma ForkDone(s: State, p: Pid, c: Pid)
    requires Inv(s) && CanForkEnd(s, p, c)
    ensures s.procs[c].pt == s.procs[p].pt
    ensures forall v :: v in s.procs[p].pt ==> s.procs[p].pt[v].shared || s.procs[p].pt[v].cow
  {
    assert PcInv(s, p);
    var parent, child := s.procs[p].pt, s.procs[c].pt;
    assert child.Keys == parent.Keys;
    forall v | v in parent ensures v in child && child[v] == parent[v] && (parent[v].shared || parent[v].cow) {
      assert v in parent.Keys && v in child.Keys;
    }
    forall v | v in child ensures v in parent { assert v in child.Keys; }
    assert child == parent;
  }

  lemma ForkCopySharedKeepsInv(s: State, p: Pid, v: Vpn)
    requires Inv(s) && CanForkCopyShared(s, p, v)
    ensures Inv(DoForkCopyShared(s, p, v))
  {
    var s', c := DoForkCopyShared(s, p, v), s.procs[p].pc.child;
    assert PcInv(s, p) && EntryInv(s, p, v);
    forall f ensures Claims(s', f) == Claims(s, f) { }
    forall f ensures Counted(s', f) && WholePage(s', f) { assert Counted(s, f) && WholePage(s, f); }
    OthersKeptByFork(s, s', p, c);
    forall q, u ensures EntryInv(s', q, u) { assert EntryInv(s, q, u); }
    forall q, r ensures ForksApart(s', q, r) { assert ForksApart(s, q, r); }
    assert PcInv(s', p) && PcInv(s', c);
  }

  lemma ForkEndKeepsInv(s: State, p: Pid, c: Pid)
    requires Inv(s) && CanForkEnd(s, p, c)
    ensures Inv(DoForkEnd(s, p, c))
  {
    var s' := DoForkEnd(s, p, c);
    assert PcInv(s, p);
    forall f ensures Claims(s', f) == Claims(s, f) { }
    forall f ensures Counted(s', f) && WholePage(s', f) { assert Counted(s, f) && WholePage(s, f); }
    OthersKeptByFork(s, s', p, c);
    forall q, u ensures EntryInv(s', q, u) { assert EntryInv(s, q, u); }
    forall q, r ensures ForksApart(s', q, r) { assert ForksApart(s, q, r); }
    assert PcInv(s', p) && PcInv(s', c);
  }

  lemma StepKeepsInv(s: State, l: Label)
    requires Inv(s) && Enabled(s, l) && Safe(s, l)
    ensures Inv(Next(s, l))
  {
    match l
    case Spawn(p) => SpawnKeepsInv(s, p);
    case MapFresh(p, v, f, page, w) => MapFreshKeepsInv(s, p, v, f, page, w);
    case CacheFill(f, page) => CacheFillKeepsInv(s, f, page);
    case FileShare(p, v, f) => FileShareKeepsInv(s, p, v, f);
    case FileMap(p, v, f) => FileMapKeepsInv(s, p, v, f);
    case SharedFault(p, v, f, w) => SharedFaultKeepsInv(s, p, v, f, w);
    case Write(p, v, off, byte) => WriteKeepsInv(s, p, v, off, byte);
    case CowFault(p, v, copy) =>
      if Sole(s.table, s.procs[p].pt[v].frame) {
        ReuseKeepsInv(s, p, v, copy);
      } else {
        CopyAwayKeepsInv(s, p, v, copy);
      }
    case UnmapClear(p, v) => UnmapClearKeepsInv(s, p, v);
    case UnmapRelease(p) => UnmapReleaseKeepsInv(s, p);
    case ForkBegin(p, c) => ForkBeginKeepsInv(s, p, c);
    case ForkMark(p, v) => ForkMarkKeepsInv(s, p, v);
    case ForkShare(p) => ForkShareKeepsInv(s, p);
    case ForkMap(p) => ForkMapKeepsInv(s, p);
    case ForkCopyShared(p, v) => ForkCopySharedKeepsInv(s, p, v);
    case ForkEnd(p, c) => ForkEndKeepsInv(s, p, c);
    case ExitBegin(p) => ExitBeginKeepsInv(s, p);
    case TearPage(p, v) => TearPageKeepsInv(s, p, v);
    case Reap(p) => ReapKeepsInv(s, p);
  }
}
