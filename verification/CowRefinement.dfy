/** Copy-on-write behaves as if fork copied every page. */
module CowRefinement {
  import opened Common
  import opened CowSpec
  import opened CowMachine

  /** A page of the eager machine: the process's own bytes, or a page of the page cache. */
  datatype View = Own(page: Page) | File(frame: Frame)

  datatype Spec = Spec(views: map<Pid, map<Vpn, View>>, files: map<Frame, Page>)

  function WriteByte(page: Page, off: nat, byte: bv8): Page {
    if off < |page| then page[off := byte] else page
  }

  function FilePage(a: Spec, f: Frame): Page {
    if f in a.files then a.files[f] else []
  }

  function SetView(a: Spec, p: Pid, v: Vpn, x: View): Spec {
    if p in a.views then a.(views := a.views[p := a.views[p][v := x]]) else a
  }

  function ViewAt(a: Spec, p: Pid, v: Vpn): View {
    if p in a.views && v in a.views[p] then a.views[p][v] else Own([])
  }

  /** The eager machine: fork copies the parent's pages at the instant it returns. */
  function SpecNext(a: Spec, l: Label): Spec {
    match l
    case Spawn(p) => a.(views := a.views[p := map[]])
    case MapFresh(p, v, f, page, w) => SetView(a, p, v, Own(page))
    case CacheFill(f, page) => a.(files := a.files[f := page])
    case FileMap(p, v, f) => SetView(a, p, v, File(f))
    case SharedFault(p, v, f, w) => SetView(a, p, v, File(f))
    case Write(p, v, off, byte) =>
      (match ViewAt(a, p, v)
       case Own(page) => SetView(a, p, v, Own(WriteByte(page, off, byte)))
       case File(f) => a.(files := a.files[f := WriteByte(FilePage(a, f), off, byte)]))
    case CowFault(p, v, copy) =>
      (match ViewAt(a, p, v)
       case Own(page) => a
       case File(f) => SetView(a, p, v, Own(FilePage(a, f))))
    case UnmapClear(p, v) => if p in a.views then a.(views := a.views[p := a.views[p] - {v}]) else a
    case ForkEnd(p, c) => if p in a.views then a.(views := a.views[c := a.views[p]]) else a
    case ExitBegin(p) => a.(views := a.views - {p})
    case _ => a
  }

  predicate Visible(s: State, p: Pid) {
    p in s.procs && !s.procs[p].pc.Embryo? && !s.procs[p].pc.Dying?
  }

  function PageOf(s: State, f: Frame): Page {
    if f in s.mem then s.mem[f] else []
  }

  function ViewOf(s: State, e: Pte): View {
    if e.frame in s.cached then File(e.frame) else Own(PageOf(s, e.frame))
  }

  function TableView(s: State, pt: map<Vpn, Pte>): map<Vpn, View> {
    map v | v in pt :: ViewOf(s, pt[v])
  }

  lemma TableViewIs(s: State, pt: map<Vpn, Pte>, view: map<Vpn, View>)
    requires view.Keys == pt.Keys
    requires forall v :: v in pt ==> ViewOf(s, pt[v]) == view[v]
    ensures TableView(s, pt) == view
  {
    var t := TableView(s, pt);
    forall v ensures v in t <==> v in view {
      assert v in view <==> v in view.Keys;
      assert v in pt <==> v in pt.Keys;
    }
    forall v | v in t ensures t[v] == view[v] {
      assert ViewOf(s, pt[v]) == view[v];
    }
    assert t.Keys == view.Keys;
  }

  /** The bytes that each process sees. */
  function Abs(s: State): Spec {
    Spec(map p | p in s.procs && Visible(s, p) :: TableView(s, s.procs[p].pt),
         map f | f in s.cached :: PageOf(s, f))
  }

  lemma ViewsAre(s: State, views: map<Pid, map<Vpn, View>>)
    requires forall q :: q in views <==> Visible(s, q)
    requires forall q :: Visible(s, q) ==> TableView(s, s.procs[q].pt) == views[q]
    ensures Abs(s).views == views
  {
    var a := Abs(s).views;
    forall q ensures q in a <==> q in views { }
    forall q | q in a ensures a[q] == views[q] { assert Visible(s, q); }
  }

  /** Page tables and the page cache hold only frames in use. */
  ghost predicate InUse(s: State) {
    (forall p, v :: EntryUsed(s, p, v)) && forall f :: f in s.cached ==> f in s.mem
  }

  predicate EntryUsed(s: State, p: Pid, v: Vpn) {
    HasPage(s, p, v) ==> s.procs[p].pt[v].frame in s.mem
  }

  lemma EntryInUse(s: State, p: Pid, v: Vpn)
    requires Inv(s) && HasPage(s, p, v)
    ensures s.procs[p].pt[v].frame in s.mem
  {
    assert EntryInv(s, p, v);
    var f := s.procs[p].pt[v].frame;
    ClaimedFrame(s, if s.procs[p].pt[v].shared then PageCache else Entry(p, v), f);
  }

  lemma InvInUse(s: State)
    requires Inv(s)
    ensures InUse(s)
  {
    forall p, v ensures EntryUsed(s, p, v) { if HasPage(s, p, v) { EntryInUse(s, p, v); } }
    forall f | f in s.cached ensures f in s.mem { ClaimedFrame(s, PageCache, f); }
  }

  /** Frames in use before and after keep their contents and their place in the cache. */
  ghost predicate ContentsKept(s: State, s': State) {
    && (forall f :: f in s.mem && f in s'.mem ==> s'.mem[f] == s.mem[f])
    && (forall f :: f in s.mem ==> (f in s'.cached <==> f in s.cached))
  }

  lemma TableViewKept(s: State, s': State, p: Pid)
    requires InUse(s) && InUse(s') && ContentsKept(s, s')
    requires p in s.procs && p in s'.procs && s'.procs[p].pt == s.procs[p].pt
    ensures TableView(s', s'.procs[p].pt) == TableView(s, s.procs[p].pt)
  {
    forall v | v in s.procs[p].pt
      ensures ViewOf(s', s'.procs[p].pt[v]) == ViewOf(s, s.procs[p].pt[v])
    {
      assert EntryUsed(s, p, v) && EntryUsed(s', p, v);
    }
  }

  lemma OtherViewsKept(s: State, s': State, p: Pid)
    requires InUse(s) && InUse(s') && ContentsKept(s, s') && OnlyChanges(s, s', p)
    ensures forall q :: q != p && Visible(s, q) ==>
              Visible(s', q) && TableView(s', s'.procs[q].pt) == TableView(s, s.procs[q].pt)
  {
    forall q | q != p && Visible(s, q)
      ensures TableView(s', s'.procs[q].pt) == TableView(s, s.procs[q].pt)
    {
      TableViewKept(s, s', q);
    }
  }

  lemma FilesKept(s: State, s': State)
    requires InUse(s) && InUse(s') && ContentsKept(s, s') && s'.cached == s.cached
    ensures Abs(s').files == Abs(s).files
  {
    forall f | f in s.cached ensures PageOf(s', f) == PageOf(s, f) { }
  }

  /** Steps that change no byte of any process. */
  lemma SilentStep(s: State, s': State, p: Pid)
    requires InUse(s) && InUse(s') && ContentsKept(s, s') && OnlyChanges(s, s', p) && s'.cached == s.cached
    requires Visible(s', p) <==> Visible(s, p)
    requires Visible(s, p) ==> TableView(s', s'.procs[p].pt) == TableView(s, s.procs[p].pt)
    ensures Abs(s') == Abs(s)
  {
    OtherViewsKept(s, s', p);
    FilesKept(s, s');
    ViewsAre(s', Abs(s).views);
  }

  /** Steps that change the pages of `p` only. */
  lemma LocalStep(s: State, s': State, p: Pid, view: map<Vpn, View>)
    requires InUse(s) && InUse(s') && ContentsKept(s, s') && OnlyChanges(s, s', p) && s'.cached == s.cached
    requires Visible(s', p) && TableView(s', s'.procs[p].pt) == view
    ensures Abs(s') == Abs(s).(views := Abs(s).views[p := view])
  {
    OtherViewsKept(s, s', p);
    FilesKept(s, s');
    ViewsAre(s', Abs(s).views[p := view]);
  }

  /** The frame of the entry is in no other entry and not in the page cache. */
  ghost predicate Alone(s: State, p: Pid, v: Vpn) {
    && HasPage(s, p, v) && s.procs[p].pt[v].frame !in s.cached
    && forall q, u :: HasPage(s, q, u) && (q != p || u != v) ==> s.procs[q].pt[u].frame != s.procs[p].pt[v].frame
  }

  /** A frame that is privately writable is mapped nowhere else. */
  lemma WritableIsAlone(s: State, p: Pid, v: Vpn)
    requires Inv(s) && HasPage(s, p, v) && s.procs[p].pt[v].writable && !s.procs[p].pt[v].shared
    ensures Alone(s, p, v)
  {
    var f := s.procs[p].pt[v].frame;
    assert EntryInv(s, p, v);
    assert PageCache !in Claims(s, f);
    forall q, u | HasPage(s, q, u) && (q != p || u != v) ensures s.procs[q].pt[u].frame != f {
      assert EntryInv(s, q, u);
      assert Entry(q, u) !in Claims(s, f);
    }
  }

  lemma PrivateWriteRefines(s: State, p: Pid, v: Vpn, off: nat, byte: bv8)
    requires CanWrite(s, p, v, off) && Alone(s, p, v)
    ensures Abs(DoWrite(s, p, v, off, byte)) == SpecNext(Abs(s), Write(p, v, off, byte))
  {
    var s', f := DoWrite(s, p, v, off, byte), s.procs[p].pt[v].frame;
    var view := TableView(s, s.procs[p].pt)[v := Own(WriteByte(s.mem[f], off, byte))];
    forall u | u in s.procs[p].pt && u != v ensures ViewOf(s', s.procs[p].pt[u]) == view[u] {
      assert HasPage(s, p, u);
    }
    assert TableView(s', s'.procs[p].pt) == view;
    forall q | q != p && Visible(s, q)
      ensures TableView(s', s'.procs[q].pt) == TableView(s, s.procs[q].pt)
    {
      forall u | u in s.procs[q].pt ensures ViewOf(s', s.procs[q].pt[u]) == ViewOf(s, s.procs[q].pt[u]) {
        assert HasPage(s, q, u);
      }
    }
    ViewsAre(s', Abs(s).views[p := view]);
    assert Abs(s').files == Abs(s).files;
  }

  lemma SharedWriteRefines(s: State, p: Pid, v: Vpn, off: nat, byte: bv8)
    requires Inv(s) && CanWrite(s, p, v, off) && s.procs[p].pt[v].shared
    ensures Abs(DoWrite(s, p, v, off, byte)) == SpecNext(Abs(s), Write(p, v, off, byte))
  {
    var s', f := DoWrite(s, p, v, off, byte), s.procs[p].pt[v].frame;
    assert EntryInv(s, p, v);
    forall q | Visible(s, q)
      ensures TableView(s', s'.procs[q].pt) == TableView(s, s.procs[q].pt)
    {
      forall u | u in s.procs[q].pt ensures ViewOf(s', s.procs[q].pt[u]) == ViewOf(s, s.procs[q].pt[u]) { }
    }
    ViewsAre(s', Abs(s).views);
    assert Abs(s').files == Abs(s).files[f := WriteByte(s.mem[f], off, byte)];
  }

  lemma ReuseRefines(s: State, p: Pid, v: Vpn, copy: Frame)
    requires Inv(s) && CanCowFault(s, p, v, copy) && Sole(s.table, s.procs[p].pt[v].frame)
    ensures Abs(DoCowFault(s, p, v, copy)) == SpecNext(Abs(s), CowFault(p, v, copy))
  {
    var s', f := DoCowFault(s, p, v, copy), s.procs[p].pt[v].frame;
    ReuseKeepsInv(s, p, v, copy);
    assert EntryInv(s, p, v);
    TableViewIs(s', s'.procs[p].pt, TableView(s, s.procs[p].pt));
    SoleClaim(s, Entry(p, v), f);
    assert PageCache !in Claims(s, f);
    InvInUse(s);
    InvInUse(s');
    SilentStep(s, s', p);
  }

  lemma CopyAwayRefines(s: State, p: Pid, v: Vpn, copy: Frame)
    requires InUse(s) && CanCowFault(s, p, v, copy) && !Sole(s.table, s.procs[p].pt[v].frame)
    ensures InUse(DoCowFault(s, p, v, copy)) && Alone(DoCowFault(s, p, v, copy), p, v)
    ensures Abs(DoCowFault(s, p, v, copy)) == SpecNext(Abs(s), CowFault(p, v, copy))
  {
    var s', f := DoCowFault(s, p, v, copy), s.procs[p].pt[v].frame;
    forall q, u ensures EntryUsed(s', q, u) { assert EntryUsed(s, q, u); }
    forall q, u | HasPage(s', q, u) && (q != p || u != v) ensures s'.procs[q].pt[u].frame != copy {
      assert EntryUsed(s, q, u);
    }
    CopiedView(s, p, v, copy);
    var view := TableView(s, s.procs[p].pt)[v := Own(s.mem[f])];
    LocalStep(s, s', p, view);
    assert ViewAt(Abs(s), p, v) == ViewOf(s, s.procs[p].pt[v]);
    if f !in s.cached {
      TableViewIs(s, s.procs[p].pt, view);
      assert Abs(s').views == Abs(s).views;
    }
  }

  lemma CopiedView(s: State, p: Pid, v: Vpn, copy: Frame)
    requires InUse(s) && CanCowFault(s, p, v, copy) && !Sole(s.table, s.procs[p].pt[v].frame)
    ensures var s', f := DoCowFault(s, p, v, copy), s.procs[p].pt[v].frame;
      TableView(s', s'.procs[p].pt) == TableView(s, s.procs[p].pt)[v := Own(s.mem[f])]
  {
    var s', f := DoCowFault(s, p, v, copy), s.procs[p].pt[v].frame;
    forall u | u in s.procs[p].pt ensures s.procs[p].pt[u].frame in s.mem { assert EntryUsed(s, p, u); }
    TableViewIs(s', s'.procs[p].pt, TableView(s, s.procs[p].pt)[v := Own(s.mem[f])]);
  }

  /** Mapping a page into a running process. */
  lemma MapRefines(s: State, l: Label)
    requires Inv(s) && Enabled(s, l) && (l.MapFresh? || l.FileMap? || l.SharedFault?)
    ensures Abs(Next(s, l)) == SpecNext(Abs(s), l)
  {
    var s' := Next(s, l);
    StepKeepsInv(s, l);
    assert PcInv(s, l.p);
    if l.MapFresh? {
      assert Counted(s, l.f);
      assert PageCache !in Claims(s, l.f);
    }
    forall u | u in s.procs[l.p].pt ensures s.procs[l.p].pt[u].frame in s.mem { EntryInUse(s, l.p, u); }
    var view := TableView(s, s.procs[l.p].pt)[l.v := if l.MapFresh? then Own(l.page) else File(l.f)];
    TableViewIs(s', s'.procs[l.p].pt, view);
    InvInUse(s);
    InvInUse(s');
    LocalStep(s, s', l.p, view);
  }

  lemma UnmapClearRefines(s: State, p: Pid, v: Vpn)
    requires Inv(s) && CanUnmapClear(s, p, v)
    ensures Abs(DoUnmapClear(s, p, v)) == SpecNext(Abs(s), UnmapClear(p, v))
  {
    var s' := DoUnmapClear(s, p, v);
    StepKeepsInv(s, UnmapClear(p, v));
    var view := TableView(s, s.procs[p].pt) - {v};
    TableViewIs(s', s'.procs[p].pt, view);
    InvInUse(s);
    InvInUse(s');
    LocalStep(s, s', p, view);
  }

  lemma ForkEndRefines(s: State, p: Pid, c: Pid)
    requires Inv(s) && CanForkEnd(s, p, c)
    ensures Abs(DoForkEnd(s, p, c)) == SpecNext(Abs(s), ForkEnd(p, c))
  {
    var s' := DoForkEnd(s, p, c);
    StepKeepsInv(s, ForkEnd(p, c));
    InvInUse(s);
    InvInUse(s');
    ForkDone(s, p, c);
    forall q | q in s.procs ensures TableView(s', s'.procs[q].pt) == TableView(s, s.procs[q].pt) {
      TableViewKept(s, s', q);
    }
    FilesKept(s, s');
    ViewsAre(s', Abs(s).views[c := Abs(s).views[p]]);
  }

  /** Steps that write only the tables of processes that cannot be seen. */
  lemma HiddenStep(s: State, s': State)
    requires InUse(s) && InUse(s') && ContentsKept(s, s') && s'.cached == s.cached
    requires forall q :: Visible(s', q) <==> Visible(s, q)
    requires forall q :: Visible(s, q) && Visible(s', q) ==> s'.procs[q].pt == s.procs[q].pt
    ensures Abs(s') == Abs(s)
  {
    forall q | Visible(s, q) ensures TableView(s', s'.procs[q].pt) == TableView(s, s.procs[q].pt) {
      TableViewKept(s, s', q);
    }
    FilesKept(s, s');
    ViewsAre(s', Abs(s).views);
  }

  /** Fork before it returns changes no page that a process can see. */
  lemma ForkingIsSilent(s: State, l: Label)
    requires Inv(s) && Enabled(s, l) && (l.ForkBegin? || l.ForkMap? || l.ForkCopyShared?)
    ensures Abs(Next(s, l)) == SpecNext(Abs(s), l)
  {
    StepKeepsInv(s, l);
    assert PcInv(s, l.p);
    InvInUse(s);
    InvInUse(Next(s, l));
    HiddenStep(s, Next(s, l));
  }

  /** Steps of the bookkeeping that no process can see. */
  lemma BookkeepingIsSilent(s: State, l: Label)
    requires Inv(s) && Enabled(s, l) && Safe(s, l)
    requires l.FileShare? || l.UnmapRelease? || l.ForkMark? || l.ForkShare? || l.TearPage? || l.Reap?
    ensures Abs(Next(s, l)) == SpecNext(Abs(s), l)
  {
    var s' := Next(s, l);
    StepKeepsInv(s, l);
    InvInUse(s);
    InvInUse(s');
    if Visible(s, l.p) {
      if l.ForkMark? {
        TableViewIs(s', s'.procs[l.p].pt, TableView(s, s.procs[l.p].pt));
      } else {
        TableViewKept(s, s', l.p);
      }
    }
    SilentStep(s, s', l.p);
  }

  lemma SpawnRefines(s: State, p: Pid)
    requires Inv(s) && CanSpawn(s, p)
    ensures Abs(DoSpawn(s, p)) == SpecNext(Abs(s), Spawn(p))
  {
    var s' := DoSpawn(s, p);
    SpawnKeepsInv(s, p);
    InvInUse(s);
    InvInUse(s');
    OtherViewsKept(s, s', p);
    FilesKept(s, s');
    ViewsAre(s', Abs(s).views[p := map[]]);
  }

  lemma ExitBeginRefines(s: State, p: Pid)
    requires Inv(s) && CanExitBegin(s, p)
    ensures Abs(DoExitBegin(s, p)) == SpecNext(Abs(s), ExitBegin(p))
  {
    var s' := DoExitBegin(s, p);
    ExitBeginKeepsInv(s, p);
    InvInUse(s);
    InvInUse(s');
    OtherViewsKept(s, s', p);
    FilesKept(s, s');
    ViewsAre(s', Abs(s).views - {p});
  }

  lemma CacheFillRefines(s: State, f: Frame, page: Page)
    requires Inv(s) && CanCacheFill(s, f, page)
    ensures Abs(DoCacheFill(s, f, page)) == SpecNext(Abs(s), CacheFill(f, page))
  {
    var s' := DoCacheFill(s, f, page);
    CacheFillKeepsInv(s, f, page);
    InvInUse(s);
    InvInUse(s');
    forall q | q in s.procs ensures TableView(s', s'.procs[q].pt) == TableView(s, s.procs[q].pt) {
      TableViewKept(s, s', q);
    }
    forall g | g in s.cached ensures g in s.mem { ClaimedFrame(s, PageCache, g); }
    ViewsAre(s', Abs(s).views);
    assert Abs(s').files == Abs(s).files[f := page];
  }

  /** Each step changes the bytes that processes see exactly as the eager machine does. */
  lemma StepRefines(s: State, l: Label)
    requires Inv(s) && Enabled(s, l) && Safe(s, l)
    ensures Abs(Next(s, l)) == SpecNext(Abs(s), l)
  {
    match l
    case Write(p, v, off, byte) =>
      if s.procs[p].pt[v].shared {
        SharedWriteRefines(s, p, v, off, byte);
      } else {
        WritableIsAlone(s, p, v);
        PrivateWriteRefines(s, p, v, off, byte);
      }
    case CowFault(p, v, copy) =>
      if Sole(s.table, s.procs[p].pt[v].frame) {
        ReuseRefines(s, p, v, copy);
      } else {
        InvInUse(s);
        CopyAwayRefines(s, p, v, copy);
      }
    case MapFresh(_, _, _, _, _) => MapRefines(s, l);
    case FileMap(_, _, _) => MapRefines(s, l);
    case SharedFault(_, _, _, _) => MapRefines(s, l);
    case UnmapClear(p, v) => UnmapClearRefines(s, p, v);
    case ForkEnd(p, c) => ForkEndRefines(s, p, c);
    case ForkBegin(_, _) => ForkingIsSilent(s, l);
    case ForkMap(_) => ForkingIsSilent(s, l);
    case ForkCopyShared(_, _) => ForkingIsSilent(s, l);
    case Spawn(p) => SpawnRefines(s, p);
    case ExitBegin(p) => ExitBeginRefines(s, p);
    case CacheFill(f, page) => CacheFillRefines(s, f, page);
    case _ => BookkeepingIsSilent(s, l);
  }

  // Whole runs

  const INIT: State := State(map[], map[], {}, map[])

  /** `states` is a run that takes the steps `labels` from the empty system. */
  ghost predicate IsRun(states: seq<State>, labels: seq<Label>) {
    && |states| == |labels| + 1
    && states[0] == INIT
    && forall i :: 0 <= i < |labels| ==> IsStep(states[i], labels[i], states[i + 1])
  }

  ghost predicate IsStep(s: State, l: Label, s': State) {
    Enabled(s, l) && s' == Next(s, l)
  }

  /** The eager machine after the same steps. */
  function SpecAfter(labels: seq<Label>): Spec {
    if labels == [] then Spec(map[], map[])
    else SpecNext(SpecAfter(labels[..|labels| - 1]), labels[|labels| - 1])
  }

  /** The first `n` steps have what the code relies on. */
  ghost predicate AllSafe(states: seq<State>, labels: seq<Label>, n: nat)
    requires n <= |labels| < |states|
  {
    forall i :: 0 <= i < n ==> Safe(states[i], labels[i])
  }

  lemma {:induction false} RunKeepsInv(states: seq<State>, labels: seq<Label>, i: nat)
    requires IsRun(states, labels) && i < |states| && AllSafe(states, labels, i)
    ensures Inv(states[i])
  {
    if i > 0 {
      RunKeepsInv(states, labels, i - 1);
      assert IsStep(states[i - 1], labels[i - 1], states[i]);
      StepKeepsInv(states[i - 1], labels[i - 1]);
    } else {
      forall f ensures Claims(INIT, f) == {} { }
    }
  }

  /** As long as the steps are safe, each process sees the bytes it would see if fork had copied every page. */
  lemma {:induction false} ForkIsEagerCopy(states: seq<State>, labels: seq<Label>, i: nat)
    requires IsRun(states, labels) && i < |states| && AllSafe(states, labels, i)
    ensures Abs(states[i]) == SpecAfter(labels[..i])
  {
    if i > 0 {
      ForkIsEagerCopy(states, labels, i - 1);
      RunKeepsInv(states, labels, i - 1);
      assert IsStep(states[i - 1], labels[i - 1], states[i]);
      StepRefines(states[i - 1], labels[i - 1]);
      assert labels[..i][..i - 1] == labels[..i - 1];
    }
  }

  ghost predicate AllCounted(s: State) {
    forall f :: Counted(s, f)
  }

  /**
   In every state of a run up to step `n`, the share count of each frame in use is the number of its
   claims and a frame not in use has none, if and only if every `cow_share` call found room and no
   teardown met a MAP_SHARED page.
   */
  lemma ClaimsAreCountedIff(states: seq<State>, labels: seq<Label>, n: nat)
    requires IsRun(states, labels) && n < |states|
    ensures (forall i :: 0 <= i <= n ==> AllCounted(states[i])) <==> AllSafe(states, labels, n)
  {
    if AllSafe(states, labels, n) {
      forall i | 0 <= i <= n ensures AllCounted(states[i]) { RunKeepsInv(states, labels, i); }
    } else {
      var i := FirstUnsafe(states, labels, n);
      RunKeepsInv(states, labels, i);
      assert IsStep(states[i], labels[i], states[i + 1]);
      assert AllCounted(states[i + 1]) ==> Counted(states[i + 1], AtStake(states[i], labels[i]));
      match labels[i]
      case FileShare(p, v, f) => FileShareKeepsInv(states[i], p, v, f);
      case ForkShare(p) => ForkShareKeepsInv(states[i], p);
      case TearPage(p, v) => TearPageKeepsInv(states[i], p, v);
      case _ =>
    }
  }

  /** The frame whose count a step puts at stake. */
  function AtStake(s: State, l: Label): Frame {
    match l
    case FileShare(_, _, f) => f
    case ForkShare(p) => if IsMarked(s, p) then MarkedFrame(s, p) else 0
    case TearPage(p, v) => if HasPage(s, p, v) then s.procs[p].pt[v].frame else 0
    case _ => 0
  }

  lemma {:induction false} FirstUnsafe(states: seq<State>, labels: seq<Label>, n: nat) returns (i: nat)
    requires n <= |labels| < |states| && !AllSafe(states, labels, n)
    ensures i < n && AllSafe(states, labels, i) && !Safe(states[i], labels[i])
  {
    if AllSafe(states, labels, n - 1) { i := n - 1; } else { i := FirstUnsafe(states, labels, n - 1); }
  }

  /** As long as the steps are safe, a writable private entry is the only claim on a frame outside the page cache. */
  lemma WritableIsSole(states: seq<State>, labels: seq<Label>, i: nat, p: Pid, v: Vpn)
    requires IsRun(states, labels) && i < |states| && AllSafe(states, labels, i)
    requires HasPage(states[i], p, v) && states[i].procs[p].pt[v].writable && !states[i].procs[p].pt[v].shared
    ensures Claims(states[i], states[i].procs[p].pt[v].frame) == {Entry(p, v)}
    ensures states[i].procs[p].pt[v].frame !in states[i].cached
  {
    RunKeepsInv(states, labels, i);
    assert EntryInv(states[i], p, v);
    assert PageCache !in Claims(states[i], states[i].procs[p].pt[v].frame);
  }

  /** The frame that a step passes to `free_frame`. */
  function Frees(s: State, l: Label): Option<Frame> {
    match l
    case UnmapRelease(p) =>
      if CanUnmapRelease(s, p) && !(s.procs[p].pc.cow && !Sole(s.table, s.procs[p].pc.frame))
      then Some(s.procs[p].pc.frame) else None
    case TearPage(p, v) =>
      if HasPage(s, p, v) && !(s.procs[p].pt[v].cow && !Sole(s.table, s.procs[p].pt[v].frame))
      then Some(s.procs[p].pt[v].frame) else None
    case _ => None
  }

  /** The frame that a step takes from the allocator. */
  function Takes(s: State, l: Label): Option<Frame> {
    match l
    case MapFresh(p, v, f, page, w) => Some(f)
    case CacheFill(f, page) => Some(f)
    case CowFault(p, v, copy) =>
      if HasPage(s, p, v) && !Sole(s.table, s.procs[p].pt[v].frame) then Some(copy) else None
    case _ => None
  }

  function AsSet<T>(x: Option<T>): set<T> {
    if x.Some? then {x.value} else {}
  }

  /** A freed frame was in use and outside the page cache, and its one claim is given up. */
  ghost predicate FreedSafely(s: State, s': State, f: Frame) {
    f in s.mem && f !in s.cached && |Claims(s, f)| == 1 && Claims(s', f) == {}
  }

  lemma OnlyClaimFreed(s: State, s': State, f: Frame, x: Claim)
    requires Inv(s) && Inv(s') && Claims(s, f) == {x} && !x.PageCache? && f !in s'.mem
    ensures FreedSafely(s, s', f)
  {
    assert PageCache !in Claims(s, f);
    assert x in Claims(s, f);
    assert Counted(s, f) && Counted(s', f);
  }

  lemma UnmapFreesSafely(s: State, p: Pid, f: Frame)
    requires Inv(s) && CanUnmapRelease(s, p) && Frees(s, UnmapRelease(p)) == Some(f)
    ensures FreedSafely(s, DoUnmapRelease(s, p), f)
  {
    UnmapReleaseKeepsInv(s, p);
    assert PcInv(s, p);
    if Sole(s.table, f) { SoleClaim(s, InFlight(p), f); }
    OnlyClaimFreed(s, DoUnmapRelease(s, p), f, InFlight(p));
  }

  lemma TearFreesSafely(s: State, p: Pid, v: Vpn, f: Frame)
    requires Inv(s) && CanTearPage(s, p, v) && Frees(s, TearPage(p, v)) == Some(f)
    ensures f in s.mem && (FreedSafely(s, DoTearPage(s, p, v), f) <==> !s.procs[p].pt[v].shared)
  {
    assert PcInv(s, p) && EntryInv(s, p, v);
    EntryInUse(s, p, v);
    if !s.procs[p].pt[v].shared {
      TearPageKeepsInv(s, p, v);
      if Sole(s.table, f) { SoleClaim(s, Entry(p, v), f); }
      OnlyClaimFreed(s, DoTearPage(s, p, v), f, Entry(p, v));
    }
  }

  /** Which frames are in use changes only by what a step takes and frees. */
  lemma FramesInUse(s: State, l: Label)
    requires Enabled(s, l)
    ensures Next(s, l).mem.Keys == s.mem.Keys + AsSet(Takes(s, l)) - AsSet(Frees(s, l))
  {
  }

  /**
   A frame that a safe step frees was in use, was not held by the page cache and had one claim, which
   the step gave up; no step changes which frames are in use in any other way.
   */
  lemma FreeIsSafe(s: State, l: Label)
    requires Inv(s) && Enabled(s, l)
    ensures Frees(s, l).Some? ==> Frees(s, l).value in s.mem
    ensures Frees(s, l).Some? ==> (FreedSafely(s, Next(s, l), Frees(s, l).value) <==> Safe(s, l))
    ensures Takes(s, l).Some? ==> Takes(s, l).value !in s.mem
    ensures Next(s, l).mem.Keys == s.mem.Keys + AsSet(Takes(s, l)) - AsSet(Frees(s, l))
  {
    FramesInUse(s, l);
    if Frees(s, l).Some? {
      if l.UnmapRelease? {
        UnmapFreesSafely(s, l.p, Frees(s, l).value);
      } else {
        TearFreesSafely(s, l.p, l.v, Frees(s, l).value);
      }
    }
  }

  /** Between two frees of a frame it is allocated again. */
  lemma FreedOnce(states: seq<State>, labels: seq<Label>, i: nat, j: nat, f: Frame)
    requires IsRun(states, labels) && i < j < |labels| && AllSafe(states, labels, j)
    requires Frees(states[i], labels[i]) == Some(f) && Frees(states[j], labels[j]) == Some(f)
    ensures exists k :: i < k < j && Takes(states[k], labels[k]) == Some(f)
  {
    RunKeepsInv(states, labels, i);
    assert IsStep(states[i], labels[i], states[i + 1]);
    FreeIsSafe(states[i], labels[i]);
    RunKeepsInv(states, labels, j);
    assert IsStep(states[j], labels[j], states[j + 1]);
    FreeIsSafe(states[j], labels[j]);
    var k := TakenBetween(states, labels, i + 1, j, f);
  }

  lemma {:induction false} TakenBetween(states: seq<State>, labels: seq<Label>, i: nat, j: nat, f: Frame)
    returns (k: nat)
    requires IsRun(states, labels) && i <= j < |states| && AllSafe(states, labels, j)
    requires f !in states[i].mem && f in states[j].mem
    ensures i <= k < j && Takes(states[k], labels[k]) == Some(f)
    decreases j - i
  {
    RunKeepsInv(states, labels, i);
    assert IsStep(states[i], labels[i], states[i + 1]);
    FreeIsSafe(states[i], labels[i]);
    if Takes(states[i], labels[i]) == Some(f) {
      k := i;
    } else {
      k := TakenBetween(states, labels, i + 1, j, f);
    }
  }

  // What the code needs of its environment

  /**
   Tearing down a leaf changes what processes and files hold, where the eager machine changes
   nothing, if and only if the leaf belongs to a MAP_SHARED mapping: the page of the file is gone.
   */
  lemma TeardownNeedsPrivatePages(s: State, p: Pid, v: Vpn)
    requires Inv(s) && CanTearPage(s, p, v)
    ensures Abs(DoTearPage(s, p, v)) == SpecNext(Abs(s), TearPage(p, v)) <==> !s.procs[p].pt[v].shared
    ensures s.procs[p].pt[v].shared ==>
      var f := s.procs[p].pt[v].frame; f in s.cached && f in s.mem && f !in DoTearPage(s, p, v).mem
  {
    var s', f := DoTearPage(s, p, v), s.procs[p].pt[v].frame;
    assert EntryInv(s, p, v);
    EntryInUse(s, p, v);
    if s.procs[p].pt[v].shared {
      assert WholePage(s, f);
      assert f in Abs(s).files && f in Abs(s').files;
      assert |Abs(s).files[f]| == PAGE_SIZE && Abs(s').files[f] == [];
    } else {
      BookkeepingIsSilent(s, TearPage(p, v));
    }
  }
}
