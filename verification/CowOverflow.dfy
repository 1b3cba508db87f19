/**
 What happens when the code does not get what it relies on. A full bucket of the share table: the
 claim is dropped, the frame counts as unshared, and the next write fault makes it writable in place.
 An exit with a MAP_SHARED page: the page cache loses the frame.
 */
module CowOverflow {
  import opened Bits
  import opened Common
  import opened CowSpec
  import opened CowMachine
  import opened CowRefinement

  // Reachable states, with the state of the eager machine after the same steps

  /** Some run leads to `s` and takes the eager machine to `a`; all its steps are safe, if `safe` says so. */
  ghost predicate Reach(s: State, a: Spec, safe: bool) {
    exists states, labels ::
      && IsRun(states, labels) && states[|labels|] == s && SpecAfter(labels) == a
      && (safe ==> AllSafe(states, labels, |labels|))
  }

  lemma ReachStart()
    ensures Reach(INIT, Spec(map[], map[]), true)
  {
    var none: seq<Label> := [];
    assert IsRun([INIT], none) && [INIT][|none|] == INIT && SpecAfter(none) == Spec(map[], map[]);
  }

  lemma ReachNext(s: State, a: Spec, safe: bool, l: Label)
    requires Reach(s, a, safe) && Enabled(s, l)
    ensures Reach(Next(s, l), SpecNext(a, l), safe && Safe(s, l))
  {
    var states, labels :| IsRun(states, labels) && states[|labels|] == s && SpecAfter(labels) == a
                          && (safe ==> AllSafe(states, labels, |labels|));
    var states', labels' := states + [Next(s, l)], labels + [l];
    assert labels'[..|labels|] == labels;
    forall i | 0 <= i < |labels'| ensures IsStep(states'[i], labels'[i], states'[i + 1]) {
      if i < |labels| { assert IsStep(states[i], labels[i], states[i + 1]); }
    }
    assert IsRun(states', labels') && states'[|labels'|] == Next(s, l) && SpecAfter(labels') == SpecNext(a, l);
  }

  lemma SafeIsEager(s: State, a: Spec)
    requires Reach(s, a, true)
    ensures Inv(s) && Abs(s) == a
  {
    var states, labels :| IsRun(states, labels) && states[|labels|] == s && SpecAfter(labels) == a
                          && AllSafe(states, labels, |labels|);
    RunKeepsInv(states, labels, |labels|);
    ForkIsEagerCopy(states, labels, |labels|);
    assert labels[..|labels|] == labels;
  }

  // A dropped claim shows

  /** A store of `byte` changes the page of `f`. */
  predicate Changes(s: State, f: Frame, off: nat, byte: bv8) {
    f in s.mem && |s.mem[f]| == PAGE_SIZE && off < PAGE_SIZE && s.mem[f][off] != byte
  }

  /** A store to a page that is still CoW: the write fault, then the store. */
  function Store(s: State, p: Pid, v: Vpn, copy: Frame, off: nat, byte: bv8): State
    requires CanCowFault(s, p, v, copy) && CanWrite(DoCowFault(s, p, v, copy), p, v, off)
  {
    DoWrite(DoCowFault(s, p, v, copy), p, v, off, byte)
  }

  function EagerStore(a: Spec, p: Pid, v: Vpn, copy: Frame, off: nat, byte: bv8): Spec {
    SpecNext(SpecNext(a, CowFault(p, v, copy)), Write(p, v, off, byte))
  }

  lemma CanStore(s: State, p: Pid, v: Vpn, copy: Frame, off: nat)
    requires CanCowFault(s, p, v, copy) && |s.mem[s.procs[p].pt[v].frame]| == PAGE_SIZE && off < PAGE_SIZE
    ensures CanWrite(DoCowFault(s, p, v, copy), p, v, off)
  {
  }

  lemma ReachStore(s: State, a: Spec, safe: bool, p: Pid, v: Vpn, copy: Frame, off: nat, byte: bv8)
    requires Reach(s, a, safe) && CanCowFault(s, p, v, copy) && CanWrite(DoCowFault(s, p, v, copy), p, v, off)
    ensures Reach(Store(s, p, v, copy, off, byte), EagerStore(a, p, v, copy, off, byte), safe)
  {
    ReachNext(s, a, safe, CowFault(p, v, copy));
    ReachNext(DoCowFault(s, p, v, copy), SpecNext(a, CowFault(p, v, copy)), safe, Write(p, v, off, byte));
  }

  /** A private file fault: the share and the read-only entry. */
  ghost function Fault(s: State, p: Pid, v: Vpn, f: Frame): State
    requires p in s.procs
  {
    DoFileMap(DoFileShare(s, p, v, f), p, v, f)
  }

  lemma ReachFault(s: State, a: Spec, p: Pid, v: Vpn, f: Frame)
    requires Reach(s, a, true) && CanFileShare(s, p, v, f)
    ensures Reach(Fault(s, p, v, f), SpecNext(a, FileMap(p, v, f)), CanShare(s.table, f))
  {
    ReachNext(s, a, true, FileShare(p, v, f));
    ReachNext(DoFileShare(s, p, v, f), a, CanShare(s.table, f), FileMap(p, v, f));
  }

  /** The table has an entry for the frame after a share, if it had one before or has room. */
  ghost predicate Tracks(t: Table, f: Frame) { f in t || HasRoom(t, f) }

  /** A store to a tracked frame goes to a copy, as on the eager machine. */
  lemma CopiedStoreRefines(s: State, p: Pid, v: Vpn, copy: Frame, off: nat, byte: bv8)
    requires InUse(s) && CanCowFault(s, p, v, copy) && !Sole(s.table, s.procs[p].pt[v].frame)
    requires CanWrite(DoCowFault(s, p, v, copy), p, v, off)
    ensures Abs(Store(s, p, v, copy, off, byte)) == EagerStore(Abs(s), p, v, copy, off, byte)
  {
    CopyAwayRefines(s, p, v, copy);
    PrivateWriteRefines(DoCowFault(s, p, v, copy), p, v, off, byte);
  }

  /** The fault itself is as on the eager machine, whatever the table says. */
  lemma FaultRefines(s: State, p: Pid, v: Vpn, f: Frame)
    requires Inv(s) && CanFileShare(s, p, v, f)
    ensures InUse(Fault(s, p, v, f)) && Abs(Fault(s, p, v, f)) == SpecNext(Abs(s), FileMap(p, v, f))
  {
    var s' := Fault(s, p, v, f);
    InvInUse(s);
    forall q, u ensures EntryUsed(s', q, u) { assert EntryUsed(s, q, u); }
    var view := TableView(s, s.procs[p].pt)[v := File(f)];
    TableViewIs(s', s'.procs[p].pt, view);
    LocalStep(s, s', p, view);
  }

  /**
   After any safe run, a private file fault and a store to the page do what the eager machine does if
   and only if the table tracks the frame or has room for it: otherwise the store goes to the file.
   */
  lemma FileFaultIsPrivateIff(s: State, a: Spec, p: Pid, v: Vpn, f: Frame, copy: Frame, off: nat, byte: bv8)
    returns (s': State, a': Spec)
    requires Reach(s, a, true) && CanFileShare(s, p, v, f) && copy !in s.mem && Changes(s, f, off, byte)
    ensures CanCowFault(Fault(s, p, v, f), p, v, copy)
    ensures CanWrite(DoCowFault(Fault(s, p, v, f), p, v, copy), p, v, off)
    ensures s' == Store(Fault(s, p, v, f), p, v, copy, off, byte)
    ensures a' == EagerStore(SpecNext(a, FileMap(p, v, f)), p, v, copy, off, byte)
    ensures Reach(s', a', CanShare(s.table, f))
    ensures Abs(s') == a' <==> Tracks(s.table, f)
    ensures !Tracks(s.table, f) ==> Abs(s').files != a'.files
  {
    SafeIsEager(s, a);
    ReachFault(s, a, p, v, f);
    var s2, a2 := Fault(s, p, v, f), SpecNext(a, FileMap(p, v, f));
    CanStore(s2, p, v, copy, off);
    ReachStore(s2, a2, CanShare(s.table, f), p, v, copy, off, byte);
    s', a' := Store(s2, p, v, copy, off, byte), EagerStore(a2, p, v, copy, off, byte);
    if Tracks(s.table, f) {
      FaultRefines(s, p, v, f);
      CopiedStoreRefines(s2, p, v, copy, off, byte);
    } else {
      StoreInFileShows(s2, p, v, f, copy, off, byte);
      EagerFileIsApart(a, p, v, f, copy, off, byte);
      assert f in a.files && a.files[f] == s.mem[f];
    }
  }

  /** A store to an untracked cache frame goes to the file. */
  lemma StoreInFileShows(s: State, p: Pid, v: Vpn, f: Frame, copy: Frame, off: nat, byte: bv8)
    requires CanCowFault(s, p, v, copy) && CanWrite(DoCowFault(s, p, v, copy), p, v, off)
    requires s.procs[p].pt[v].frame == f && f !in s.table && f in s.cached && Changes(s, f, off, byte)
    ensures var s' := Store(s, p, v, copy, off, byte); f in Abs(s').files && Abs(s').files[f] == s.mem[f][off := byte]
  {
  }

  /** The eager machine keeps the file. */
  lemma EagerFileIsApart(a: Spec, p: Pid, v: Vpn, f: Frame, copy: Frame, off: nat, byte: bv8)
    requires p in a.views
    ensures EagerStore(SpecNext(a, FileMap(p, v, f)), p, v, copy, off, byte).files == a.files
  {
    var a1 := SpecNext(a, FileMap(p, v, f));
    assert ViewAt(a1, p, v) == File(f);
    assert ViewAt(SpecNext(a1, CowFault(p, v, copy)), p, v).Own?;
  }

  /** The parent `p` of `c` has marked `v`, the last of its pages. */
  predicate AtLastPage(s: State, p: Pid, c: Pid, v: Vpn) {
    HasPage(s, p, v) && s.procs[p].pc == ForkMarked(c, {v}, v) && c in s.procs && c != p
  }

  /** The machine after the share, the child's entry and the return of fork. */
  ghost function Forked(s: State, p: Pid, c: Pid, v: Vpn): State
    requires AtLastPage(s, p, c, v)
  {
    DoForkEnd(DoForkMap(DoForkShare(s, p), p), p, c)
  }

  lemma ForkedIs(s: State, p: Pid, c: Pid, v: Vpn)
    requires AtLastPage(s, p, c, v)
    ensures var s', f := Forked(s, p, c, v), s.procs[p].pt[v].frame;
      && s'.mem == s.mem && s'.cached == s.cached && s'.table == Share(s.table, f)
      && IsRunning(s', p) && s'.procs[p].pt == s.procs[p].pt
      && IsRunning(s', c) && s'.procs[c].pt == s.procs[c].pt[v := Pte(f, false, true, false)]
      && OnlyChangePair(s, s', p, c)
  {
  }

  lemma ReachForked(s: State, a: Spec, p: Pid, c: Pid, v: Vpn)
    requires Reach(s, a, true) && AtLastPage(s, p, c, v)
    ensures Reach(Forked(s, p, c, v), SpecNext(a, ForkEnd(p, c)), CanShare(s.table, s.procs[p].pt[v].frame))
  {
    var safe := CanShare(s.table, s.procs[p].pt[v].frame);
    ReachNext(s, a, true, ForkShare(p));
    ReachNext(DoForkShare(s, p), a, safe, ForkMap(p));
    var s2 := DoForkMap(DoForkShare(s, p), p);
    assert s2.procs[p].pc.todo == {};
    ReachNext(s2, a, safe, ForkEnd(p, c));
  }

  /** The child gets the parent's view. */
  lemma ChildView(s: State, s': State, p: Pid, c: Pid, v: Vpn)
    requires Inv(s) && AtLastPage(s, p, c, v) && s' == Forked(s, p, c, v)
    ensures InUse(s') && TableView(s', s'.procs[c].pt) == TableView(s, s.procs[p].pt)
  {
    InvInUse(s);
    ForkedIs(s, p, c, v);
    assert PcInv(s, p);
    forall q, u ensures EntryUsed(s', q, u) { assert EntryUsed(s, q, u) && EntryUsed(s, p, u); }
    TableViewIs(s', s'.procs[c].pt, TableView(s, s.procs[p].pt));
  }

  /** A step after which `c` is seen too, with the view that `p` has, and nothing else has changed. */
  lemma NewViewRefines(s: State, s': State, p: Pid, c: Pid)
    requires InUse(s) && InUse(s') && s'.mem == s.mem && s'.cached == s.cached && Visible(s, p) && c in s'.procs
    requires forall q :: Visible(s', q) <==> q == c || Visible(s, q)
    requires forall q :: Visible(s, q) && q != c && q in s'.procs ==> s'.procs[q].pt == s.procs[q].pt
    requires TableView(s', s'.procs[c].pt) == TableView(s, s.procs[p].pt)
    ensures Abs(s') == SpecNext(Abs(s), ForkEnd(p, c))
  {
    forall q | Visible(s, q) && q != c ensures TableView(s', s'.procs[q].pt) == TableView(s, s.procs[q].pt) {
      assert Visible(s', q);
      TableViewKept(s, s', q);
    }
    FilesKept(s, s');
    ViewsAre(s', Abs(s).views[c := Abs(s).views[p]]);
  }

  /** The fork itself is as on the eager machine, whatever the table says. */
  lemma ForkedRefines(s: State, p: Pid, c: Pid, v: Vpn)
    requires Inv(s) && AtLastPage(s, p, c, v)
    ensures InUse(Forked(s, p, c, v)) && Abs(Forked(s, p, c, v)) == SpecNext(Abs(s), ForkEnd(p, c))
  {
    var s' := Forked(s, p, c, v);
    InvInUse(s);
    ForkedIs(s, p, c, v);
    ChildView(s, s', p, c, v);
    NewViewRefines(s, s', p, c);
  }

  /**
   After any safe run, the end of a fork and a store of the parent do what the eager machine does if
   and only if the table tracks the frame or has room for it: otherwise the child sees the store.
   */
  lemma ForkIsPrivateIff(s: State, a: Spec, p: Pid, c: Pid, v: Vpn, f: Frame, copy: Frame, off: nat, byte: bv8)
    returns (s': State, a': Spec)
    requires Reach(s, a, true) && AtLastPage(s, p, c, v) && s.procs[p].pt[v].frame == f
    requires copy !in s.mem && Changes(s, f, off, byte)
    ensures CanCowFault(Forked(s, p, c, v), p, v, copy)
    ensures CanWrite(DoCowFault(Forked(s, p, c, v), p, v, copy), p, v, off)
    ensures s' == Store(Forked(s, p, c, v), p, v, copy, off, byte)
    ensures a' == EagerStore(SpecNext(a, ForkEnd(p, c)), p, v, copy, off, byte)
    ensures Reach(s', a', CanShare(s.table, f))
    ensures Abs(s') == a' <==> Tracks(s.table, f)
    ensures !Tracks(s.table, f) ==> ViewAt(Abs(s'), c, v) != ViewAt(a', c, v)
  {
    SafeIsEager(s, a);
    MarkedEntry(s, p, c, v);
    ReachForked(s, a, p, c, v);
    ForkedIs(s, p, c, v);
    var s3, a3 := Forked(s, p, c, v), SpecNext(a, ForkEnd(p, c));
    CanStore(s3, p, v, copy, off);
    ReachStore(s3, a3, CanShare(s.table, f), p, v, copy, off, byte);
    s', a' := Store(s3, p, v, copy, off, byte), EagerStore(a3, p, v, copy, off, byte);
    if Tracks(s.table, f) {
      ForkedRefines(s, p, c, v);
      CopiedStoreRefines(s3, p, v, copy, off, byte);
    } else {
      StoreInPlaceShows(s3, p, c, v, copy, off, byte);
      EagerChildIsApart(a, p, c, v, s.mem[f], copy, off, byte);
    }
  }

  /** The page that fork is about to share, as the parent sees it. */
  lemma MarkedEntry(s: State, p: Pid, c: Pid, v: Vpn)
    requires Inv(s) && AtLastPage(s, p, c, v)
    ensures s.procs[p].pt[v].cow && s.procs[p].pt[v].frame in s.mem && p in Abs(s).views && v in Abs(s).views[p]
    ensures Sole(s.table, s.procs[p].pt[v].frame) ==>
      s.procs[p].pt[v].frame !in s.cached && Abs(s).views[p][v] == Own(s.mem[s.procs[p].pt[v].frame])
  {
    var f := s.procs[p].pt[v].frame;
    assert PcInv(s, p);
    ClaimedFrame(s, Entry(p, v), f);
    assert Visible(s, p);
    if Sole(s.table, f) {
      SoleClaim(s, Entry(p, v), f);
      assert PageCache !in Claims(s, f);
    }
  }

  /** A store to an untracked frame goes to the frame itself, which the child maps too. */
  lemma StoreInPlaceShows(s: State, p: Pid, c: Pid, v: Vpn, copy: Frame, off: nat, byte: bv8)
    requires CanCowFault(s, p, v, copy) && CanWrite(DoCowFault(s, p, v, copy), p, v, off)
    requires IsRunning(s, c) && c != p && v in s.procs[c].pt
    requires var f := s.procs[p].pt[v].frame;
      s.procs[c].pt[v].frame == f && f !in s.table && f !in s.cached && Changes(s, f, off, byte)
    ensures ViewAt(Abs(Store(s, p, v, copy, off, byte)), c, v) == Own(s.mem[s.procs[p].pt[v].frame][off := byte])
  {
    var s', f := Store(s, p, v, copy, off, byte), s.procs[p].pt[v].frame;
    assert s'.procs[c] == s.procs[c] && s'.mem[f] == s.mem[f][off := byte] && Visible(s', c);
    assert Abs(s').views[c] == TableView(s', s.procs[c].pt);
  }

  /** The eager machine keeps the child's copy. */
  lemma EagerChildIsApart(a: Spec, p: Pid, c: Pid, v: Vpn, page: Page, copy: Frame, off: nat, byte: bv8)
    requires p in a.views && v in a.views[p] && a.views[p][v] == Own(page) && c != p
    ensures ViewAt(EagerStore(SpecNext(a, ForkEnd(p, c)), p, v, copy, off, byte), c, v) == Own(page)
  {
  }

  // A bucket fills

  const STRIDE: nat := 4181

  /** Frames a Fibonacci number apart fall into the same bucket. */
  function Crowded(j: nat): Frame { 4096 * STRIDE * j }

  lemma CrowdedBucket(j: nat)
    requires j <= COW_BUCKET_CAPACITY + 1
    ensures BucketIndex(Crowded(j)) == 0
  {
    var low := 0x7028beb7c82f9;
    assert STRIDE * HASH_MULTIPLIER == 2584 * TWO_64 + low;
    CrowdedHash(j, low);
  }

  lemma CrowdedHash(j: nat, low: nat)
    requires STRIDE * HASH_MULTIPLIER == 2584 * TWO_64 + low && j * low < TWO_56
    ensures Hash(Crowded(j)) == j * low && BucketIndex(Crowded(j)) == 0
  {
    assert Crowded(j) / 4096 == STRIDE * j;
    var product := STRIDE * j * HASH_MULTIPLIER;
    assert product == j * 2584 * TWO_64 + j * low;
    DivModUnique(product, TWO_64, j * 2584, j * low);
  }

  predicate IsCrowded(f: Frame, n: nat) {
    exists j: nat :: 1 <= j <= n && f == Crowded(j)
  }

  lemma CrowdedApart(n: nat)
    ensures !IsCrowded(Crowded(n + 1), n) && !IsCrowded(4096, n + 1)
  {
  }

  const ZEROS: Page := seq(PAGE_SIZE, _ => 0)

  /** One process, whose tracked frames are `n` frames of one bucket. */
  ghost predicate Crowd(s: State, n: nat) {
    && IsRunning(s, 0) && s.procs.Keys == {0} && (forall v :: v in s.procs[0].pt ==> v <= n)
    && (forall f :: f in s.mem ==> IsCrowded(f, n)) && (forall f :: f in s.table ==> IsCrowded(f, n))
    && |BucketFrames(s.table, 0)| == n
  }

  /** A process maps `n` private pages of files, whose frames all fall into one bucket. */
  lemma {:induction false} FillBucket(n: nat) returns (s: State, a: Spec)
    requires n <= COW_BUCKET_CAPACITY
    ensures Reach(s, a, true) && Crowd(s, n)
  {
    if n == 0 {
      ReachStart();
      ReachNext(INIT, Spec(map[], map[]), true, Spawn(0));
      s, a := DoSpawn(INIT, 0), SpecNext(Spec(map[], map[]), Spawn(0));
      assert BucketFrames(s.table, 0) == {};
    } else {
      s, a := FillBucket(n - 1);
      s, a := MapOneMore(s, a, n);
    }
  }

  lemma MapOneMore(s: State, a: Spec, n: nat) returns (s': State, a': Spec)
    requires 1 <= n <= COW_BUCKET_CAPACITY && Reach(s, a, true) && Crowd(s, n - 1)
    ensures Reach(s', a', true) && Crowd(s', n)
  {
    var f := Crowded(n);
    CrowdedApart(n - 1);
    CrowdedBucket(n);
    var filled, a1 := DoCacheFill(s, f, ZEROS), SpecNext(a, CacheFill(f, ZEROS));
    ReachNext(s, a, true, CacheFill(f, ZEROS));
    ReachFault(filled, a1, 0, n, f);
    s', a' := Fault(filled, 0, n, f), SpecNext(a1, FileMap(0, n, f));
    CrowdGrows(s, s', n);
  }

  lemma CrowdGrows(s: State, s': State, n: nat)
    requires 1 <= n <= COW_BUCKET_CAPACITY && Crowd(s, n - 1)
    requires s' == Fault(DoCacheFill(s, Crowded(n), ZEROS), 0, n, Crowded(n))
    ensures Crowd(s', n)
  {
    var f := Crowded(n);
    CrowdedApart(n - 1);
    CrowdedBucket(n);
    assert s'.table == s.table[f := 2];
    assert BucketFrames(s'.table, 0) == BucketFrames(s.table, 0) + {f};
    forall g | IsCrowded(g, n - 1) ensures IsCrowded(g, n) { }
    assert IsCrowded(f, n);
  }

  /** There is a run in which a store to a private file page changes the file. */
  lemma PrivateStoreReachesFile() returns (s: State, a: Spec)
    ensures Reach(s, a, false) && Abs(s).files != a.files
  {
    var n := COW_BUCKET_CAPACITY;
    var f := Crowded(n + 1);
    s, a := FillBucket(n);
    CrowdedApart(n);
    CrowdedBucket(n + 1);
    ReachNext(s, a, true, CacheFill(f, ZEROS));
    s, a := DoCacheFill(s, f, ZEROS), SpecNext(a, CacheFill(f, ZEROS));
    s, a := FileFaultIsPrivateIff(s, a, 0, n + 1, f, 4096, 0, 1);
  }

  /** There is a run in which a store of the parent after fork changes the child's page. */
  lemma ParentStoreReachesChild() returns (s: State, a: Spec)
    ensures Reach(s, a, false) && ViewAt(Abs(s), 2, 0) != ViewAt(a, 2, 0)
  {
    var n := COW_BUCKET_CAPACITY;
    var f := Crowded(n + 1);
    s, a := FillBucket(n);
    CrowdedApart(n);
    CrowdedBucket(n + 1);
    s, a := SecondProcess(s, a, f);
    s, a := ForksOnePage(s, a, f);
    s, a := ForkIsPrivateIff(s, a, 1, 2, 0, f, 4096, 0, 1);
  }

  /** A second process with one page. */
  lemma SecondProcess(s: State, a: Spec, f: Frame) returns (s': State, a': Spec)
    requires Reach(s, a, true) && s.procs.Keys == {0} && f !in s.mem
    ensures Reach(s', a', true) && s'.table == s.table && s'.mem == s.mem[f := ZEROS] && s'.procs.Keys == {0, 1}
    ensures s'.procs[1] == Proc(map[0 := Pte(f, true, false, false)], Running)
  {
    ReachNext(s, a, true, Spawn(1));
    s', a' := DoSpawn(s, 1), SpecNext(a, Spawn(1));
    ReachNext(s', a', true, MapFresh(1, 0, f, ZEROS, true));
    s', a' := DoMapFresh(s', 1, 0, f, ZEROS, true), SpecNext(a', MapFresh(1, 0, f, ZEROS, true));
  }

  /** Its fork, at the point where the page is to be shared. */
  lemma ForksOnePage(s: State, a: Spec, f: Frame) returns (s': State, a': Spec)
    requires Reach(s, a, true) && s.procs.Keys == {0, 1}
    requires s.procs[1] == Proc(map[0 := Pte(f, true, false, false)], Running)
    ensures Reach(s', a', true) && AtLastPage(s', 1, 2, 0) && s'.procs[1].pt[0].frame == f
    ensures s'.table == s.table && s'.mem == s.mem
  {
    ReachNext(s, a, true, ForkBegin(1, 2));
    s', a' := DoForkBegin(s, 1, 2), SpecNext(a, ForkBegin(1, 2));
    assert s'.procs[1].pc == Forking(2, {0});
    ReachNext(s', a', true, ForkMark(1, 0));
    s', a' := DoForkMark(s', 1, 0), SpecNext(a', ForkMark(1, 0));
  }

  // An exit with a MAP_SHARED page

  /** There is a run in which an exit takes the page of a file away. */
  lemma ExitLosesFilePage() returns (s: State, a: Spec, f: Frame)
    ensures Reach(s, a, false) && f in s.cached && f !in s.mem && Abs(s).files != a.files
  {
    f := 4096;
    ReachStart();
    s, a := INIT, Spec(map[], map[]);
    ReachNext(s, a, true, Spawn(0));
    s, a := DoSpawn(s, 0), SpecNext(a, Spawn(0));
    ReachNext(s, a, true, CacheFill(f, ZEROS));
    s, a := DoCacheFill(s, f, ZEROS), SpecNext(a, CacheFill(f, ZEROS));
    ReachNext(s, a, true, SharedFault(0, 0, f, true));
    s, a := DoSharedFault(s, 0, 0, f, true), SpecNext(a, SharedFault(0, 0, f, true));
    ReachNext(s, a, true, ExitBegin(0));
    s, a := DoExitBegin(s, 0), SpecNext(a, ExitBegin(0));
    SafeIsEager(s, a);
    ReachNext(s, a, true, TearPage(0, 0));
    assert a.files[f] == ZEROS;
    s := DoTearPage(s, 0, 0);
    assert Abs(s).files[f] == [];
  }
}
