/**
 The page cache's fill race: any number of callers of `get_or_fill`, each lookup,
 allocation, read, locked insertion and free being one step.
 */
module PageCache {
  import opened Bits
  import opened Common

  type Tid = int
  type Frame = int

  const BUCKETS: nat := 256
  const BUCKET_CAP: nat := 32

  /** A vnode and a page-aligned offset in its file. */
  datatype Key = Key(vnode: nat, offset: nat)

  datatype Entry = Entry(key: Key, frame: Frame)

  type Bucket = seq<Option<Entry>>

  const HASH_MULTIPLIER: nat := 0x9e37_79b9_7f4a_7c15
  const PAGE_MULTIPLIER: nat := 0x2545_F491_4F6C_DD1D

  /** What the page number contributes to the word that is hashed. */
  function PageWord(offset: nat): nat {
    offset / 4096 * PAGE_MULTIPLIER % TWO_64
  }

  /** The top eight bits of a word. */
  function Top(h: nat): nat { h / 0x100_0000_0000_0000 }

  /** The top eight bits of the hash. */
  function BucketIndex(key: Key): (i: nat)
    ensures i < BUCKETS
  {
    Top(Xor(key.vnode, PageWord(key.offset)) * HASH_MULTIPLIER % TWO_64)
  }

  // How the hash spreads keys

  /** From a multiple of `m` to the next, the top bits move on by those of `m`, or one more. */
  lemma TopMoves(x: nat, m: nat, g: nat)
    requires m % TWO_64 == g
    ensures (Top((x + 1) * m % TWO_64) - Top(x * m % TWO_64)) % BUCKETS in {Top(g), (Top(g) + 1) % BUCKETS}
  {
    ProductMoves(x, m);
    TopsAdd(x * m % TWO_64, g);
  }

  lemma TopsAdd(a: nat, b: nat)
    requires a < TWO_64 && b < TWO_64
    ensures (Top((a + b) % TWO_64) - Top(a)) % BUCKETS in {Top(b), (Top(b) + 1) % BUCKETS}
  {
    var carry := if a % 0x100_0000_0000_0000 + b % 0x100_0000_0000_0000 < 0x100_0000_0000_0000 then 0 else 1;
    var sum := Top(a) + Top(b) + carry;
    assert Top((a + b) % TWO_64) == if sum < BUCKETS then sum else sum - BUCKETS;
  }

  /** A product one step further on has moved by the multiplier. */
  lemma ProductMoves(x: nat, m: nat)
    ensures (x + 1) * m % TWO_64 == (x * m % TWO_64 + m % TWO_64) % TWO_64
  {
    var q, h := x * m / TWO_64 + m / TWO_64, x * m % TWO_64 + m % TWO_64;
    assert (x + 1) * m == x * m + m == TWO_64 * q + h;
    if h < TWO_64 {
      DivModUnique((x + 1) * m, TWO_64, q, h);
    } else {
      DivModUnique((x + 1) * m, TWO_64, q + 1, h - TWO_64);
    }
  }

  /** From a vnode address to the next, the bucket moves on by 158 or 159 of the 256. */
  lemma NextVnodeBucket(v: nat)
    ensures BucketIndex(Key(0, 0)) == 0
    ensures (BucketIndex(Key(v + 1, 0)) - BucketIndex(Key(v, 0))) % BUCKETS in {0x9e, 0x9f}
  {
    assert PageWord(0) == 0;
    TopMoves(v, HASH_MULTIPLIER, HASH_MULTIPLIER);
  }

  /** Hashing a product that has wrapped is hashing the product. */
  lemma WrappedProduct(x: nat, m: nat, n: nat)
    ensures x * m % TWO_64 * n % TWO_64 == x * (m * n) % TWO_64
  {
    var q, w := x * m / TWO_64, x * m % TWO_64;
    var u, h := w * n / TWO_64, w * n % TWO_64;
    assert x * (m * n) == (x * m) * n == (TWO_64 * q + w) * n == TWO_64 * (q * n) + w * n;
    assert x * (m * n) == TWO_64 * (q * n + u) + h;
    DivModUnique(x * (m * n), TWO_64, q * n + u, h);
  }

  /** From a page to the next, at vnode address 0, it moves on by 251 or 252. */
  lemma NextPageBucket(offset: nat)
    ensures (BucketIndex(Key(0, offset + 4096)) - BucketIndex(Key(0, offset))) % BUCKETS in {0xfb, 0xfc}
  {
    var x, m := offset / 4096, PAGE_MULTIPLIER * HASH_MULTIPLIER;
    assert (offset + 4096) / 4096 == x + 1;
    WrappedProduct(x, PAGE_MULTIPLIER, HASH_MULTIPLIER);
    WrappedProduct(x + 1, PAGE_MULTIPLIER, HASH_MULTIPLIER);
    TopMoves(x, m, 0xfb04_e882_8c6a_2f61);
  }

  /** The page number turns vnode addresses around: page and address share one multiplication. */
  lemma PageFolds(v: nat, offset: nat)
    ensures BucketIndex(Key(Xor(v, PageWord(offset)), offset)) == BucketIndex(Key(v, 0))
  {
    XorCancels(v, PageWord(offset));
    assert PageWord(0) == 0;
  }

  /** The first slot from `i` on that holds the key, or the length if there is none. */
  function FindKey(b: Bucket, key: Key, i: nat): (r: nat)
    requires i <= |b|
    ensures i <= r <= |b| && (r < |b| ==> b[r].Some? && b[r].value.key == key)
    ensures forall k :: i <= k < r ==> !(b[k].Some? && b[k].value.key == key)
    decreases |b| - i
  {
    if i == |b| || (b[i].Some? && b[i].value.key == key) then i else FindKey(b, key, i + 1)
  }

  function FindFree(b: Bucket, i: nat): (r: nat)
    requires i <= |b|
    ensures i <= r <= |b| && (r < |b| ==> b[r].None?)
    ensures forall k :: i <= k < r ==> b[k].Some?
    decreases |b| - i
  {
    if i == |b| || b[i].None? then i else FindFree(b, i + 1)
  }

  /** A caller; `cached` tells whether the returned frame is the one the cache holds. */
  datatype Pc =
    | Idle
    | Start(key: Key)
    | Missed(key: Key)
    | Reading(key: Key, frame: Frame)
    | Filled(key: Key, frame: Frame)
    | Failed(key: Key, frame: Frame)
    | LostRace(key: Key, frame: Frame, winner: Frame)
    | Returned(key: Key, result: Option<Frame>, cached: bool)

  datatype State = State(buckets: seq<Bucket>, inUse: set<Frame>, callers: map<Tid, Pc>)

  datatype Label =
    | Begin(t: Tid, key: Key)
    | Lookup(t: Tid)
    | Alloc(t: Tid, frame: Frame)
    | Read(t: Tid, ok: bool)
    | Insert(t: Tid)
    | FreeFailed(t: Tid)
    | FreeLoser(t: Tid)

  predicate WellFormed(s: State) {
    |s.buckets| == BUCKETS && forall b :: 0 <= b < BUCKETS ==> |s.buckets[b]| == BUCKET_CAP
  }

  /** The allocator hands out a frame that is not in use. */
  predicate Enabled(s: State, l: Label) {
    WellFormed(s) && l.t in s.callers &&
    match l
    case Begin(t, key) => s.callers[t].Idle? || s.callers[t].Returned?
    case Lookup(t) => s.callers[t].Start?
    case Alloc(t, frame) => s.callers[t].Missed? && frame !in s.inUse
    case Read(t, ok) => s.callers[t].Reading?
    case Insert(t) => s.callers[t].Filled?
    case FreeFailed(t) => s.callers[t].Failed?
    case FreeLoser(t) => s.callers[t].LostRace?
  }

  function Move(s: State, t: Tid, pc: Pc): State {
    s.(callers := s.callers[t := pc])
  }

  function DoLookup(s: State, t: Tid): State
    requires WellFormed(s) && t in s.callers && s.callers[t].Start?
  {
    var key := s.callers[t].key;
    var b := s.buckets[BucketIndex(key)];
    var i := FindKey(b, key, 0);
    Move(s, t, if i < |b| then Returned(key, Some(b[i].value.frame), true) else Missed(key))
  }

  /** Under the bucket lock: another caller's entry wins; else a free slot is taken; a full bucket forgets the page. */
  function DoInsert(s: State, t: Tid): State
    requires WellFormed(s) && t in s.callers && s.callers[t].Filled?
  {
    var key, frame := s.callers[t].key, s.callers[t].frame;
    var b := s.buckets[BucketIndex(key)];
    var i, j := FindKey(b, key, 0), FindFree(b, 0);
    if i < |b| then Move(s, t, LostRace(key, frame, b[i].value.frame))
    else if j < |b| then
      Move(s, t, Returned(key, Some(frame), true))
        .(buckets := s.buckets[BucketIndex(key) := b[j := Some(Entry(key, frame))]])
    else Move(s, t, Returned(key, Some(frame), false))
  }

  function Next(s: State, l: Label): State
    requires Enabled(s, l)
  {
    match l
    case Begin(t, key) => Move(s, t, Start(key))
    case Lookup(t) => DoLookup(s, t)
    case Alloc(t, frame) => Move(s, t, Reading(s.callers[t].key, frame)).(inUse := s.inUse + {frame})
    case Read(t, ok) =>
      var pc := s.callers[t];
      Move(s, t, if ok then Filled(pc.key, pc.frame) else Failed(pc.key, pc.frame))
    case Insert(t) => DoInsert(s, t)
    case FreeFailed(t) =>
      var pc := s.callers[t];
      Move(s, t, Returned(pc.key, None, false)).(inUse := s.inUse - {pc.frame})
    case FreeLoser(t) =>
      var pc := s.callers[t];
      Move(s, t, Returned(pc.key, Some(pc.winner), true)).(inUse := s.inUse - {pc.frame})
  }

  // Invariants

  /** Slot `i` of bucket `b` holds `e`. */
  predicate Holds(s: State, b: int, i: int, e: Entry) {
    0 <= b < |s.buckets| && 0 <= i < |s.buckets[b]| && s.buckets[b][i] == Some(e)
  }

  ghost predicate Cached(s: State, key: Key, frame: Frame) {
    exists b, i :: Holds(s, b, i, Entry(key, frame))
  }

  /** The frame that a caller allocated and has not inserted, returned or freed. */
  predicate Owns(s: State, t: Tid, f: Frame) {
    t in s.callers && (s.callers[t].Reading? || s.callers[t].Filled? || s.callers[t].Failed? || s.callers[t].LostRace?)
    && s.callers[t].frame == f
  }

  /** An entry sits in its key's bucket, its frame is allocated, and no other slot has its key or frame. */
  ghost predicate EntryInv(s: State, b: int, i: int, e: Entry) {
    Holds(s, b, i, e) ==>
      && b == BucketIndex(e.key) && e.frame in s.inUse
      && (forall c, j, e' :: Holds(s, c, j, e') && (e'.key == e.key || e'.frame == e.frame) ==> c == b && j == i)
  }

  ghost predicate CallerInv(s: State, t: Tid) {
    t in s.callers ==>
      match s.callers[t]
      case Reading(key, f) => OwnedInv(s, t, f)
      case Filled(key, f) => OwnedInv(s, t, f)
      case Failed(key, f) => OwnedInv(s, t, f)
      case LostRace(key, f, winner) => OwnedInv(s, t, f) && Cached(s, key, winner)
      case Returned(key, f, cached) => cached ==> f.Some? && Cached(s, key, f.value)
      case _ => true
  }

  /** An owned frame is allocated, in no entry, and nobody else's. */
  ghost predicate OwnedInv(s: State, t: Tid, f: Frame) {
    && f in s.inUse
    && (forall b, i, e :: Holds(s, b, i, e) ==> e.frame != f)
    && (forall u :: u != t ==> !Owns(s, u, f))
  }

  ghost predicate Inv(s: State) {
    && WellFormed(s)
    && (forall b, i, e :: EntryInv(s, b, i, e))
    && (forall t :: CallerInv(s, t))
  }

  // Each step keeps the invariant

  /** What holds for the other callers when `t` takes a step. */
  ghost predicate StepOf(s: State, s': State, t: Tid) {
    && t in s.callers && s'.callers.Keys == s.callers.Keys
    && (forall u :: u != t && u in s.callers ==> s'.callers[u] == s.callers[u])
    && (forall key, f :: Cached(s, key, f) ==> Cached(s', key, f))
    && (forall f :: Owns(s', t, f) ==> Owns(s, t, f) || f !in s.inUse)
    && (forall b, i, e :: Holds(s', b, i, e) ==> Holds(s, b, i, e) || Owns(s, t, e.frame))
    && (forall f :: f in s.inUse && !Owns(s, t, f) ==> f in s'.inUse)
  }

  lemma OthersKeep(s: State, s': State, t: Tid, u: Tid)
    requires Inv(s) && StepOf(s, s', t) && u != t
    ensures CallerInv(s', u)
  {
    assert CallerInv(s, u);
    forall f | Owns(s, u, f) ensures OwnedInv(s', u, f) {
      assert OwnedInv(s, u, f) && !Owns(s, t, f);
      forall v | v != u ensures !Owns(s', v, f) {
        assert !Owns(s, v, f);
      }
    }
    assert forall f :: Owns(s', u, f) ==> Owns(s, u, f);
    if u in s'.callers {
      var pc := s'.callers[u];
      if pc.Reading? || pc.Filled? || pc.Failed? || pc.LostRace? { assert Owns(s, u, pc.frame); }
    }
  }

  /** The entries stay. */
  lemma SameEntries(s: State, s': State)
    requires s'.buckets == s.buckets
    ensures forall b, i, e :: Holds(s', b, i, e) <==> Holds(s, b, i, e)
    ensures forall key, f :: Cached(s, key, f) ==> Cached(s', key, f)
  {
    forall b, i, e ensures Holds(s', b, i, e) <==> Holds(s, b, i, e) { }
    forall key, f | Cached(s, key, f) ensures Cached(s', key, f) {
      var b, i :| Holds(s, b, i, Entry(key, f));
      assert Holds(s', b, i, Entry(key, f));
    }
  }

  /** A step that leaves the entries, and their frames in use, as they are. */
  lemma StepKeepsEntries(s: State, s': State, t: Tid)
    requires Inv(s) && s'.buckets == s.buckets && StepOf(s, s', t)
    ensures forall b, i, e :: EntryInv(s', b, i, e)
  {
    SameEntries(s, s');
    assert CallerInv(s, t);
    forall b, i, e ensures EntryInv(s', b, i, e) {
      assert EntryInv(s, b, i, e);
    }
  }

  /** A caller moves on and keeps the frame it owns, if any. */
  lemma MoveKeepsInv(s: State, t: Tid, pc: Pc)
    requires Inv(s) && t in s.callers
    requires forall f :: Owns(Move(s, t, pc), t, f) ==> Owns(s, t, f)
    requires pc.LostRace? ==> Cached(s, pc.key, pc.winner)
    requires pc.Returned? && pc.cached ==> pc.result.Some? && Cached(s, pc.key, pc.result.value)
    ensures Inv(Move(s, t, pc))
  {
    var s' := Move(s, t, pc);
    SameEntries(s, s');
    assert StepOf(s, s', t);
    StepKeepsEntries(s, s', t);
    forall u ensures CallerInv(s', u) {
      if u != t { OthersKeep(s, s', t, u); } else { MoverKeeps(s, s', t); }
    }
  }

  lemma MoverKeeps(s: State, s': State, t: Tid)
    requires Inv(s) && StepOf(s, s', t) && s'.buckets == s.buckets && s'.inUse == s.inUse && t in s'.callers
    requires forall f :: Owns(s', t, f) ==> Owns(s, t, f)
    requires var pc := s'.callers[t];
      (pc.LostRace? ==> Cached(s, pc.key, pc.winner))
      && (pc.Returned? && pc.cached ==> pc.result.Some? && Cached(s, pc.key, pc.result.value))
    ensures CallerInv(s', t)
  {
    SameEntries(s, s');
    assert CallerInv(s, t);
    forall f | Owns(s', t, f) ensures OwnedInv(s', t, f) {
      assert OwnedInv(s, t, f);
      forall u | u != t ensures !Owns(s', u, f) { assert !Owns(s, u, f); }
    }
    var pc := s'.callers[t];
    if pc.Reading? || pc.Filled? || pc.Failed? || pc.LostRace? { assert Owns(s', t, pc.frame); }
  }

  lemma LookupKeepsInv(s: State, t: Tid)
    requires Inv(s) && t in s.callers && s.callers[t].Start?
    ensures Inv(DoLookup(s, t))
  {
    var key := s.callers[t].key;
    var b := s.buckets[BucketIndex(key)];
    var i := FindKey(b, key, 0);
    if i < |b| {
      assert Holds(s, BucketIndex(key), i, Entry(key, b[i].value.frame));
    }
    MoveKeepsInv(s, t, DoLookup(s, t).callers[t]);
  }

  lemma AllocKeepsInv(s: State, t: Tid, frame: Frame)
    requires Inv(s) && t in s.callers && s.callers[t].Missed? && frame !in s.inUse
    ensures Inv(Move(s, t, Reading(s.callers[t].key, frame)).(inUse := s.inUse + {frame}))
  {
    var s' := Move(s, t, Reading(s.callers[t].key, frame)).(inUse := s.inUse + {frame});
    SameEntries(s, s');
    assert StepOf(s, s', t);
    StepKeepsEntries(s, s', t);
    forall u ensures CallerInv(s', u) {
      if u != t {
        OthersKeep(s, s', t, u);
      } else {
        forall b, i, e | Holds(s', b, i, e) ensures e.frame != frame { assert EntryInv(s, b, i, e); }
        forall v | v != t ensures !Owns(s', v, frame) { assert CallerInv(s, v); }
      }
    }
  }

  /** A caller frees the frame it owns. */
  lemma FreeKeepsInv(s: State, t: Tid, frame: Frame, pc: Pc)
    requires Inv(s) && Owns(s, t, frame) && pc.Returned?
    requires (pc.cached ==> pc.result.Some? && Cached(s, pc.key, pc.result.value))
    ensures Inv(Move(s, t, pc).(inUse := s.inUse - {frame}))
  {
    var s' := Move(s, t, pc).(inUse := s.inUse - {frame});
    SameEntries(s, s');
    assert StepOf(s, s', t);
    StepKeepsEntries(s, s', t);
    forall u ensures CallerInv(s', u) {
      if u != t { OthersKeep(s, s', t, u); }
    }
  }

  lemma InsertKeepsInv(s: State, t: Tid)
    requires Inv(s) && t in s.callers && s.callers[t].Filled?
    ensures Inv(DoInsert(s, t))
  {
    var key := s.callers[t].key;
    var b := s.buckets[BucketIndex(key)];
    var i, j := FindKey(b, key, 0), FindFree(b, 0);
    if i == |b| && j < |b| {
      TakeSlotKeepsInv(s, t, j);
    } else {
      if i < |b| { assert Holds(s, BucketIndex(key), i, Entry(key, b[i].value.frame)); }
      MoveKeepsInv(s, t, DoInsert(s, t).callers[t]);
    }
  }

  /** The new entry and the entries that were there. */
  lemma TakeSlotHolds(s: State, t: Tid, j: nat, b: int, i: int, e: Entry)
    requires WellFormed(s) && t in s.callers && s.callers[t].Filled?
    requires var k := s.buckets[BucketIndex(s.callers[t].key)];
      FindKey(k, s.callers[t].key, 0) == |k| && j == FindFree(k, 0) < |k|
    ensures var e0 := Entry(s.callers[t].key, s.callers[t].frame);
      Holds(DoInsert(s, t), b, i, e) <==> Holds(s, b, i, e) || (b == BucketIndex(e0.key) && i == j && e == e0)
  {
  }

  lemma TakeSlotKeepsInv(s: State, t: Tid, j: nat)
    requires Inv(s) && t in s.callers && s.callers[t].Filled?
    requires var b := s.buckets[BucketIndex(s.callers[t].key)];
      FindKey(b, s.callers[t].key, 0) == |b| && j == FindFree(b, 0) < |b|
    ensures Inv(DoInsert(s, t))
  {
    var s' := DoInsert(s, t);
    var e0 := Entry(s.callers[t].key, s.callers[t].frame);
    var b0 := BucketIndex(e0.key);
    assert CallerInv(s, t) && Owns(s, t, e0.frame);
    forall b, i, e ensures Holds(s', b, i, e) <==> Holds(s, b, i, e) || (b == b0 && i == j && e == e0) {
      TakeSlotHolds(s, t, j, b, i, e);
    }
    forall key, f | Cached(s, key, f) ensures Cached(s', key, f) {
      var b, i :| Holds(s, b, i, Entry(key, f));
      assert Holds(s', b, i, Entry(key, f));
    }
    assert Holds(s', b0, j, e0);
    assert StepOf(s, s', t);
    forall b, i, e ensures EntryInv(s', b, i, e) {
      assert EntryInv(s, b, i, e);
      if Holds(s', b, i, e) {
        forall c, k, e' | Holds(s', c, k, e') && (e'.key == e.key || e'.frame == e.frame) ensures c == b && k == i {
          assert EntryInv(s, c, k, e');
        }
      }
    }
    forall u ensures CallerInv(s', u) {
      if u != t { OthersKeep(s, s', t, u); }
    }
  }

  lemma StepKeepsInv(s: State, l: Label)
    requires Inv(s) && Enabled(s, l)
    ensures Inv(Next(s, l))
  {
    assert CallerInv(s, l.t);
    match l
    case Begin(t, key) => MoveKeepsInv(s, t, Start(key));
    case Lookup(t) => LookupKeepsInv(s, t);
    case Alloc(t, frame) => AllocKeepsInv(s, t, frame);
    case Read(t, ok) =>
      var pc := s.callers[t];
      MoveKeepsInv(s, t, if ok then Filled(pc.key, pc.frame) else Failed(pc.key, pc.frame));
    case Insert(t) => InsertKeepsInv(s, t);
    case FreeFailed(t) => FreeKeepsInv(s, t, s.callers[t].frame, Returned(s.callers[t].key, None, false));
    case FreeLoser(t) =>
      var pc := s.callers[t];
      FreeKeepsInv(s, t, pc.frame, Returned(pc.key, Some(pc.winner), true));
  }

  // Runs

  ghost predicate Init(s: State) {
    WellFormed(s) && (forall b, i, e :: !Holds(s, b, i, e)) && forall t :: t in s.callers ==> s.callers[t].Idle?
  }

  ghost predicate IsRun(states: seq<State>, labels: seq<Label>) {
    && |states| == |labels| + 1
    && Init(states[0])
    && (forall i :: 0 <= i < |labels| ==> Enabled(states[i], labels[i]) && states[i + 1] == Next(states[i], labels[i]))
  }

  lemma {:induction false} RunKeepsInv(states: seq<State>, labels: seq<Label>, i: nat)
    requires IsRun(states, labels) && i < |states|
    ensures Inv(states[i])
  {
    if i > 0 {
      RunKeepsInv(states, labels, i - 1);
      StepKeepsInv(states[i - 1], labels[i - 1]);
    }
  }

  /** Each key has at most one entry, and it sits in its hash bucket. */
  lemma OneEntryPerKey(states: seq<State>, labels: seq<Label>, n: nat, b: int, i: int, e: Entry, c: int, j: int,
                       e': Entry)
    requires IsRun(states, labels) && n < |states|
    requires Holds(states[n], b, i, e) && Holds(states[n], c, j, e') && e.key == e'.key
    ensures b == c == BucketIndex(e.key) && i == j && e == e'
  {
    RunKeepsInv(states, labels, n);
    assert EntryInv(states[n], b, i, e);
  }

  lemma StepKeepsCached(s: State, l: Label, key: Key, f: Frame)
    requires Inv(s) && Enabled(s, l) && Cached(s, key, f)
    ensures Cached(Next(s, l), key, f)
  {
    var b, i :| Holds(s, b, i, Entry(key, f));
    assert Holds(Next(s, l), b, i, Entry(key, f));
  }

  /** Entries are never dropped. */
  lemma {:induction false} CachedStays(states: seq<State>, labels: seq<Label>, m: nat, n: nat, key: Key, f: Frame)
    requires IsRun(states, labels) && m <= n < |states| && Cached(states[m], key, f)
    ensures Cached(states[n], key, f)
    decreases n
  {
    if m < n {
      CachedStays(states, labels, m, n - 1, key, f);
      RunKeepsInv(states, labels, n - 1);
      StepKeepsCached(states[n - 1], labels[n - 1], key, f);
    }
  }

  /** All callers whose frame the cache remembers get the same frame for the same key, at whatever times they return. */
  lemma SameFrameForAll(states: seq<State>, labels: seq<Label>, m: nat, n: nat, t: Tid, u: Tid, key: Key, f: Frame,
                        g: Frame)
    requires IsRun(states, labels) && m <= n < |states|
    requires t in states[m].callers && states[m].callers[t] == Returned(key, Some(f), true)
    requires u in states[n].callers && states[n].callers[u] == Returned(key, Some(g), true)
    ensures f == g
  {
    RunKeepsInv(states, labels, m);
    RunKeepsInv(states, labels, n);
    assert CallerInv(states[m], t) && CallerInv(states[n], u);
    CachedStays(states, labels, m, n, key, f);
    CachedIsOne(states[n], key, f, g);
  }

  lemma CachedIsOne(s: State, key: Key, f: Frame, g: Frame)
    requires Inv(s) && Cached(s, key, f) && Cached(s, key, g)
    ensures f == g
  {
    var b, i :| Holds(s, b, i, Entry(key, f));
    var c, j :| Holds(s, c, j, Entry(key, g));
    assert EntryInv(s, b, i, Entry(key, f));
  }

  /** A caller's frame is forgotten exactly when its key has no entry and its bucket has no free slot. */
  lemma ForgottenIffFull(states: seq<State>, labels: seq<Label>, n: nat, t: Tid)
    requires IsRun(states, labels) && n < |labels| && labels[n] == Insert(t)
    ensures var s, key := states[n], states[n].callers[t].key;
      states[n + 1].callers[t] == Returned(key, Some(s.callers[t].frame), false) <==>
        && (forall f :: !Cached(s, key, f))
        && (forall i :: 0 <= i < BUCKET_CAP ==> s.buckets[BucketIndex(key)][i].Some?)
  {
    var s, key := states[n], states[n].callers[t].key;
    RunKeepsInv(states, labels, n);
    var b := s.buckets[BucketIndex(key)];
    var i := FindKey(b, key, 0);
    if i < |b| {
      assert Holds(s, BucketIndex(key), i, b[i].value) && Cached(s, key, b[i].value.frame);
    } else {
      forall f ensures !Cached(s, key, f) { NotFoundNotCached(s, key, f); }
    }
  }

  lemma NotFoundNotCached(s: State, key: Key, f: Frame)
    requires Inv(s) && FindKey(s.buckets[BucketIndex(key)], key, 0) == BUCKET_CAP
    ensures !Cached(s, key, f)
  {
    forall b, i ensures !Holds(s, b, i, Entry(key, f)) { assert EntryInv(s, b, i, Entry(key, f)); }
  }

  /** The frame that a step frees. */
  predicate Frees(s: State, l: Label, f: Frame) {
    l.t in s.callers && ((l.FreeLoser? && s.callers[l.t].LostRace?) || (l.FreeFailed? && s.callers[l.t].Failed?))
    && s.callers[l.t].frame == f
  }

  /** A freed frame was in use and is no cached frame; it is not freed again before it is allocated again. */
  lemma FreedIsNotCached(states: seq<State>, labels: seq<Label>, n: nat, f: Frame)
    requires IsRun(states, labels) && n < |labels| && Frees(states[n], labels[n], f)
    ensures f in states[n].inUse && f !in states[n + 1].inUse
    ensures forall key :: !Cached(states[n], key, f)
  {
    RunKeepsInv(states, labels, n);
    var s := states[n];
    assert CallerInv(s, labels[n].t);
    forall key ensures !Cached(s, key, f) {
      forall b, i ensures !Holds(s, b, i, Entry(key, f)) { }
    }
  }

  lemma {:induction false} StaysOutOfUse(states: seq<State>, labels: seq<Label>, m: nat, n: nat, f: Frame)
    requires IsRun(states, labels) && m <= n < |states| && f !in states[m].inUse
    requires forall k :: m <= k < n ==> !(labels[k].Alloc? && labels[k].frame == f)
    ensures f !in states[n].inUse
    decreases n
  {
    if m < n { StaysOutOfUse(states, labels, m, n - 1, f); }
  }

  /** Between two frees of a frame it was allocated. */
  lemma FreedOnce(states: seq<State>, labels: seq<Label>, m: nat, n: nat, f: Frame) returns (k: nat)
    requires IsRun(states, labels) && m < n < |labels| && Frees(states[m], labels[m], f)
    requires Frees(states[n], labels[n], f)
    ensures m < k < n && labels[k].Alloc? && labels[k].frame == f
  {
    FreedIsNotCached(states, labels, m, f);
    FreedIsNotCached(states, labels, n, f);
    if forall k :: m + 1 <= k < n ==> !(labels[k].Alloc? && labels[k].frame == f) {
      StaysOutOfUse(states, labels, m + 1, n, f);
    }
    k :| m + 1 <= k < n && labels[k].Alloc? && labels[k].frame == f;
  }

  // What a call does

  /** A lookup returns a frame if and only if the cache holds one for the key. */
  lemma LookupHitsIff(states: seq<State>, labels: seq<Label>, n: nat, t: Tid)
    requires IsRun(states, labels) && n < |labels| && labels[n] == Lookup(t)
    ensures states[n + 1].callers[t].Returned? <==> exists f :: Cached(states[n], states[n].callers[t].key, f)
  {
    var s, key := states[n], states[n].callers[t].key;
    RunKeepsInv(states, labels, n);
    var b := s.buckets[BucketIndex(key)];
    var i := FindKey(b, key, 0);
    if i < |b| {
      assert Holds(s, BucketIndex(key), i, b[i].value) && Cached(s, key, b[i].value.frame);
    } else {
      forall f ensures !Cached(s, key, f) { NotFoundNotCached(s, key, f); }
    }
  }

  /** The steps of `t` from step `i` to step `k`. */
  function StepsOf(labels: seq<Label>, t: Tid, i: nat, k: nat): seq<Label>
    requires i <= k <= |labels|
    decreases k
  {
    if i == k then [] else StepsOf(labels, t, i, k - 1) + if labels[k - 1].t == t then [labels[k - 1]] else []
  }

  /** The steps that bring a call for `key` to where it stands. */
  predicate Stands(pc: Pc, t: Tid, key: Key, steps: seq<Label>) {
    match pc
    case Idle => false
    case Start(k) => k == key && steps == [Begin(t, key)]
    case Missed(k) => k == key && steps == [Begin(t, key), Lookup(t)]
    case Reading(k, f) => k == key && steps == [Begin(t, key), Lookup(t), Alloc(t, f)]
    case Filled(k, f) => k == key && steps == [Begin(t, key), Lookup(t), Alloc(t, f), Read(t, true)]
    case Failed(k, f) => k == key && steps == [Begin(t, key), Lookup(t), Alloc(t, f), Read(t, false)]
    case LostRace(k, f, winner) =>
      k == key && steps == [Begin(t, key), Lookup(t), Alloc(t, f), Read(t, true), Insert(t)]
    case Returned(k, result, cached) => k == key && Returns(t, key, steps, result, cached)
  }

  /**
   A call that returns `result` found the page; or allocated a frame, read into it and returned it;
   or freed it again, and returned nothing, as the read had failed, or the frame of the winner.
   */
  predicate Returns(t: Tid, key: Key, steps: seq<Label>, result: Option<Frame>, cached: bool) {
    || (result.Some? && cached && steps == [Begin(t, key), Lookup(t)])
    || (|steps| > 2 && steps[2].Alloc? &&
        var f := steps[2].frame;
        || (result == Some(f) && steps == [Begin(t, key), Lookup(t), Alloc(t, f), Read(t, true), Insert(t)])
        || (result.None? && steps == [Begin(t, key), Lookup(t), Alloc(t, f), Read(t, false), FreeFailed(t)])
        || (result.Some? && cached
            && steps == [Begin(t, key), Lookup(t), Alloc(t, f), Read(t, true), Insert(t), FreeLoser(t)]))
  }

  lemma NoneIffReadFailed(t: Tid, key: Key, steps: seq<Label>, result: Option<Frame>, cached: bool)
    requires Returns(t, key, steps, result, cached)
    ensures result.None? <==> Read(t, false) in steps
  {
    if result.None? { assert steps[3] == Read(t, false); }
  }

  /** How a step of the caller moves it on. */
  predicate Moves(pc: Pc, l: Label, pc': Pc) {
    match l
    case Begin(t, key) => pc' == Start(key)
    case Lookup(t) => pc.Start? && (pc' == Missed(pc.key) || IsFound(pc', pc.key))
    case Alloc(t, f) => pc.Missed? && pc' == Reading(pc.key, f)
    case Read(t, ok) => pc.Reading? && pc' == if ok then Filled(pc.key, pc.frame) else Failed(pc.key, pc.frame)
    case Insert(t) =>
      && pc.Filled? && (pc'.LostRace? || (pc'.Returned? && pc'.result == Some(pc.frame)))
      && pc'.key == pc.key && (pc'.LostRace? ==> pc'.frame == pc.frame)
    case FreeFailed(t) => pc.Failed? && pc' == Returned(pc.key, None, false)
    case FreeLoser(t) => pc.LostRace? && IsFound(pc', pc.key)
  }

  predicate IsFound(pc: Pc, key: Key) {
    pc.Returned? && pc.key == key && pc.result.Some? && pc.cached
  }

  /** What a step of anyone does to caller `t`. */
  predicate MovesOf(s: State, l: Label, s': State, t: Tid) {
    t in s.callers && t in s'.callers
    && if l.t == t then Moves(s.callers[t], l, s'.callers[t]) else s'.callers[t] == s.callers[t]
  }

  lemma StepMoves(s: State, l: Label, t: Tid)
    requires Enabled(s, l) && t in s.callers
    ensures MovesOf(s, l, Next(s, l), t)
  {
  }

  lemma CallSteps(pc: Pc, l: Label, pc': Pc, t: Tid, key: Key, steps: seq<Label>)
    requires Moves(pc, l, pc') && l.t == t && !l.Begin? && Stands(pc, t, key, steps)
    ensures Stands(pc', t, key, steps + [l])
  {
  }

  predicate IsIn(s: State, t: Tid) { t in s.callers && !s.callers[t].Idle? && !s.callers[t].Returned? }

  /** The steps from `i` to `k` are those of one call of `t`, and of others. */
  ghost predicate IsCall(states: seq<State>, labels: seq<Label>, t: Tid, key: Key, i: nat, k: nat) {
    && i < k <= |labels| < |states| && labels[i] == Begin(t, key)
    && (forall j :: i <= j < k ==> MovesOf(states[j], labels[j], states[j + 1], t))
    && (forall j :: i < j < k ==> IsIn(states[j], t) && !(labels[j].Begin? && labels[j].t == t))
  }

  lemma {:induction false} CallProgress(states: seq<State>, labels: seq<Label>, t: Tid, key: Key, i: nat, k: nat)
    requires IsCall(states, labels, t, key, i, k)
    ensures t in states[k].callers && Stands(states[k].callers[t], t, key, StepsOf(labels, t, i, k))
    decreases k
  {
    assert MovesOf(states[k - 1], labels[k - 1], states[k], t);
    if k == i + 1 {
      assert StepsOf(labels, t, i, i) == [];
    } else {
      CallProgress(states, labels, t, key, i, k - 1);
      if labels[k - 1].t == t {
        CallSteps(states[k - 1].callers[t], labels[k - 1], states[k].callers[t], t, key, StepsOf(labels, t, i, k - 1));
      }
    }
  }

  /** The caller is in its call in every state between `i` and `k`. */
  ghost predicate InCall(states: seq<State>, t: Tid, i: nat, k: nat) {
    k < |states| && forall j :: i < j < k ==> IsIn(states[j], t)
  }

  lemma RunHasCall(states: seq<State>, labels: seq<Label>, t: Tid, key: Key, i: nat, k: nat)
    requires IsRun(states, labels) && i < k <= |labels| && labels[i] == Begin(t, key) && InCall(states, t, i, k)
    ensures IsCall(states, labels, t, key, i, k)
  {
    forall j | i <= j < k ensures MovesOf(states[j], labels[j], states[j + 1], t) {
      assert j > i ==> IsIn(states[j], t);
      StepMoves(states[j], labels[j], t);
    }
    forall j | i < j < k ensures !(labels[j].Begin? && labels[j].t == t) { assert IsIn(states[j], t); }
  }

  /**
   From its beginning to its return a call takes one of four courses; it returns nothing if and
   only if its read failed, and otherwise a frame for its key that the cache holds or that it
   allocated and read.
   */
  lemma CallReturns(states: seq<State>, labels: seq<Label>, t: Tid, key: Key, i: nat, k: nat)
    requires IsRun(states, labels) && i < k <= |labels| && labels[i] == Begin(t, key) && InCall(states, t, i, k)
    requires t in states[k].callers && states[k].callers[t].Returned?
    ensures var pc, steps := states[k].callers[t], StepsOf(labels, t, i, k);
      && Returns(t, key, steps, pc.result, pc.cached)
      && (pc.result.None? <==> Read(t, false) in steps)
      && (pc.cached ==> pc.result.Some? && Cached(states[k], key, pc.result.value))
  {
    RunHasCall(states, labels, t, key, i, k);
    CallProgress(states, labels, t, key, i, k);
    RunKeepsInv(states, labels, k);
    assert CallerInv(states[k], t);
    NoneIffReadFailed(t, key, StepsOf(labels, t, i, k), states[k].callers[t].result, states[k].callers[t].cached);
  }

  // A bucket fills

  ghost predicate Reachable(s: State) {
    exists states, labels :: IsRun(states, labels) && states[|labels|] == s
  }

  lemma ReachesNext(s: State, l: Label) returns (s': State)
    requires Reachable(s) && Enabled(s, l)
    ensures s' == Next(s, l) && Reachable(s')
  {
    var states, labels :| IsRun(states, labels) && states[|labels|] == s;
    s' := Next(s, l);
    var states', labels' := states + [s'], labels + [l];
    assert IsRun(states', labels') && states'[|labels'|] == s';
  }

  predicate IsFree(pc: Pc) { pc.Idle? || pc.Returned? }

  lemma Misses(s: State, t: Tid, key: Key) returns (s': State)
    requires Reachable(s) && WellFormed(s) && t in s.callers && IsFree(s.callers[t])
    requires FindKey(s.buckets[BucketIndex(key)], key, 0) == BUCKET_CAP
    ensures Reachable(s') && s' == Move(s, t, Missed(key))
  {
    s' := ReachesNext(s, Begin(t, key));
    s' := ReachesNext(s', Lookup(t));
  }

  lemma ReadsPage(s: State, t: Tid, key: Key, frame: Frame) returns (s': State)
    requires Reachable(s) && WellFormed(s) && t in s.callers && s.callers[t] == Missed(key) && frame !in s.inUse
    ensures Reachable(s') && s' == Move(s, t, Filled(key, frame)).(inUse := s.inUse + {frame})
  {
    s' := ReachesNext(s, Alloc(t, frame));
    s' := ReachesNext(s', Read(t, true));
  }

  /** One undisturbed call for a page that the cache does not hold. */
  lemma FillsPage(s: State, t: Tid, key: Key, frame: Frame) returns (s': State)
    requires Reachable(s) && WellFormed(s) && t in s.callers && IsFree(s.callers[t]) && frame !in s.inUse
    requires FindKey(s.buckets[BucketIndex(key)], key, 0) == BUCKET_CAP
    ensures var b := s.buckets[BucketIndex(key)];
      var j := FindFree(b, 0);
      && Reachable(s') && s'.callers == s.callers[t := Returned(key, Some(frame), j < BUCKET_CAP)]
      && s'.inUse == s.inUse + {frame}
      && s'.buckets ==
           if j < BUCKET_CAP then s.buckets[BucketIndex(key) := b[j := Some(Entry(key, frame))]] else s.buckets
  {
    s' := Misses(s, t, key);
    s' := ReadsPage(s', t, key, frame);
    s' := ReachesNext(s', Insert(t));
  }

  const CROWD_BASE: nat := 0xFFFF_8000_0000_1000
  const CROWD_STRIDE: nat := 64 * 1346269
  const CROWD_BUCKET: nat := 0x39

  /** The first pages of files whose vnodes lie a multiple of a Fibonacci number apart. */
  function Crowded(j: nat): Key { Key(CROWD_BASE + CROWD_STRIDE * j, 0) }

  lemma CrowdedBucket(j: nat)
    requires j <= BUCKET_CAP + 1
    ensures BucketIndex(Crowded(j)) == CROWD_BUCKET
  {
    var high, low := 0x3991_17f4_a7c1_5000, 0x1_64ae_f51c_0840;
    var product := (CROWD_BASE + CROWD_STRIDE * j) * HASH_MULTIPLIER;
    assert CROWD_BASE * HASH_MULTIPLIER == 11400627838771906131 * TWO_64 + high;
    assert CROWD_STRIDE * HASH_MULTIPLIER == 53250560 * TWO_64 + low;
    assert product == (11400627838771906131 + 53250560 * j) * TWO_64 + (high + low * j);
    DivModUnique(product, TWO_64, 11400627838771906131 + 53250560 * j, high + low * j);
  }

  /** The bucket holds `n` entries and no more; the frames in use are numbered up to `n`. */
  predicate Crowd(s: State, n: nat)
    requires WellFormed(s)
  {
    && 0 in s.callers && 1 in s.callers && IsFree(s.callers[0]) && IsFree(s.callers[1])
    && (forall f :: f in s.inUse ==> f < n)
    && (forall i :: 0 <= i < BUCKET_CAP ==>
          s.buckets[CROWD_BUCKET][i] == if i < n then Some(Entry(Crowded(i), i)) else None)
  }

  lemma CrowdIsSearched(s: State, n: nat)
    requires n <= BUCKET_CAP && WellFormed(s) && Crowd(s, n)
    ensures FindKey(s.buckets[CROWD_BUCKET], Crowded(n), 0) == BUCKET_CAP
    ensures FindFree(s.buckets[CROWD_BUCKET], 0) == n
  {
  }

  lemma {:induction false} FillBucket(n: nat) returns (s: State)
    requires n <= BUCKET_CAP
    ensures Reachable(s) && WellFormed(s) && Crowd(s, n)
  {
    if n == 0 {
      s := State(seq(BUCKETS, _ => seq(BUCKET_CAP, _ => None)), {}, map[0 := Idle, 1 := Idle]);
      var none: seq<Label> := [];
      assert IsRun([s], none) && [s][|none|] == s;
    } else {
      s := FillBucket(n - 1);
      CrowdedBucket(n - 1);
      CrowdIsSearched(s, n - 1);
      s := FillsPage(s, 0, Crowded(n - 1), n - 1);
    }
  }

  /** There is a run in which two callers get different frames for the same page, since its bucket is full. */
  lemma FullBucketForgets() returns (s: State, key: Key, f: Frame, g: Frame)
    ensures Reachable(s) && 0 in s.callers && 1 in s.callers && f != g
    ensures s.callers[0] == Returned(key, Some(f), false) && s.callers[1] == Returned(key, Some(g), false)
  {
    var n := BUCKET_CAP;
    key, f, g := Crowded(n), n + 1, n + 2;
    s := FillBucket(n);
    CrowdedBucket(n);
    CrowdIsSearched(s, n);
    s := FillsPage(s, 0, key, f);
    s := FillsPage(s, 1, key, g);
  }
}
