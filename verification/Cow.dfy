/**
 The copy-on-write share table, as a map from tracked frames to share counts.

 A frame that is not in the table has the implicit count 1. The table is split
 into buckets by a multiplicative hash, and a bucket holds a bounded number of
 frames.
 */
module CowSpec {
  import opened Bits

  const COW_BUCKETS: nat := 256
  const COW_BUCKET_CAPACITY: nat := 32
  const U32_MAX: nat := 0xFFFF_FFFF
  const HASH_MULTIPLIER: nat := 0x9e37_79b9_7f4a_7c15
  const TWO_56: nat := 0x100_0000_0000_0000

  /** Physical addresses of 4 KiB frames. */
  type Frame = nat

  type Table = map<Frame, nat>

  /** The 64-bit product of the frame number and the multiplier. */
  function Hash(frame: Frame): (h: nat)
    ensures h < TWO_64
  {
    frame / 4096 * HASH_MULTIPLIER % TWO_64
  }

  /** Its top eight bits. */
  function BucketIndex(frame: Frame): (b: nat)
    ensures b < COW_BUCKETS
  {
    Hash(frame) / TWO_56
  }

  ghost function BucketFrames(t: Table, b: nat): set<Frame> {
    set f | f in t && BucketIndex(f) == b
  }

  ghost predicate HasRoom(t: Table, f: Frame) {
    |BucketFrames(t, BucketIndex(f))| < COW_BUCKET_CAPACITY
  }

  /** The share count of `f`: 1 when it is not tracked. */
  function Count(t: Table, f: Frame): nat {
    if f in t then t[f] else 1
  }

  ghost predicate ValidTable(t: Table) {
    forall f :: f in t ==> 2 <= t[f] <= U32_MAX
  }

  /** `cow_share`: a full bucket silently drops the claim. */
  ghost function Share(t: Table, f: Frame): Table {
    if f in t then t[f := if t[f] < U32_MAX then t[f] + 1 else U32_MAX]
    else if HasRoom(t, f) then t[f := 2]
    else t
  }

  /** The claim of one more sharer is recorded exactly under this condition. */
  ghost predicate CanShare(t: Table, f: Frame) {
    if f in t then t[f] < U32_MAX else HasRoom(t, f)
  }

  /** The table after one claimant of `f` has resolved. */
  function Release(t: Table, f: Frame): Table {
    if f !in t then t
    else if t[f] > 2 then t[f := t[f] - 1]
    else t - {f}
  }

  /** What the resolving claimant is told. */
  predicate Sole(t: Table, f: Frame) {
    f !in t
  }

  /** Sharing raises the count by one if and only if the claim can be recorded. */
  lemma ShareCounts(t: Table, f: Frame)
    requires ValidTable(t)
    ensures ValidTable(Share(t, f))
    ensures Count(Share(t, f), f) == Count(t, f) + 1 <==> CanShare(t, f)
    ensures !CanShare(t, f) ==> Share(t, f) == t
    ensures forall g :: g != f ==> Count(Share(t, f), g) == Count(t, g)
  {
    assert f in t && t[f] == U32_MAX ==> Share(t, f) == t;
  }

  /** Releasing lowers the count by one, unless the caller was the sole claimant. */
  lemma ReleaseCounts(t: Table, f: Frame)
    requires ValidTable(t)
    ensures ValidTable(Release(t, f))
    ensures Count(Release(t, f), f) == if Sole(t, f) then 1 else Count(t, f) - 1
    ensures Sole(t, f) <==> Count(t, f) == 1
    ensures forall g :: g != f ==> Count(Release(t, f), g) == Count(t, g)
  {
  }

  function ReleaseMany(t: Table, f: Frame, n: nat): Table {
    if n == 0 then t else Release(ReleaseMany(t, f, n - 1), f)
  }

  /**
   Of the `Count` claimants of a frame, every one but the last is told that it
   is not alone, and the last is told that it is.
   */
  lemma {:induction false} OnlyTheLastClaimantIsSole(t: Table, f: Frame, n: nat)
    requires ValidTable(t) && n < Count(t, f)
    ensures ValidTable(ReleaseMany(t, f, n))
    ensures Count(ReleaseMany(t, f, n), f) == Count(t, f) - n
    ensures Sole(ReleaseMany(t, f, n), f) <==> n == Count(t, f) - 1
  {
    if n > 0 {
      OnlyTheLastClaimantIsSole(t, f, n - 1);
    }
  }

  /** Sharing and then releasing a frame restores the table. */
  lemma ShareThenRelease(t: Table, f: Frame)
    requires ValidTable(t) && CanShare(t, f)
    ensures Release(Share(t, f), f) == t
  {
    assert f !in t ==> t[f := 2] - {f} == t;
  }

  // How the hash spreads frames

  /** `d` frames further on, the hash has moved by the hash of `d` frames. */
  lemma HashMoves(f: Frame, d: nat)
    ensures var h := Hash(f) + Hash(4096 * d); Hash(f + 4096 * d) == if h < TWO_64 then h else h - TWO_64
  {
    var k, m := f / 4096, HASH_MULTIPLIER;
    assert (f + 4096 * d) / 4096 == k + d && 4096 * d / 4096 == d;
    var q := k * m / TWO_64 + d * m / TWO_64;
    var h := Hash(f) + Hash(4096 * d);
    assert (k + d) * m == k * m + d * m == TWO_64 * q + h;
    if h < TWO_64 {
      DivModUnique((k + d) * m, TWO_64, q, h);
    } else {
      DivModUnique((k + d) * m, TWO_64, q + 1, h - TWO_64);
    }
  }

  /** From a frame to the next, the bucket moves on by 158 or 159 of the 256; frame 0 is in bucket 0. */
  lemma NextBucket(f: Frame)
    ensures BucketIndex(0) == 0
    ensures (BucketIndex(f + 4096) - BucketIndex(f)) % COW_BUCKETS in {0x9e, 0x9f}
  {
    HashMoves(f, 1);
    assert Hash(4096 * 1) == HASH_MULTIPLIER;
  }

  /** The distance at which two frames can first share a bucket. */
  const MIN_GAP: nat := 144

  /** A hash that is not near 0 on the circle of 64-bit words. */
  predicate IsFar(h: nat) { TWO_56 <= h <= TWO_64 - TWO_56 }

  /**
   Below 144, no multiple of the multiplier comes near a multiple of 2^64: 55/89 and 89/144 are
   neighbours among the best approximations of multiplier / 2^64, one from each side.
   */
  lemma FarFromWords(d: nat, e: int)
    requires 1 <= d < MIN_GAP
    ensures d * HASH_MULTIPLIER - e * TWO_64 >= TWO_56 || e * TWO_64 - d * HASH_MULTIPLIER >= TWO_56
  {
    var above, below := 89 * HASH_MULTIPLIER - 55 * TWO_64, 89 * TWO_64 - 144 * HASH_MULTIPLIER;
    assert above >= TWO_56 && below > 0;
    var u, v := 89 * d - 144 * e, 89 * e - 55 * d;
    assert d == 89 * u + 144 * v;
    assert d * HASH_MULTIPLIER - e * TWO_64 == u * above - v * below;
    assert (u >= 1 && v <= 0) || (u <= -1 && v >= 1);
  }

  lemma NearIsFar(d: nat)
    requires 1 <= d < MIN_GAP
    ensures IsFar(Hash(4096 * d))
  {
    assert 4096 * d / 4096 == d;
    var e := d * HASH_MULTIPLIER / TWO_64;
    FarFromWords(d, e);
    FarFromWords(d, e + 1);
  }

  /** Frames less than 144 apart are in different buckets. */
  lemma NearFramesApart(f: Frame, d: nat)
    requires 1 <= d < MIN_GAP
    ensures BucketIndex(f + 4096 * d) != BucketIndex(f)
  {
    NearIsFar(d);
    HashMoves(f, d);
  }

  /** There are frames 144 apart in one bucket. */
  lemma GapIsTight() returns (f: Frame)
    ensures BucketIndex(f + 4096 * MIN_GAP) == BucketIndex(f)
  {
    f := 4096 * 13;
    assert BucketIndex(4096 * 13) == 8 && BucketIndex(4096 * 157) == 8;
  }

  /** Numbers that are `g` apart, in a range. */
  lemma {:induction false} SparseSet(s: set<nat>, lo: nat, hi: nat, g: nat)
    requires g > 0 && lo <= hi && forall x :: x in s ==> lo <= x < hi
    requires forall x, y :: x in s && y in s && x < y ==> x + g <= y
    ensures |s| * g <= hi - lo + g - 1
    decreases hi - lo
  {
    if lo == hi {
      assert s == {};
    } else if hi - 1 in s {
      var rest := s - {hi - 1};
      if hi < lo + g {
        assert rest == {};
      } else {
        SparseSet(rest, lo, hi - g, g);
      }
      assert |s| == |rest| + 1;
    } else {
      SparseSet(s, lo, hi - 1, g);
    }
  }

  /** The table after sharing `n` consecutive frames from `f` on. */
  ghost function ShareRun(f: Frame, n: nat): Table {
    if n == 0 then map[] else Share(ShareRun(f, n - 1), f + 4096 * (n - 1))
  }

  predicate InRun(g: Frame, f: Frame, n: nat) {
    f <= g < f + 4096 * n && (g - f) % 4096 == 0
  }

  lemma SameBucketIsFar(f: Frame, n: nat, x: Frame, y: Frame)
    requires InRun(x, f, n) && InRun(y, f, n) && x < y && BucketIndex(x) == BucketIndex(y)
    ensures x + 4096 * MIN_GAP <= y
  {
    var d := (y - f) / 4096 - (x - f) / 4096;
    assert y == x + 4096 * d;
    if d < MIN_GAP { NearFramesApart(x, d); }
  }

  /** A run of fewer than 32 * 144 frames leaves room for the next one. */
  lemma RunLeavesRoom(t: Table, f: Frame, n: nat)
    requires n < COW_BUCKET_CAPACITY * MIN_GAP && forall g :: g in t ==> InRun(g, f, n)
    ensures HasRoom(t, f + 4096 * n)
  {
    var last := f + 4096 * n;
    var s := BucketFrames(t, BucketIndex(last));
    forall x | x in s ensures x + 4096 * MIN_GAP <= last { SameBucketIsFar(f, n + 1, x, last); }
    forall x, y | x in s && y in s && x < y ensures x + 4096 * MIN_GAP <= y { SameBucketIsFar(f, n, x, y); }
    if s != {} {
      var x :| x in s;
      assert f <= x;
      SparseSet(s, f, last - 4096 * MIN_GAP + 1, 4096 * MIN_GAP);
    }
  }

  /** Sharing up to 4608 consecutive frames, from the empty table, records every claim. */
  lemma {:induction false} RunIsRecorded(f: Frame, n: nat)
    requires n <= COW_BUCKET_CAPACITY * MIN_GAP
    ensures forall g: nat :: g in ShareRun(f, n) <==> InRun(g, f, n)
    ensures forall g: nat :: Count(ShareRun(f, n), g) == if InRun(g, f, n) then 2 else 1
  {
    if n > 0 {
      RunIsRecorded(f, n - 1);
      RunLeavesRoom(ShareRun(f, n - 1), f, n - 1);
      forall g: nat ensures InRun(g, f, n) <==> InRun(g, f, n - 1) || g == f + 4096 * (n - 1) {
        RunGrows(g, f, n - 1);
      }
    }
  }

  lemma RunGrows(g: Frame, f: Frame, n: nat)
    ensures InRun(g, f, n + 1) <==> InRun(g, f, n) || g == f + 4096 * n
  {
  }
}

/** The bucket arrays behind the share table; each method is one critical section. */
module CowTable {
  import opened Common
  import opened CowSpec

  datatype CowEntry = CowEntry(frame: Frame, refcount: nat)

  type Slot = Option<CowEntry>

  /** A row of slots with distinct frames is full exactly when it holds as many frames as slots. */
  lemma {:induction false} RowLoad(row: seq<Slot>, frames: set<Frame>)
    requires forall i :: 0 <= i < |row| && row[i].Some? ==> row[i].value.frame in frames
    requires forall f :: f in frames ==> exists i :: 0 <= i < |row| && row[i].Some? && row[i].value.frame == f
    requires forall i, j :: 0 <= i < j < |row| && row[i].Some? && row[j].Some? ==>
                              row[i].value.frame != row[j].value.frame
    ensures |frames| <= |row|
    ensures |frames| == |row| <==> forall i :: 0 <= i < |row| ==> row[i].Some?
  {
    if row == [] {
      assert frames == {};
    } else {
      var last := row[|row| - 1];
      var rest := row[..|row| - 1];
      var others := if last.Some? then frames - {last.value.frame} else frames;
      forall f | f in others
        ensures exists i :: 0 <= i < |rest| && rest[i].Some? && rest[i].value.frame == f
      {
        var i :| 0 <= i < |row| && row[i].Some? && row[i].value.frame == f;
        assert rest[i] == row[i];
      }
      RowLoad(rest, others);
      assert forall i :: 0 <= i < |rest| ==> rest[i] == row[i];
    }
  }

  class CowTable {
    const entries: array2<Slot>
    ghost var table: Table

    ghost predicate Valid()
      reads this, entries
    {
      && entries.Length0 == COW_BUCKETS
      && entries.Length1 == COW_BUCKET_CAPACITY
      && ValidTable(table)
      && (forall b, i :: 0 <= b < COW_BUCKETS && 0 <= i < COW_BUCKET_CAPACITY && entries[b, i].Some? ==>
            && BucketIndex(entries[b, i].value.frame) == b
            && entries[b, i].value.frame in table
            && table[entries[b, i].value.frame] == entries[b, i].value.refcount)
      && (forall f :: f in table ==> Tracks(f))
      && (forall b, i, j :: 0 <= b < COW_BUCKETS && 0 <= i < j < COW_BUCKET_CAPACITY
                            && entries[b, i].Some? && entries[b, j].Some? ==>
            entries[b, i].value.frame != entries[b, j].value.frame)
    }

    /** Some slot of the bucket of `f` holds `f`. */
    ghost predicate Tracks(f: Frame)
      reads this, entries
    {
      && entries.Length0 == COW_BUCKETS
      && entries.Length1 == COW_BUCKET_CAPACITY
      && exists i :: 0 <= i < COW_BUCKET_CAPACITY && Holds(BucketIndex(f), i, f)
    }

    predicate Holds(b: nat, i: nat, f: Frame)
      requires b < entries.Length0 && i < entries.Length1
      reads entries
    {
      entries[b, i].Some? && entries[b, i].value.frame == f
    }

    constructor ()
      ensures Valid() && table == map[] && fresh(entries)
    {
      entries := new Slot[COW_BUCKETS, COW_BUCKET_CAPACITY]((i, j) => None);
      table := map[];
    }

    /** The bucket of `f` has a free slot exactly when the table has room for `f`. */
    lemma FreeSlotMeansRoom(f: Frame)
      requires Valid()
      ensures HasRoom(table, f) <==>
              exists i :: 0 <= i < COW_BUCKET_CAPACITY && entries[BucketIndex(f), i].None?
    {
      var b := BucketIndex(f);
      var row := seq(COW_BUCKET_CAPACITY, i requires 0 <= i < COW_BUCKET_CAPACITY reads this, entries =>
        if entries.Length0 == COW_BUCKETS && entries.Length1 == COW_BUCKET_CAPACITY then entries[b, i] else None);
      forall g | g in BucketFrames(table, b)
        ensures exists i :: 0 <= i < |row| && row[i].Some? && row[i].value.frame == g
      {
        var i :| 0 <= i < COW_BUCKET_CAPACITY && Holds(b, i, g);
        assert row[i] == entries[b, i];
      }
      RowLoad(row, BucketFrames(table, b));
      if i :| 0 <= i < COW_BUCKET_CAPACITY && entries[b, i].None? {
        assert row[i].None?;
      }
    }

    /**
     The scan of a bucket in `cow_share`: the slot that tracks `frame`, or else the
     first free slot.
     */
    method Scan(frame: Frame) returns (found: Option<nat>, freeSlot: Option<nat>)
      requires Valid()
      ensures found.Some? <==> frame in table
      ensures found.Some? ==> found.value < COW_BUCKET_CAPACITY && Holds(BucketIndex(frame), found.value, frame)
      ensures found.None? ==> (freeSlot.Some? <==> HasRoom(table, frame))
      ensures freeSlot.Some? ==>
                && freeSlot.value < COW_BUCKET_CAPACITY
                && entries[BucketIndex(frame), freeSlot.value].None?
                && forall j :: 0 <= j < freeSlot.value ==> entries[BucketIndex(frame), j].Some?
    {
      var b := BucketIndex(frame);
      freeSlot := None;
      for idx := 0 to COW_BUCKET_CAPACITY
        invariant forall j :: 0 <= j < idx ==> !Holds(b, j, frame)
        invariant freeSlot.None? ==> forall j :: 0 <= j < idx ==> entries[b, j].Some?
        invariant freeSlot.Some? ==>
                    && freeSlot.value < idx && entries[b, freeSlot.value].None?
                    && forall j :: 0 <= j < freeSlot.value ==> entries[b, j].Some?
      {
        match entries[b, idx]
        case Some(entry) =>
          if entry.frame == frame {
            return Some(idx), freeSlot;
          }
        case None =>
          if freeSlot.None? {
            freeSlot := Some(idx);
          }
      }
      FreeSlotMeansRoom(frame);
      found := None;
    }

    /** `cow_share`. */
    method Share(frame: Frame)
      requires Valid()
      modifies this, entries
      ensures Valid()
      ensures table == CowSpec.Share(old(table), frame)
    {
      var b := BucketIndex(frame);
      var found, freeSlot := Scan(frame);
      if found.Some? {
        var refcount := entries[b, found.value].value.refcount;
        Store(b, found.value, CowEntry(frame, if refcount < U32_MAX then refcount + 1 else U32_MAX));
      } else if freeSlot.Some? {
        Store(b, freeSlot.value, CowEntry(frame, 2));
      }
    }

    /** Write an entry for its frame, into its own slot or into a free one. */
    method Store(b: nat, i: nat, entry: CowEntry)
      requires Valid()
      requires b == BucketIndex(entry.frame) && i < COW_BUCKET_CAPACITY
      requires 2 <= entry.refcount <= U32_MAX
      requires Holds(b, i, entry.frame) || (entries[b, i].None? && entry.frame !in table)
      modifies this, entries
      ensures Valid() && table == old(table)[entry.frame := entry.refcount]
    {
      entries[b, i] := Some(entry);
      table := table[entry.frame := entry.refcount];
      forall f | f in table
        ensures Tracks(f)
      {
        if f == entry.frame {
          assert Holds(b, i, f);
        } else {
          var j :| 0 <= j < COW_BUCKET_CAPACITY && old(Holds(BucketIndex(f), j, f));
          assert Holds(BucketIndex(f), j, f);
        }
      }
    }

    /** Clear the slot that tracks `frame`. */
    method Clear(b: nat, i: nat, frame: Frame)
      requires Valid()
      requires b == BucketIndex(frame) && i < COW_BUCKET_CAPACITY && Holds(b, i, frame)
      modifies this, entries
      ensures Valid() && table == old(table) - {frame}
    {
      entries[b, i] := None;
      table := table - {frame};
      forall f | f in table
        ensures Tracks(f)
      {
        var j :| 0 <= j < COW_BUCKET_CAPACITY && old(Holds(BucketIndex(f), j, f));
        assert Holds(BucketIndex(f), j, f);
      }
    }

    /** `cow_refcount`. */
    method Refcount(frame: Frame) returns (n: nat)
      requires Valid()
      ensures n == Count(table, frame)
    {
      var b := BucketIndex(frame);
      for i := 0 to COW_BUCKET_CAPACITY
        invariant forall j :: 0 <= j < i ==> !Holds(b, j, frame)
      {
        if Holds(b, i, frame) {
          return entries[b, i].value.refcount;
        }
      }
      assert frame !in table;
      return 1;
    }

    /**
     The critical section of `cow_release` and `cow_resolve`: drop one claim on
     `frame` and report whether the caller was its only claimant.
     */
    method Resolve(frame: Frame) returns (sole: bool)
      requires Valid()
      modifies this, entries
      ensures Valid()
      ensures table == Release(old(table), frame)
      ensures sole <==> Sole(old(table), frame)
    {
      var b := BucketIndex(frame);
      for i := 0 to COW_BUCKET_CAPACITY
        invariant Valid() && table == old(table)
        invariant forall j :: 0 <= j < i ==> !Holds(b, j, frame)
      {
        if Holds(b, i, frame) {
          var entry := entries[b, i].value;
          if entry.refcount > 2 {
            Store(b, i, entry.(refcount := entry.refcount - 1));
          } else {
            Clear(b, i, frame);
          }
          return false;
        }
      }
      assert frame !in table;
      return true;
    }
  }
}
