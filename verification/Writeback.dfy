/** Filling cache pages from a file, and writing dirty pages back to it. */
module Writeback {
  import opened Common
  import opened Ramfs

  type Frame = int

  const FILE_LIMIT: nat := MAX_BLOCKS * BLOCK_SIZE

  datatype Entry = Entry(vnode: nat, offset: nat, frame: Frame, dirty: bool)

  type Buckets = seq<seq<Option<Entry>>>

  /** The file's bytes of one page, zeros after the end. */
  ghost function PageOf(file: File, offset: nat): (s: Bytes)
    reads file
    requires file.Valid()
    ensures |s| == PAGE_SIZE
  {
    var n := file.Readable(offset, PAGE_SIZE);
    (if n > 0 then file.flat[offset..offset + n] else []) + seq(PAGE_SIZE - n, _ => 0)
  }

  method FillPage(file: File, offset: nat, dst: array<Byte>) returns (n: nat)
    requires file.Valid() && dst.Length == PAGE_SIZE
    modifies dst
    ensures n == file.Readable(offset, PAGE_SIZE) && dst[..] == PageOf(file, offset)
  {
    n := file.Read(dst, offset);
    forall i | n <= i < dst.Length { dst[i] := 0; }
  }

  // Writing back

  predicate IsDirty(buckets: Buckets, vnode: nat, b: int, i: int) {
    0 <= b < |buckets| && 0 <= i < |buckets[b]| && buckets[b][i].Some?
    && buckets[b][i].value.vnode == vnode && buckets[b][i].value.dirty
  }

  /** Page-aligned offsets, and one entry per page of the file. */
  ghost predicate IsCache(buckets: Buckets, vnode: nat, frames: map<Frame, Bytes>) {
    && (forall b, i :: IsDirty(buckets, vnode, b, i) ==>
      var e := buckets[b][i].value; e.offset % PAGE_SIZE == 0 && e.frame in frames && |frames[e.frame]| == PAGE_SIZE)
    && (forall b, i, c, j :: SamePage(buckets, vnode, b, i, c, j) ==> b == c && i == j)
  }

  predicate SamePage(buckets: Buckets, vnode: nat, b: int, i: int, c: int, j: int) {
    && IsDirty(buckets, vnode, b, i) && IsDirty(buckets, vnode, c, j)
    && buckets[b][i].value.offset == buckets[c][j].value.offset
  }

  /** The byte lies in the entry's page and before the end of the file. */
  predicate Covers(e: Entry, size: nat, p: int) {
    e.offset <= p < e.offset + PAGE_SIZE && p < size
  }

  /** The file's bytes under the entry's page are the page's, as far as a file can have blocks. */
  ghost predicate IsFlushed(e: Entry, frames: map<Frame, Bytes>, flat: Bytes, size: nat) {
    && e.frame in frames && |frames[e.frame]| == PAGE_SIZE
    && (forall p :: Covers(e, size, p) && 0 <= p < FILE_LIMIT ==> p < |flat|)
    && (forall p :: Covers(e, size, p) && 0 <= p < |flat| ==> flat[p] == frames[e.frame][p - e.offset])
  }

  /** The byte at `p`, where blocks that a file does not have count as zeros. */
  function ByteAt(flat: Bytes, p: nat): Byte { if p < |flat| then flat[p] else 0 }

  /** Slots up to slot `ni` of bucket `nb`, in the order of the loops. */
  predicate Before(b: int, i: int, nb: int, ni: int) {
    b < nb || (b == nb && i < ni)
  }

  ghost predicate Untouched(was: Buckets, vnode: nat, nb: int, ni: int, size: nat, p: int) {
    forall b, i :: IsDirty(was, vnode, b, i) && Before(b, i, nb, ni) ==> !Covers(was[b][i].value, size, p)
  }

  /** What the loops have done to the file so far. */
  ghost predicate FlushedUpTo(was: Buckets, vnode: nat, frames: map<Frame, Bytes>, nb: int, ni: int, flat0: Bytes,
                              flat: Bytes, size: nat) {
    && |flat0| <= |flat|
    && (forall b, i ::
          IsDirty(was, vnode, b, i) && Before(b, i, nb, ni) ==> IsFlushed(was[b][i].value, frames, flat, size))
    && (forall p :: 0 <= p < |flat| && Untouched(was, vnode, nb, ni, size, p) ==> flat[p] == ByteAt(flat0, p))
  }

  function Clean(e: Option<Entry>, vnode: nat): Option<Entry> {
    if e.Some? && e.value.vnode == vnode then Some(e.value.(dirty := false)) else e
  }

  /** What the loops have done to the cache so far. */
  ghost predicate CleanUpTo(was: Buckets, now: Buckets, vnode: nat, nb: int, ni: int) {
    && |now| == |was|
    && (forall b :: 0 <= b < |was| ==> |now[b]| == |was[b]|)
    && (forall b, i :: 0 <= b < |was| && 0 <= i < |was[b]| ==>
      now[b][i] == if Before(b, i, nb, ni) then Clean(was[b][i], vnode) else was[b][i])
  }

  /** Pages of different entries do not overlap. */
  lemma PagesApart(e: Entry, f: Entry, size: nat, p: int)
    requires e.offset % PAGE_SIZE == 0 && f.offset % PAGE_SIZE == 0 && e.offset != f.offset
    ensures !(Covers(e, size, p) && Covers(f, size, p))
  {
  }

  /** Writing one more page. */
  lemma FlushStep(was: Buckets, vnode: nat, frames: map<Frame, Bytes>, b: int, i: int, flat0: Bytes, flat: Bytes,
                  size: nat, flat': Bytes)
    requires IsCache(was, vnode, frames) && IsDirty(was, vnode, b, i)
    requires FlushedUpTo(was, vnode, frames, b, i, flat0, flat, size) && |flat| <= |flat'| <= FILE_LIMIT
    requires IsFlushed(was[b][i].value, frames, flat', size)
    requires forall p :: 0 <= p < |flat'| && !Covers(was[b][i].value, size, p) ==> flat'[p] == ByteAt(flat, p)
    ensures FlushedUpTo(was, vnode, frames, b, i + 1, flat0, flat', size)
  {
    var e := was[b][i].value;
    forall c, j | IsDirty(was, vnode, c, j) && Before(c, j, b, i + 1)
      ensures IsFlushed(was[c][j].value, frames, flat', size)
    {
      if c != b || j != i {
        var f := was[c][j].value;
        assert !SamePage(was, vnode, b, i, c, j);
        assert IsFlushed(f, frames, flat, size);
        forall p | Covers(f, size, p) && 0 <= p < |flat'| ensures flat'[p] == frames[f.frame][p - f.offset] {
          PagesApart(e, f, size, p);
        }
      }
    }
    forall p | 0 <= p < |flat'| && Untouched(was, vnode, b, i + 1, size, p) ensures flat'[p] == ByteAt(flat0, p) {
      assert Before(b, i, b, i + 1) && !Covers(e, size, p);
      assert Untouched(was, vnode, b, i, size, p);
    }
  }

  /** A slot that holds no dirty page of the file. */
  lemma SkipStep(was: Buckets, vnode: nat, frames: map<Frame, Bytes>, b: int, i: int, flat0: Bytes, flat: Bytes,
                 size: nat)
    requires FlushedUpTo(was, vnode, frames, b, i, flat0, flat, size)
    requires IsDirty(was, vnode, b, i) ==>
      var e := was[b][i].value; e.offset >= size && e.frame in frames && |frames[e.frame]| == PAGE_SIZE
    ensures FlushedUpTo(was, vnode, frames, b, i + 1, flat0, flat, size)
  {
    forall p | 0 <= p < |flat| && Untouched(was, vnode, b, i + 1, size, p) ensures flat[p] == ByteAt(flat0, p) {
      assert Untouched(was, vnode, b, i, size, p);
    }
  }

  class Cache {
    var buckets: Buckets

    /** Writes every dirty page of the file back, no further than the end of the file, and clears its dirty bit. */
    method WritebackVnode(file: File, vnode: nat, frames: map<Frame, Bytes>)
      requires file.Valid() && IsCache(buckets, vnode, frames)
      modifies this, file
      ensures file.Valid() && file.size == old(file.size)
      ensures FlushedUpTo(old(buckets), vnode, frames, |buckets|, 0, old(file.flat), file.flat, file.size)
      ensures CleanUpTo(old(buckets), buckets, vnode, |buckets|, 0)
    {
      var b := 0;
      while b < |buckets|
        invariant 0 <= b <= |buckets| && file.Valid() && file.size == old(file.size)
        invariant FlushedUpTo(old(buckets), vnode, frames, b, 0, old(file.flat), file.flat, file.size)
        invariant CleanUpTo(old(buckets), buckets, vnode, b, 0)
      {
        WritebackBucket(file, vnode, frames, b, old(buckets), old(file.flat));
        b := b + 1;
      }
    }

    method WritebackBucket(file: File, vnode: nat, frames: map<Frame, Bytes>, b: nat, ghost was: Buckets,
                           ghost flat0: Bytes)
      requires file.Valid() && IsCache(was, vnode, frames) && b < |buckets|
      requires FlushedUpTo(was, vnode, frames, b, 0, flat0, file.flat, file.size)
      requires CleanUpTo(was, buckets, vnode, b, 0)
      modifies this, file
      ensures file.Valid() && file.size == old(file.size) && |buckets| == old(|buckets|)
      ensures FlushedUpTo(was, vnode, frames, b + 1, 0, flat0, file.flat, file.size)
      ensures CleanUpTo(was, buckets, vnode, b + 1, 0)
    {
      var i := 0;
      while i < |buckets[b]|
        invariant 0 <= i && b < |buckets| == old(|buckets|) && i <= |buckets[b]| == |was[b]|
        invariant file.Valid() && file.size == old(file.size)
        invariant FlushedUpTo(was, vnode, frames, b, i, flat0, file.flat, file.size)
        invariant CleanUpTo(was, buckets, vnode, b, i)
        decreases |was[b]| - i
      {
        WritebackSlot(file, vnode, frames, b, i, was, flat0);
        i := i + 1;
      }
      NextBucket(was, vnode, frames, b, flat0, file.flat, file.size);
    }

    method WritebackSlot(file: File, vnode: nat, frames: map<Frame, Bytes>, b: nat, i: nat, ghost was: Buckets,
                         ghost flat0: Bytes)
      requires file.Valid() && IsCache(was, vnode, frames) && b < |buckets| && i < |buckets[b]|
      requires FlushedUpTo(was, vnode, frames, b, i, flat0, file.flat, file.size)
      requires CleanUpTo(was, buckets, vnode, b, i)
      modifies this, file
      ensures file.Valid() && file.size == old(file.size) && |buckets| == old(|buckets|)
      ensures FlushedUpTo(was, vnode, frames, b, i + 1, flat0, file.flat, file.size)
      ensures CleanUpTo(was, buckets, vnode, b, i + 1)
    {
      var slot := buckets[b][i];
      assert slot == was[b][i];
      if slot.None? || slot.value.vnode != vnode || !slot.value.dirty {
        SkipStep(was, vnode, frames, b, i, flat0, file.flat, file.size);
        return;
      }
      assert IsDirty(was, vnode, b, i);
      var e := slot.value;
      if e.offset >= file.size {
        SkipStep(was, vnode, frames, b, i, flat0, file.flat, file.size);
      } else {
        var len := Min(file.size - e.offset, PAGE_SIZE);
        ghost var flat := file.flat;
        WriteInside(file, frames[e.frame][..len], e.offset);
        assert IsFlushed(e, frames, file.flat, file.size);
        FlushStep(was, vnode, frames, b, i, flat0, flat, file.size, file.flat);
      }
      buckets := buckets[b := buckets[b][i := Some(e.(dirty := false))]];
    }
  }

  /** A write before the end leaves the size; it adds the blocks that it needs, as far as a file can have them. */
  method WriteInside(file: File, bytes: Bytes, offset: nat)
    requires file.Valid() && bytes != [] && offset + |bytes| <= file.size
    modifies file
    ensures file.Valid() && file.size == old(file.size) && old(|file.flat|) <= |file.flat|
    ensures Min(offset + |bytes|, FILE_LIMIT) <= |file.flat| <= FILE_LIMIT
    ensures forall p :: 0 <= p < |file.flat| ==>
      file.flat[p] == if offset <= p < offset + |bytes| then bytes[p - offset] else ByteAt(old(file.flat), p)
  {
    HasBlocks(|file.blocks|, offset + |bytes|);
    var n := file.Write(bytes, offset);
  }

  lemma HasBlocks(blocks: nat, end: nat)
    ensures Min(end, FILE_LIMIT) <= BLOCK_SIZE * GrownBlocks(blocks, end)
  {
  }

  lemma NextBucket(was: Buckets, vnode: nat, frames: map<Frame, Bytes>, b: nat, flat0: Bytes, flat: Bytes, size: nat)
    requires b < |was| && FlushedUpTo(was, vnode, frames, b, |was[b]|, flat0, flat, size)
    ensures FlushedUpTo(was, vnode, frames, b + 1, 0, flat0, flat, size)
  {
    forall p | 0 <= p < |flat| && Untouched(was, vnode, b + 1, 0, size, p) ensures flat[p] == ByteAt(flat0, p) {
      assert Untouched(was, vnode, b, |was[b]|, size, p);
    }
  }

  /**
   After a writeback, the file holds each dirty page up to its end and as far as it can have blocks,
   every byte under no dirty page is as it was, and no page of the file is dirty.
   */
  lemma WritebackIsExact(was: Buckets, now: Buckets, vnode: nat, frames: map<Frame, Bytes>, flat0: Bytes, flat: Bytes,
                         size: nat)
    requires FlushedUpTo(was, vnode, frames, |was|, 0, flat0, flat, size) && CleanUpTo(was, now, vnode, |was|, 0)
    ensures forall b, i :: IsDirty(was, vnode, b, i) ==> IsFlushed(was[b][i].value, frames, flat, size)
    ensures forall b, i :: !IsDirty(now, vnode, b, i)
    ensures forall p | 0 <= p < |flat| ::
      (forall b, i :: IsDirty(was, vnode, b, i) ==> !Covers(was[b][i].value, size, p)) ==> flat[p] == ByteAt(flat0, p)
  {
    forall b, i ensures !IsDirty(now, vnode, b, i) { }
    forall p | 0 <= p < |flat| && (forall b, i :: IsDirty(was, vnode, b, i) ==> !Covers(was[b][i].value, size, p))
      ensures flat[p] == ByteAt(flat0, p)
    {
      assert Untouched(was, vnode, |was|, 0, size, p);
    }
  }
}
