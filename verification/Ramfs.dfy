/** Files kept in memory as a list of 4 KiB blocks. */
module Ramfs {
  import opened Common

  const BLOCK_SIZE: nat := 4096
  const MAX_BLOCKS: nat := 256

  function ZeroBlock(): (s: Bytes) ensures |s| == BLOCK_SIZE { seq(BLOCK_SIZE, _ => 0) }

  /** Byte `p` of the file is where its block has it. */
  ghost predicate SeesBlock(blocks: seq<Bytes>, flat: Bytes, p: nat) {
    p < |flat| ==>
      && p / BLOCK_SIZE < |blocks| && |blocks[p / BLOCK_SIZE]| == BLOCK_SIZE
      && flat[p] == blocks[p / BLOCK_SIZE][p % BLOCK_SIZE]
  }

  /** How much of the next `n` bytes lies in the block of `pos`. */
  function Chunk(pos: nat, n: nat): (r: nat)
    requires n > 0
    ensures 0 < r <= n && pos % BLOCK_SIZE + r <= BLOCK_SIZE
  {
    Min(BLOCK_SIZE - pos % BLOCK_SIZE, n)
  }

  /** `s` with `data` written at `at`. */
  function Overwrite(s: Bytes, at: nat, data: Bytes): (r: Bytes)
    requires at + |data| <= |s|
    ensures |r| == |s|
    ensures forall p :: 0 <= p < |s| ==> r[p] == if at <= p < at + |data| then data[p - at] else s[p]
  {
    s[..at] + data + s[at + |data|..]
  }

  lemma SameBlock(pos: nat, p: nat, n: nat)
    requires pos % BLOCK_SIZE + n <= BLOCK_SIZE
    ensures pos <= p < pos + n
      <==> p / BLOCK_SIZE == pos / BLOCK_SIZE && pos % BLOCK_SIZE <= p % BLOCK_SIZE < pos % BLOCK_SIZE + n
    ensures pos <= p < pos + n ==> p - pos == p % BLOCK_SIZE - pos % BLOCK_SIZE
  {
  }

  lemma InBlocks(pos: nat, n: nat)
    ensures pos / BLOCK_SIZE < n <==> pos < BLOCK_SIZE * n
  {
  }

  class File {
    var blocks: seq<Bytes>
    var size: nat
    ghost var flat: Bytes

    ghost predicate Valid()
      reads this
    {
      && |blocks| <= MAX_BLOCKS && |flat| == BLOCK_SIZE * |blocks|
      && (forall b :: 0 <= b < |blocks| ==> |blocks[b]| == BLOCK_SIZE)
      && (forall p: nat :: SeesBlock(blocks, flat, p))
    }

    constructor ()
      ensures Valid() && size == 0 && flat == []
    {
      blocks, size, flat := [], 0, [];
    }

    /** How many bytes a read gets: up to the size, and up to the blocks. */
    ghost function Readable(offset: nat, n: nat): nat
      reads this
    {
      if offset >= size || offset >= |flat| then 0 else Min(n, Min(size, |flat|) - offset)
    }

    method Read(dst: array<Byte>, offset: nat) returns (done: nat)
      requires Valid()
      modifies dst
      ensures done == Readable(offset, dst.Length)
      ensures done > 0 ==> dst[..done] == flat[offset..offset + done]
      ensures forall i :: done <= i < dst.Length ==> dst[i] == old(dst[i])
    {
      if offset >= size { return 0; }
      var toRead := Min(dst.Length, size - offset);
      done := 0;
      while done < toRead
        invariant 0 <= done <= toRead && (done > 0 ==> offset + done <= |flat|)
        invariant forall i :: 0 <= i < done ==> dst[i] == flat[offset + i]
        invariant forall i :: done <= i < dst.Length ==> dst[i] == old(dst[i])
      {
        var fpos := offset + done;
        InBlocks(fpos, |blocks|);
        if fpos / BLOCK_SIZE >= |blocks| { break; }
        assert SeesBlock(blocks, flat, fpos);
        var chunk := Chunk(fpos, toRead - done);
        ChunkFits(fpos, chunk, |blocks|);
        CopyOut(dst, done, fpos, chunk);
        done := done + chunk;
      }
    }

    /** Copies one run of bytes of one block. */
    method CopyOut(dst: array<Byte>, at: nat, pos: nat, n: nat)
      requires Valid() && at + n <= dst.Length && pos + n <= |flat| && pos % BLOCK_SIZE + n <= BLOCK_SIZE && n > 0
      modifies dst
      ensures forall i :: at <= i < at + n ==> dst[i] == flat[pos + (i - at)]
      ensures forall i :: 0 <= i < dst.Length && !(at <= i < at + n) ==> dst[i] == old(dst[i])
    {
      assert SeesBlock(blocks, flat, pos);
      var blk, bof := blocks[pos / BLOCK_SIZE], pos % BLOCK_SIZE;
      forall i | at <= i < at + n { dst[i] := blk[bof + (i - at)]; }
      forall i | at <= i < at + n ensures dst[i] == flat[pos + (i - at)] {
        assert SeesBlock(blocks, flat, pos + (i - at));
        SameBlock(pos, pos + (i - at), n);
      }
    }

    /** What a write leaves: the file grown by zero blocks as far as allowed, with the bytes that fit. */
    ghost function Grown(offset: nat, n: nat): (s: Bytes)
      reads this
      requires Valid()
      ensures |s| == BLOCK_SIZE * GrownBlocks(|blocks|, offset + n)
      ensures forall p :: 0 <= p < |s| ==> s[p] == if p < |flat| then flat[p] else 0
    {
      flat + seq(BLOCK_SIZE * (GrownBlocks(|blocks|, offset + n) - |blocks|), _ => 0)
    }

    method Write(buf: Bytes, offset: nat) returns (done: nat)
      requires Valid()
      modifies this
      ensures Valid() && |blocks| == GrownBlocks(old(|blocks|), offset + |buf|)
      ensures done == if offset >= |flat| then 0 else Min(|buf|, |flat| - offset)
      ensures done > 0 ==> flat == Overwrite(old(Grown(offset, |buf|)), offset, buf[..done])
      ensures done == 0 ==> flat == old(Grown(offset, |buf|))
      ensures size == Max(old(size), offset + |buf|)
    {
      var end := offset + |buf|;
      Grow(end);
      done := CopyAll(buf, offset);
      if end > size { size := end; }
    }

    /** Adds zeroed blocks up to `end`, or up to the limit. */
    method Grow(end: nat)
      requires Valid()
      modifies this`blocks, this`flat
      ensures Valid() && |blocks| == GrownBlocks(old(|blocks|), end)
      ensures flat == old(Grown(0, end))
    {
      var need := (end + BLOCK_SIZE - 1) / BLOCK_SIZE;
      while |blocks| < need && |blocks| < MAX_BLOCKS
        invariant Valid() && old(|blocks|) <= |blocks| <= Max(old(|blocks|), Min(need, MAX_BLOCKS))
        invariant forall p :: 0 <= p < |flat| ==> flat[p] == if p < old(|flat|) then old(flat)[p] else 0
      {
        AppendBlock();
      }
      assert flat == old(Grown(0, end));
    }

    method AppendBlock()
      requires Valid() && |blocks| < MAX_BLOCKS
      modifies this`blocks, this`flat
      ensures Valid() && |blocks| == old(|blocks|) + 1 && flat == old(flat) + ZeroBlock()
    {
      ghost var blocks0, flat0 := blocks, flat;
      blocks := blocks + [ZeroBlock()];
      flat := flat + ZeroBlock();
      forall p: nat ensures SeesBlock(blocks, flat, p) {
        assert SeesBlock(blocks0, flat0, p);
        InBlocks(p, |blocks0|);
        InBlocks(p, |blocks|);
      }
    }

    /** Copies block by block until the data or the blocks end. */
    method CopyAll(buf: Bytes, offset: nat) returns (done: nat)
      requires Valid()
      modifies this`blocks, this`flat
      ensures Valid() && |blocks| == old(|blocks|)
      ensures done == if offset >= |flat| then 0 else Min(|buf|, |flat| - offset)
      ensures done > 0 ==> flat == Overwrite(old(flat), offset, buf[..done])
      ensures done == 0 ==> flat == old(flat)
    {
      done := 0;
      while done < |buf|
        invariant 0 <= done <= |buf| && (done > 0 ==> offset + done <= |flat|)
        invariant Valid() && |blocks| == old(|blocks|)
        invariant done > 0 ==> flat == Overwrite(old(flat), offset, buf[..done])
        invariant done == 0 ==> flat == old(flat)
      {
        var fpos := offset + done;
        InBlocks(fpos, |blocks|);
        if fpos / BLOCK_SIZE >= |blocks| { break; }
        var chunk := Chunk(fpos, |buf| - done);
        ChunkFits(fpos, chunk, |blocks|);
        OverwriteStep(old(flat), offset, buf, done, chunk);
        CopyIn(buf[done..done + chunk], fpos);
        done := done + chunk;
      }
    }

    /** Copies one run of bytes into one block. */
    method CopyIn(bytes: Bytes, pos: nat)
      requires Valid() && pos + |bytes| <= |flat| && pos % BLOCK_SIZE + |bytes| <= BLOCK_SIZE && bytes != []
      modifies this`blocks, this`flat
      ensures Valid() && |blocks| == old(|blocks|) && flat == Overwrite(old(flat), pos, bytes)
    {
      assert SeesBlock(blocks, flat, pos);
      ghost var blocks0, flat0 := blocks, flat;
      var bi, bof := pos / BLOCK_SIZE, pos % BLOCK_SIZE;
      var blk := blocks[bi];
      blocks := blocks[bi := blk[..bof] + bytes + blk[bof + |bytes|..]];
      flat := Overwrite(flat, pos, bytes);
      forall p: nat ensures SeesBlock(blocks, flat, p) {
        assert SeesBlock(blocks0, flat0, p);
        SameBlock(pos, p, |bytes|);
      }
    }
  }

  /** The number of blocks after a write up to `end`. */
  function GrownBlocks(blocks: nat, end: nat): (r: nat)
    ensures r >= blocks
  {
    Max(blocks, Min((end + BLOCK_SIZE - 1) / BLOCK_SIZE, MAX_BLOCKS))
  }

  lemma OverwriteStep(s: Bytes, at: nat, data: Bytes, n: nat, m: nat)
    requires n + m <= |data| && at + n + m <= |s| && m > 0
    ensures Overwrite(if n == 0 then s else Overwrite(s, at, data[..n]), at + n, data[n..n + m])
      == Overwrite(s, at, data[..n + m])
  {
  }

  lemma ChunkFits(pos: nat, n: nat, blocks: nat)
    requires pos % BLOCK_SIZE + n <= BLOCK_SIZE && pos / BLOCK_SIZE < blocks
    ensures pos + n <= BLOCK_SIZE * blocks
  {
  }
}
