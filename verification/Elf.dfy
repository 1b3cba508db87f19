/** Parsing an executable's program headers and loading its segments. */
module Elf {
  import opened Bits
  import opened Common
  import opened ElfFormat
  import opened UserMemory

  datatype Result<+T> = Ok(value: T) | Err(error: ElfError)

  datatype LoadSegment = LoadSegment(vaddr: nat, filesz: nat, memsz: nat, dataOff: nat, flags: nat)

  datatype ElfInfo = ElfInfo(entry: nat, segments: seq<LoadSegment>)

  /**
   The checks on the file header, in their order; sums are not bounded here, since overflow and
   excess give one error.
   */
  function HeaderError(d: Bytes): (e: Result<()>)
    ensures e.Ok? ==> |d| >= HEADER_SIZE && Field(d, 56, 2) <= MAX_LOAD_SEGMENTS && PhdrAt(d, Field(d, 56, 2)) <= |d|
  {
    if |d| < HEADER_SIZE then Err(TooShort)
    else if d[0..4] != [0x7f, 0x45, 0x4c, 0x46] then Err(BadMagic)
    else if d[4] != 2 then Err(NotElf64)
    else if d[5] != 1 then Err(NotLittleEndian)
    else if Field(d, 16, 2) != 2 then Err(NotExecutable)
    else if Field(d, 18, 2) != 62 then Err(NotX86_64)
    else if Field(d, 54, 2) != PHDR_SIZE then Err(OffsetOutOfBounds)
    else if Field(d, 56, 2) > MAX_LOAD_SEGMENTS then Err(TooManySegments)
    else if PhdrAt(d, Field(d, 56, 2)) > |d| then Err(OffsetOutOfBounds)
    else Ok(())
  }

  /** Where program header `i` starts. */
  function PhdrAt(d: Bytes, i: nat): nat
    requires |d| >= HEADER_SIZE
  {
    Field(d, 32, 8) + i * PHDR_SIZE
  }

  function ReadPhdr(d: Bytes, off: nat): Phdr
    requires off + PHDR_SIZE <= |d|
  {
    Phdr(Field(d, off, 4), Field(d, off + 4, 4), Field(d, off + 8, 8), Field(d, off + 16, 8),
         Field(d, off + 32, 8), Field(d, off + 40, 8), Field(d, off + 48, 8))
  }

  /** The checks on one loadable segment, in their order. */
  function CheckLoad(ph: Phdr, fileLen: nat): Result<LoadSegment> {
    if ph.align < PAGE_SIZE || CountOnes(ph.align) != 1 then Err(BadAlignment)
    else if ph.vaddr >= USER_TOP then Err(SegmentInKernelSpace)
    else if ph.vaddr + ph.memsz > USER_TOP then Err(SegmentInKernelSpace)
    else if ph.memsz < ph.filesz then Err(OffsetOutOfBounds)
    else if ph.offset + ph.filesz > fileLen then Err(OffsetOutOfBounds)
    else if ph.offset < ph.vaddr % PAGE_SIZE then Err(OffsetOutOfBounds)
    else
      var skew := ph.vaddr % PAGE_SIZE;
      Ok(LoadSegment(ph.vaddr - skew, ph.filesz + skew, ph.memsz + skew, ph.offset - skew, ph.flags))
  }

  /** The loadable segments of the program headers from `i` on, or the first error. */
  function Scan(phs: seq<Phdr>, fileLen: nat, i: nat): Result<seq<LoadSegment>>
    requires i <= |phs|
    decreases |phs| - i
  {
    if i == |phs| then Ok([])
    else if phs[i].kind != PT_LOAD then Scan(phs, fileLen, i + 1)
    else
      var seg := CheckLoad(phs[i], fileLen);
      if seg.Err? then Err(seg.error) else Prepend([seg.value], Scan(phs, fileLen, i + 1))
  }

  /** The program headers of a file whose header was accepted. */
  function Phdrs(d: Bytes): (phs: seq<Phdr>)
    requires HeaderError(d).Ok?
    ensures |phs| == Field(d, 56, 2)
    ensures forall i :: 0 <= i < |phs| ==> PhdrAt(d, i) + PHDR_SIZE <= |d| && phs[i] == ReadPhdr(d, PhdrAt(d, i))
  {
    seq(Field(d, 56, 2), i requires 0 <= i < Field(d, 56, 2) => ReadPhdr(d, PhdrAt(d, i)))
  }

  function Parse(d: Bytes): Result<ElfInfo> {
    var h := HeaderError(d);
    if h.Err? then Err(h.error)
    else
      var segs := Scan(Phdrs(d), |d|, 0);
      if segs.Err? then Err(segs.error) else Ok(ElfInfo(Field(d, 24, 8), segs.value))
  }

  /** An executable for this machine whose program headers lie in the file. */
  predicate HeaderOk(d: Bytes) {
    && |d| >= HEADER_SIZE && d[0..4] == [0x7f, 0x45, 0x4c, 0x46] && d[4] == 2 && d[5] == 1
    && Field(d, 16, 2) == 2 && Field(d, 18, 2) == 62 && Field(d, 54, 2) == PHDR_SIZE
    && Field(d, 56, 2) <= MAX_LOAD_SEGMENTS && PhdrAt(d, Field(d, 56, 2)) <= |d|
  }

  /** Header `k` is loadable. */
  predicate IsLoad(phs: seq<Phdr>, k: int) { 0 <= k < |phs| && phs[k].kind == PT_LOAD }

  /** An acceptable file: its header is, and every loadable program header is. */
  ghost predicate Acceptable(d: Bytes) {
    HeaderOk(d) && HeaderError(d).Ok? && forall k :: IsLoad(Phdrs(d), k) ==> CheckLoad(Phdrs(d)[k], |d|).Ok?
  }

  /** How many of the first `n` headers are loadable. */
  function Rank(phs: seq<Phdr>, n: nat): (r: nat)
    requires n <= |phs|
    ensures r <= n
  {
    if n == 0 then 0 else Rank(phs, n - 1) + if phs[n - 1].kind == PT_LOAD then 1 else 0
  }

  /** The segments are those of the loadable headers, in their order. */
  ghost predicate AreSegments(segs: seq<LoadSegment>, phs: seq<Phdr>, fileLen: nat) {
    && |segs| == Rank(phs, |phs|)
    && forall k :: IsLoad(phs, k) ==>
         && Rank(phs, k) < |segs| && CheckLoad(phs[k], fileLen) == Ok(segs[Rank(phs, k)])
         && segs[Rank(phs, k)].flags == phs[k].flags
  }

  // The reader and the format

  lemma SliceReads(d: Bytes, at: nat, s: Bytes, off: nat, n: nat)
    requires at + |s| <= |d| && d[at..at + |s|] == s && off + n <= |s|
    ensures Field(d, at + off, n) == Field(s, off, n)
  {
    var read := d[at + off..at + off + n];
    forall i | 0 <= i < n ensures read[i] == s[off + i] {
      assert d[at..at + |s|][off + i] == d[at + off + i];
    }
    assert s[off..off + n] == read;
  }

  lemma FieldIn(d: Bytes, at: nat, s: Bytes, ws: seq<Word>, k: nat, off: nat)
    requires at + |s| <= |d| && d[at..at + |s|] == s && k < |ws| && HasField(s, ws, k) && off == Place(ws, k)
    ensures at + off + ws[k].width <= |d| && Field(d, at + off, ws[k].width) == ws[k].value
  {
    SliceReads(d, at, s, off, ws[k].width);
  }

  lemma FieldReads(d: Bytes, at: nat, ws: seq<Word>, k: nat, off: nat)
    requires LiesAt(d, at, ws) && WordsFit(ws) && k < |ws| && off == Place(ws, k)
    ensures at + off + ws[k].width <= |d| && Field(d, at + off, ws[k].width) == ws[k].value
  {
    PackedReads(ws, k);
    FieldIn(d, at, Packed(ws), ws, k, off);
  }

  /** A program header is read as it was laid out. */
  lemma PhdrReads(d: Bytes, at: nat, ph: Phdr, paddr: nat)
    requires PhdrLies(d, at, ph, paddr)
    ensures at + PHDR_SIZE <= |d| && ReadPhdr(d, at) == ph
  {
    var ws := PhdrWords(ph, paddr);
    FieldReads(d, at, ws, 0, 0);
    FieldReads(d, at, ws, 1, 4);
    FieldReads(d, at, ws, 2, 8);
    FieldReads(d, at, ws, 3, 16);
    FieldReads(d, at, ws, 5, 32);
    FieldReads(d, at, ws, 6, 40);
    FieldReads(d, at, ws, 7, 48);
  }

  lemma HeaderReads(d: Bytes, h: FileHeader)
    requires StartsWith(d, h)
    ensures |d| >= HEADER_SIZE && d[0..4] == h.ident[..4] && d[4] == h.ident[4] && d[5] == h.ident[5]
    ensures Field(d, 16, 2) == h.kind && Field(d, 18, 2) == h.machine
    ensures Field(d, 24, 8) == h.entry && Field(d, 32, 8) == h.phoff
    ensures Field(d, 54, 2) == h.phentsize && Field(d, 56, 2) == h.phnum
  {
    var ws := HeaderWords(h);
    assert d[0..4] == d[..16][..4] && d[4] == d[..16][4] && d[5] == d[..16][5];
    FieldReads(d, 16, ws, 0, 0);
    FieldReads(d, 16, ws, 1, 2);
    FieldReads(d, 16, ws, 3, 8);
    FieldReads(d, 16, ws, 4, 16);
    LateFieldsRead(d, ws);
  }

  lemma LateFieldsRead(d: Bytes, ws: seq<Word>)
    requires LiesAt(d, 16, ws) && WordsFit(ws) && |ws| == 13 && Place(ws, 6) == 32 && ws[6].width == 4
    requires forall i :: 7 <= i < 13 ==> ws[i].width == 2
    ensures |d| >= HEADER_SIZE && Field(d, 54, 2) == ws[8].value && Field(d, 56, 2) == ws[9].value
  {
    assert Place(ws, 7) == 36 && Place(ws, 8) == 38 && Place(ws, 9) == 40 && Place(ws, 10) == 42;
    assert Place(ws, 11) == 44 && Place(ws, 12) == 46;
    FieldReads(d, 16, ws, 8, 38);
    FieldReads(d, 16, ws, 9, 40);
    FieldReads(d, 16, ws, 12, 46);
  }

  /** A file header is refused with the error of the first check that it fails. */
  lemma HeaderErrorIs(d: Bytes, h: FileHeader)
    requires StartsWith(d, h)
    ensures var f := FirstFailure(HeaderChecks(h, |d|)); HeaderError(d) == if f.Some? then Err(f.value) else Ok(())
  {
    HeaderReads(d, h);
    Unfolds(HeaderChecks(h, |d|));
  }

  /** A loadable header is refused with the error of the first check that it fails. */
  lemma LoadErrorIs(ph: Phdr, fileLen: nat)
    ensures var f := FirstFailure(LoadChecks(ph, fileLen));
      if f.Some? then CheckLoad(ph, fileLen) == Err(f.value) else CheckLoad(ph, fileLen).Ok?
  {
    Unfolds(LoadChecks(ph, fileLen));
    OneBitIsPow2(ph.align);
  }

  lemma {:induction false} ScanErrorIs(phs: seq<Phdr>, fileLen: nat, i: nat)
    requires i <= |phs|
    ensures var f := FirstFailure(PhdrChecks(phs, fileLen, i));
      if f.Some? then Scan(phs, fileLen, i) == Err(f.value) else Scan(phs, fileLen, i).Ok?
    decreases |phs| - i
  {
    if i < |phs| {
      ScanErrorIs(phs, fileLen, i + 1);
      if phs[i].kind == PT_LOAD {
        LoadErrorIs(phs[i], fileLen);
        FailsFirst(LoadChecks(phs[i], fileLen), PhdrChecks(phs, fileLen, i + 1));
      } else {
        FailsFirst([], PhdrChecks(phs, fileLen, i + 1));
      }
    }
  }

  /** The answer of the parser on a file with this header and these program headers. */
  ghost predicate ParsedAs(r: Result<ElfInfo>, d: Bytes, h: FileHeader, phs: seq<Phdr>)
    requires |h.ident| == 16
  {
    var f := FileError(d, h, phs);
    if f.Some? then r == Err(f.value)
    else r.Ok? && r.value.entry == h.entry && AreSegments(r.value.segments, phs, |d|)
  }

  lemma PhdrsAre(d: Bytes, h: FileHeader, phs: seq<Phdr>, paddrs: seq<nat>)
    requires StartsWith(d, h) && HasPhdrs(d, h, phs, paddrs) && HeaderError(d).Ok?
    ensures Phdrs(d) == phs
  {
    HeaderReads(d, h);
    forall k | 0 <= k < |phs| ensures Phdrs(d)[k] == phs[k] {
      PhdrReads(d, h.phoff + 56 * k, phs[k], paddrs[k]);
    }
  }

  lemma ParseIsParsed(d: Bytes, h: FileHeader, phs: seq<Phdr>, paddrs: seq<nat>)
    requires IsFile(d, h, phs, paddrs)
    ensures ParsedAs(Parse(d), d, h, phs)
    ensures Parse(d).Ok? ==> HeaderError(d).Ok? && Phdrs(d) == phs
  {
    HeaderErrorIs(d, h);
    FailsFirst(HeaderChecks(h, |d|), PhdrChecks(phs, |d|, 0));
    if HeaderError(d).Ok? {
      PhdrsAre(d, h, phs, paddrs);
      HeaderReads(d, h);
      ScanErrorIs(phs, |d|, 0);
      if Scan(phs, |d|, 0).Ok? { ScanIsSegments(phs, |d|); }
    }
  }

  /** Every file that is long enough holds some header, and one whose header passes some program headers. */
  lemma EveryFileIs(d: Bytes) returns (h: FileHeader, phs: seq<Phdr>, paddrs: seq<nat>)
    requires |d| >= HEADER_SIZE
    ensures IsFile(d, h, phs, paddrs)
  {
    h := HeaderOf(d);
    phs, paddrs := [], [];
    if FirstFailure(HeaderChecks(h, |d|)).None? {
      HeaderErrorIs(d, h);
      phs, paddrs := PhdrsOf(d, h);
    }
  }

  lemma PhdrsOf(d: Bytes, h: FileHeader) returns (phs: seq<Phdr>, paddrs: seq<nat>)
    requires StartsWith(d, h) && HeaderError(d).Ok?
    ensures HasPhdrs(d, h, phs, paddrs)
  {
    HeaderReads(d, h);
    phs := Phdrs(d);
    paddrs := seq(|phs|, i requires 0 <= i < |phs| => Field(d, PhdrAt(d, i) + 24, 8));
    forall k | 0 <= k < |phs| ensures PhdrLies(d, h.phoff + 56 * k, phs[k], paddrs[k]) {
      PhdrIsLaidOut(d, h.phoff + 56 * k);
    }
  }

  /** A record that is read field by field lies there. */
  lemma ReadIsLaidOut(d: Bytes, at: nat, ws: seq<Word>)
    requires at + Width(ws) <= |d|
    requires forall k :: 0 <= k < |ws| ==> IsRead(d, at, ws, k)
    ensures LiesAt(d, at, ws) && WordsFit(ws)
  {
    var s := d[at..at + Width(ws)];
    forall k | 0 <= k < |ws| ensures HasField(s, ws, k) {
      ReadIsField(d, at, s, ws, k);
    }
    ReadsPacked(s, ws);
  }

  lemma ReadIsField(d: Bytes, at: nat, s: Bytes, ws: seq<Word>, k: nat)
    requires |s| == Width(ws) && at + |s| <= |d| && d[at..at + |s|] == s && k < |ws| && IsRead(d, at, ws, k)
    ensures HasField(s, ws, k)
  {
    SliceReads(d, at, s, Place(ws, k), ws[k].width);
  }

  predicate IsRead(d: Bytes, at: nat, ws: seq<Word>, k: nat)
    requires at + Width(ws) <= |d| && k < |ws|
  {
    && Place(ws, k) + ws[k].width <= Width(ws)
    && Field(d, at + Place(ws, k), ws[k].width) == ws[k].value
  }

  lemma PhdrIsLaidOut(d: Bytes, at: nat)
    requires at + PHDR_SIZE <= |d|
    ensures PhdrLies(d, at, ReadPhdr(d, at), Field(d, at + 24, 8))
  {
    var ws := PhdrWords(ReadPhdr(d, at), Field(d, at + 24, 8));
    assert Place(ws, 1) == 4 && Place(ws, 2) == 8 && Place(ws, 3) == 16 && Place(ws, 4) == 24 && Place(ws, 5) == 32;
    assert Place(ws, 6) == 40 && Place(ws, 7) == 48;
    WidthIsPlace(ws);
    ReadIsLaidOut(d, at, ws);
  }

  lemma HeaderOf(d: Bytes) returns (h: FileHeader)
    requires |d| >= HEADER_SIZE
    ensures StartsWith(d, h)
  {
    h := FileHeader(d[..16], Field(d, 16, 2), Field(d, 18, 2), Field(d, 20, 4), Field(d, 24, 8), Field(d, 32, 8),
      Field(d, 40, 8), Field(d, 48, 4), Field(d, 52, 2), Field(d, 54, 2), Field(d, 56, 2), Field(d, 58, 2),
      Field(d, 60, 2), Field(d, 62, 2));
    var ws := HeaderWords(h);
    assert Place(ws, 1) == 2 && Place(ws, 2) == 4 && Place(ws, 3) == 8 && Place(ws, 4) == 16 && Place(ws, 5) == 24;
    assert Place(ws, 6) == 32 && Place(ws, 7) == 36 && Place(ws, 8) == 38 && Place(ws, 9) == 40;
    assert Place(ws, 10) == 42 && Place(ws, 11) == 44 && Place(ws, 12) == 46;
    WidthIsPlace(ws);
    ReadIsLaidOut(d, 16, ws);
  }

  /**
   A file is parsed if and only if it is acceptable, and then has one segment for each loadable
   header, in their order; otherwise the first check that fails gives the error.
   */
  method ParseElf(d: Bytes) returns (r: Result<ElfInfo>)
    ensures r.Ok? <==> Acceptable(d)
    ensures r.Ok? ==> r.value.entry == Field(d, 24, 8) && AreSegments(r.value.segments, Phdrs(d), |d|)
    ensures r == Parse(d)
    ensures |d| < HEADER_SIZE ==> r == Err(TooShort)
    ensures forall h, phs, paddrs :: IsFile(d, h, phs, paddrs) ==> ParsedAs(r, d, h, phs)
  {
    forall h, phs, paddrs | IsFile(d, h, phs, paddrs) ensures ParsedAs(Parse(d), d, h, phs) {
      ParseIsParsed(d, h, phs, paddrs);
    }
    var h := HeaderError(d);
    if h.Err? { return Err(h.error); }
    var segs := ScanPhdrs(Phdrs(d), |d|);
    ScanAcceptsIff(Phdrs(d), |d|, 0);
    if segs.Err? { return Err(segs.error); }
    ScanIsSegments(Phdrs(d), |d|);
    return Ok(ElfInfo(Field(d, 24, 8), segs.value));
  }

  lemma {:induction false} RankGrows(phs: seq<Phdr>, i: nat, n: nat)
    requires i <= n <= |phs|
    ensures Rank(phs, i) <= Rank(phs, n)
    ensures i < n && phs[i].kind == PT_LOAD ==> Rank(phs, i) < Rank(phs, n)
    decreases n - i
  {
    if i < n { RankGrows(phs, i + 1, n); }
  }

  lemma {:induction false} ScanRank(phs: seq<Phdr>, fileLen: nat, i: nat, k: nat)
    requires i <= k <= |phs| && Scan(phs, fileLen, i).Ok? && Rank(phs, i) <= Rank(phs, k) <= Rank(phs, |phs|)
    ensures |Scan(phs, fileLen, i).value| == Rank(phs, |phs|) - Rank(phs, i)
    ensures k < |phs| && phs[k].kind == PT_LOAD ==>
      var j := Rank(phs, k) - Rank(phs, i);
      j < |Scan(phs, fileLen, i).value| && CheckLoad(phs[k], fileLen) == Ok(Scan(phs, fileLen, i).value[j])
    decreases |phs| - i
  {
    if i < |phs| {
      var k' := if i < k then k else i + 1;
      RankGrows(phs, i + 1, k');
      RankGrows(phs, k', |phs|);
      ScanRank(phs, fileLen, i + 1, k');
    }
  }

  lemma ScanIsSegments(phs: seq<Phdr>, fileLen: nat)
    requires Scan(phs, fileLen, 0).Ok?
    ensures AreSegments(Scan(phs, fileLen, 0).value, phs, fileLen)
  {
    RankGrows(phs, 0, |phs|);
    ScanRank(phs, fileLen, 0, |phs|);
    forall k | IsLoad(phs, k)
      ensures Rank(phs, k) < |Scan(phs, fileLen, 0).value|
      ensures CheckLoad(phs[k], fileLen) == Ok(Scan(phs, fileLen, 0).value[Rank(phs, k)])
    {
      RankGrows(phs, 0, k);
      RankGrows(phs, k, |phs|);
      ScanRank(phs, fileLen, 0, k);
    }
  }

  /** The parser's loop over the program headers; there is room for every segment. */
  method ScanPhdrs(phs: seq<Phdr>, fileLen: nat) returns (r: Result<seq<LoadSegment>>)
    requires |phs| <= MAX_LOAD_SEGMENTS
    ensures r == Scan(phs, fileLen, 0)
  {
    var segments: seq<LoadSegment> := [];
    var idx := 0;
    PrependNone(Scan(phs, fileLen, 0));
    while idx < |phs|
      invariant 0 <= idx <= |phs| && |segments| <= idx
      invariant Scan(phs, fileLen, 0) == Prepend(segments, Scan(phs, fileLen, idx))
    {
      if phs[idx].kind == PT_LOAD {
        assert |segments| < MAX_LOAD_SEGMENTS;
        var seg := CheckLoad(phs[idx], fileLen);
        if seg.Err? { return Err(seg.error); }
        PrependTwice(segments, [seg.value], Scan(phs, fileLen, idx + 1));
        segments := segments + [seg.value];
      }
      idx := idx + 1;
    }
    assert segments + [] == segments;
    return Ok(segments);
  }

  function Prepend(segs: seq<LoadSegment>, rest: Result<seq<LoadSegment>>): Result<seq<LoadSegment>> {
    if rest.Err? then rest else Ok(segs + rest.value)
  }

  lemma PrependNone(rest: Result<seq<LoadSegment>>)
    ensures Prepend([], rest) == rest
  {
    if rest.Ok? { assert [] + rest.value == rest.value; }
  }

  lemma PrependTwice(a: seq<LoadSegment>, b: seq<LoadSegment>, rest: Result<seq<LoadSegment>>)
    ensures Prepend(a, Prepend(b, rest)) == Prepend(a + b, rest)
  {
    if rest.Ok? { assert a + (b + rest.value) == (a + b) + rest.value; }
  }

  /** What the parser guarantees of a segment. */
  predicate IsLoadable(seg: LoadSegment, fileLen: nat) {
    && seg.vaddr % PAGE_SIZE == 0 && seg.filesz <= seg.memsz
    && seg.dataOff + seg.filesz <= fileLen
    && seg.vaddr + seg.memsz <= USER_TOP
  }

  lemma CheckedIsLoadable(ph: Phdr, fileLen: nat)
    requires CheckLoad(ph, fileLen).Ok?
    ensures IsLoadable(CheckLoad(ph, fileLen).value, fileLen)
  {
  }

  /** Every accepted segment comes from a loadable program header and stays inside the file and the user half. */
  lemma {:induction false} AcceptedSegment(phs: seq<Phdr>, fileLen: nat, i: nat, j: nat) returns (k: nat)
    requires i <= |phs| && Scan(phs, fileLen, i).Ok? && j < |Scan(phs, fileLen, i).value|
    ensures i <= k < |phs| && phs[k].kind == PT_LOAD && CheckLoad(phs[k], fileLen) == Ok(Scan(phs, fileLen, i).value[j])
    ensures IsLoadable(Scan(phs, fileLen, i).value[j], fileLen)
    decreases |phs| - i
  {
    if phs[i].kind == PT_LOAD && j == 0 {
      k := i;
      CheckedIsLoadable(phs[i], fileLen);
    } else {
      k := AcceptedSegment(phs, fileLen, i + 1, if phs[i].kind == PT_LOAD then j - 1 else j);
    }
  }

  /** A file is accepted exactly when its header and every loadable program header are. */
  lemma {:induction false} ScanAcceptsIff(phs: seq<Phdr>, fileLen: nat, i: nat)
    requires i <= |phs|
    ensures Scan(phs, fileLen, i).Ok?
      <==> forall k :: i <= k < |phs| && phs[k].kind == PT_LOAD ==> CheckLoad(phs[k], fileLen).Ok?
    decreases |phs| - i
  {
    if i < |phs| { ScanAcceptsIff(phs, fileLen, i + 1); }
  }

  // Loading

  function AlignUp(x: nat): nat { (x + PAGE_SIZE - 1) / PAGE_SIZE * PAGE_SIZE }

  /** The byte that the segment puts at address `a`. */
  function SegmentByte(seg: LoadSegment, d: Bytes, a: nat): Byte
    requires IsLoadable(seg, |d|) && seg.vaddr <= a
  {
    if a - seg.vaddr < seg.filesz then d[seg.dataOff + (a - seg.vaddr)] else 0
  }

  /** The page at `virt`: the file's bytes as far as they go, then zeros. */
  function PageBytes(seg: LoadSegment, d: Bytes, virt: nat): (s: Bytes)
    requires IsLoadable(seg, |d|) && seg.vaddr <= virt
    ensures |s| == PAGE_SIZE
    ensures forall i :: 0 <= i < PAGE_SIZE ==> s[i] == SegmentByte(seg, d, virt + i)
  {
    seq<Byte>(PAGE_SIZE, i requires 0 <= i < PAGE_SIZE => SegmentByte(seg, d, virt + i))
  }

  /** The pages that the segment takes. */
  lemma SegmentPages(seg: LoadSegment, fileLen: nat) returns (lo: nat, hi: nat)
    requires IsLoadable(seg, fileLen)
    ensures lo <= hi && seg.vaddr == lo * PAGE_SIZE && AlignUp(seg.vaddr + seg.memsz) == hi * PAGE_SIZE
    ensures forall p: nat :: InSegment(seg, p) <==> lo <= p < hi
    ensures hi * PAGE_SIZE <= USER_TOP
  {
    lo, hi := seg.vaddr / PAGE_SIZE, AlignUp(seg.vaddr + seg.memsz) / PAGE_SIZE;
  }

  /** The pages of a user address space, by page number. */
  class UserPages {
    var pages: map<nat, Bytes>

    /** Maps zeroed pages over the segment and copies the file's bytes into them. */
    method MapSegment(seg: LoadSegment, d: Bytes)
      requires IsLoadable(seg, |d|)
      modifies this
      ensures forall p: nat :: p in pages <==> p in old(pages) || InSegment(seg, p)
      ensures forall p: nat :: InSegment(seg, p) ==> p in pages && pages[p] == PageBytes(seg, d, p * PAGE_SIZE)
      ensures forall p: nat :: p in old(pages) && !InSegment(seg, p) ==> pages[p] == old(pages)[p]
      ensures forall p: nat :: InSegment(seg, p) ==> (p + 1) * PAGE_SIZE <= USER_TOP
    {
      var mapEnd := AlignUp(seg.vaddr + seg.memsz);
      var virt := seg.vaddr;
      ghost var lo, hi := SegmentPages(seg, |d|);
      ghost var n := lo;
      while virt < mapEnd
        invariant lo <= n <= hi && virt == n * PAGE_SIZE
        invariant forall p: nat :: p in pages <==> p in old(pages) || lo <= p < n
        invariant forall p: nat :: lo <= p < n ==> p in pages && pages[p] == PageBytes(seg, d, p * PAGE_SIZE)
        invariant forall p: nat :: p in old(pages) && !(lo <= p < n) ==> p in pages && pages[p] == old(pages)[p]
      {
        var page := FillSegmentPage(seg, d, virt);
        pages := pages[virt / PAGE_SIZE := page];
        virt := virt + PAGE_SIZE;
        n := n + 1;
      }
    }

    /** Parses the file and maps its segments one after another; a file that is not acceptable maps nothing. */
    method LoadElf(d: Bytes) returns (r: Result<ElfInfo>)
      modifies this
      ensures r.Ok? <==> Acceptable(d)
      ensures r.Err? ==> pages == old(pages)
      ensures r.Ok? ==> r.value.entry == Field(d, 24, 8) && Loaded(old(pages), pages, Phdrs(d), d)
      ensures forall h, phs, paddrs :: IsFile(d, h, phs, paddrs) ==>
        ParsedAs(r, d, h, phs) && (r.Ok? ==> Loaded(old(pages), pages, phs, d))
    {
      forall h, phs, paddrs | IsFile(d, h, phs, paddrs)
        ensures Parse(d).Ok? ==> HeaderError(d).Ok? && Phdrs(d) == phs
      {
        ParseIsParsed(d, h, phs, paddrs);
      }
      r := ParseElf(d);
      if r.Err? { return; }
      var segs := r.value.segments;
      SegmentsAreLoadable(segs, Phdrs(d), d);
      var i := 0;
      while i < |segs|
        invariant 0 <= i <= |segs| && AfterSegments(old(pages), pages, segs, d, i)
      {
        ghost var before := pages;
        MapSegment(segs[i], d);
        NextSegment(old(pages), before, pages, segs, d, i);
        i := i + 1;
      }
      LoadedByHeaders(old(pages), pages, segs, Phdrs(d), d);
    }
  }

  // Segments that share pages

  ghost predicate AllLoadable(segs: seq<LoadSegment>, d: Bytes) {
    forall j :: 0 <= j < |segs| ==> IsLoadable(segs[j], |d|)
  }

  /** The page after the first `n` segments: the last of them that covers it decides. */
  ghost function PageAfter(before: Option<Bytes>, segs: seq<LoadSegment>, d: Bytes, n: nat, p: nat): Option<Bytes>
    requires n <= |segs| && AllLoadable(segs, d)
  {
    if n == 0 then before
    else if InSegment(segs[n - 1], p) then Some(PageBytes(segs[n - 1], d, p * PAGE_SIZE))
    else PageAfter(before, segs, d, n - 1, p)
  }

  function PageAt(pages: map<nat, Bytes>, p: nat): Option<Bytes> {
    if p in pages then Some(pages[p]) else None
  }

  ghost predicate AfterSegments(before: map<nat, Bytes>, now: map<nat, Bytes>, segs: seq<LoadSegment>, d: Bytes,
                                n: nat) {
    && n <= |segs| && AllLoadable(segs, d)
    && forall p: nat :: PageAt(now, p) == PageAfter(PageAt(before, p), segs, d, n, p)
  }

  lemma NextSegment(before: map<nat, Bytes>, mid: map<nat, Bytes>, now: map<nat, Bytes>, segs: seq<LoadSegment>,
                    d: Bytes, n: nat)
    requires n < |segs| && AfterSegments(before, mid, segs, d, n)
    requires forall p: nat :: p in now <==> p in mid || InSegment(segs[n], p)
    requires forall p: nat :: InSegment(segs[n], p) ==> p in now && now[p] == PageBytes(segs[n], d, p * PAGE_SIZE)
    requires forall p: nat :: p in mid && !InSegment(segs[n], p) ==> now[p] == mid[p]
    ensures AfterSegments(before, now, segs, d, n + 1)
  {
    forall p: nat ensures PageAt(now, p) == PageAfter(PageAt(before, p), segs, d, n + 1, p) {
      assert PageAt(mid, p) == PageAfter(PageAt(before, p), segs, d, n, p);
    }
  }

  /** Loadable header `k` covers page `p`. */
  predicate Covers(phs: seq<Phdr>, k: int, p: nat) {
    IsLoad(phs, k) && phs[k].vaddr / PAGE_SIZE <= p < AlignUp(phs[k].vaddr + phs[k].memsz) / PAGE_SIZE
  }

  /** Header `k` is the last that covers page `p`. */
  ghost predicate CoversLast(phs: seq<Phdr>, k: int, p: nat) {
    Covers(phs, k, p) && forall j :: k < j ==> !Covers(phs, j, p)
  }

  /** The page as header `k` has it loaded. */
  function HeaderPage(ph: Phdr, d: Bytes, p: nat): Bytes
    requires CheckLoad(ph, |d|).Ok? && ph.vaddr / PAGE_SIZE <= p
  {
    CheckedIsLoadable(ph, |d|);
    PageBytes(CheckLoad(ph, |d|).value, d, p * PAGE_SIZE)
  }

  /** Each page is as the last header that covers it says, and pages that none covers are as before. */
  ghost predicate Loaded(before: map<nat, Bytes>, now: map<nat, Bytes>, phs: seq<Phdr>, d: Bytes) {
    && (forall k :: IsLoad(phs, k) ==> CheckLoad(phs[k], |d|).Ok?)
    && (forall k, p: nat :: CoversLast(phs, k, p) ==> PageAt(now, p) == Some(HeaderPage(phs[k], d, p)))
    && (forall p: nat :: (forall k :: !Covers(phs, k, p)) ==> PageAt(now, p) == PageAt(before, p))
  }

  lemma SegmentsAreLoadable(segs: seq<LoadSegment>, phs: seq<Phdr>, d: Bytes)
    requires AreSegments(segs, phs, |d|)
    ensures AllLoadable(segs, d)
  {
    forall j | 0 <= j < |segs| ensures IsLoadable(segs[j], |d|) {
      var k := HeaderOfSegment(phs, |phs|, j);
      CheckedIsLoadable(phs[k], |d|);
    }
  }

  lemma {:induction false} HeaderOfSegment(phs: seq<Phdr>, n: nat, j: nat) returns (k: nat)
    requires n <= |phs| && j < Rank(phs, n)
    ensures k < n && IsLoad(phs, k) && Rank(phs, k) == j
  {
    if phs[n - 1].kind == PT_LOAD && j == Rank(phs, n - 1) { k := n - 1; } else { k := HeaderOfSegment(phs, n - 1, j); }
  }

  /** What header `n` does to the page. */
  lemma HeaderStep(before: Option<Bytes>, segs: seq<LoadSegment>, phs: seq<Phdr>, d: Bytes, n: nat, p: nat)
    requires n < |phs| && AreSegments(segs, phs, |d|) && AllLoadable(segs, d) && Rank(phs, n + 1) <= |segs|
    ensures !Covers(phs, n, p) ==>
      PageAfter(before, segs, d, Rank(phs, n + 1), p) == PageAfter(before, segs, d, Rank(phs, n), p)
    ensures Covers(phs, n, p) ==>
      && CheckLoad(phs[n], |d|).Ok?
      && PageAfter(before, segs, d, Rank(phs, n + 1), p) == Some(HeaderPage(phs[n], d, p))
  {
    if IsLoad(phs, n) { SameCover(phs, n, |d|, p); }
  }

  lemma SameCover(phs: seq<Phdr>, k: nat, fileLen: nat, p: nat)
    requires IsLoad(phs, k) && CheckLoad(phs[k], fileLen).Ok?
    ensures InSegment(CheckLoad(phs[k], fileLen).value, p) <==> Covers(phs, k, p)
  {
  }

  /** The segments of the first `n` headers leave the page alone, if none covers it. */
  lemma {:induction false} UncoveredPage(before: Option<Bytes>, segs: seq<LoadSegment>, phs: seq<Phdr>, d: Bytes,
                                         n: nat,
                                         p: nat)
    requires n <= |phs| && AreSegments(segs, phs, |d|) && AllLoadable(segs, d) && Rank(phs, n) <= |segs|
    requires forall k :: 0 <= k < n ==> !Covers(phs, k, p)
    ensures PageAfter(before, segs, d, Rank(phs, n), p) == before
  {
    if n > 0 {
      UncoveredPage(before, segs, phs, d, n - 1, p);
      HeaderStep(before, segs, phs, d, n - 1, p);
    }
  }

  /** They leave it as the last of them that covers it says. */
  lemma {:induction false} CoveredPage(before: Option<Bytes>, segs: seq<LoadSegment>, phs: seq<Phdr>, d: Bytes, n: nat,
                                       p: nat, k: nat)
    requires n <= |phs| && AreSegments(segs, phs, |d|) && AllLoadable(segs, d) && Rank(phs, n) <= |segs|
    requires k < n && Covers(phs, k, p) && forall j :: k < j < n ==> !Covers(phs, j, p)
    ensures CheckLoad(phs[k], |d|).Ok? && PageAfter(before, segs, d, Rank(phs, n), p) == Some(HeaderPage(phs[k], d, p))
  {
    HeaderStep(before, segs, phs, d, n - 1, p);
    if k < n - 1 { CoveredPage(before, segs, phs, d, n - 1, p, k); }
  }

  lemma LoadedByHeaders(before: map<nat, Bytes>, now: map<nat, Bytes>, segs: seq<LoadSegment>, phs: seq<Phdr>, d: Bytes)
    requires AreSegments(segs, phs, |d|) && AfterSegments(before, now, segs, d, |segs|)
    ensures Loaded(before, now, phs, d)
  {
    forall k, p: nat | CoversLast(phs, k, p) ensures PageAt(now, p) == Some(HeaderPage(phs[k], d, p)) {
      CoveredPage(PageAt(before, p), segs, phs, d, |phs|, p, k);
    }
    forall p: nat | forall k :: !Covers(phs, k, p) ensures PageAt(now, p) == PageAt(before, p) {
      UncoveredPage(PageAt(before, p), segs, phs, d, |phs|, p);
    }
  }

  /** What header `ph` says of address `a`: a byte of the file, or zero after those. */
  function HeaderByte(ph: Phdr, d: Bytes, a: nat): Byte
    requires CheckLoad(ph, |d|).Ok? && ph.vaddr <= a
  {
    if a < ph.vaddr + ph.filesz then d[ph.offset + (a - ph.vaddr)] else 0
  }

  /** What loading header `ph` puts at address `a` of one of its pages, inside its range or not. */
  function PutByte(ph: Phdr, d: Bytes, a: nat): Byte
    requires CheckLoad(ph, |d|).Ok? && ph.vaddr / PAGE_SIZE <= a / PAGE_SIZE
  {
    HeaderPage(ph, d, a / PAGE_SIZE)[a % PAGE_SIZE]
  }

  lemma {:induction false} LastCover(phs: seq<Phdr>, n: nat, p: nat, k: nat) returns (j: nat)
    requires n <= |phs| && k < n && Covers(phs, k, p)
    ensures k <= j < n && Covers(phs, j, p) && forall i :: j < i < n ==> !Covers(phs, i, p)
  {
    if Covers(phs, n - 1, p) { j := n - 1; } else { j := LastCover(phs, n - 1, p, k); }
  }

  lemma RangeIsCovered(phs: seq<Phdr>, d: Bytes, k: nat, a: nat)
    requires IsLoad(phs, k) && CheckLoad(phs[k], |d|).Ok? && phs[k].vaddr <= a < phs[k].vaddr + phs[k].memsz
    ensures Covers(phs, k, a / PAGE_SIZE) && PutByte(phs[k], d, a) == HeaderByte(phs[k], d, a)
  {
    LoadedRangeReads(phs[k], d, CheckLoad(phs[k], |d|).value, a);
    SameCover(phs, k, |d|, a / PAGE_SIZE);
  }

  /**
   An address of a header's range reads as that header says, if and only if the last header that
   covers its page puts that byte there.
   */
  lemma RangeReadsIff(before: map<nat, Bytes>, now: map<nat, Bytes>, phs: seq<Phdr>, d: Bytes, k: nat, a: nat)
    returns (j: nat)
    requires Loaded(before, now, phs, d) && IsLoad(phs, k) && phs[k].vaddr <= a < phs[k].vaddr + phs[k].memsz
    ensures k <= j && CoversLast(phs, j, a / PAGE_SIZE) && a / PAGE_SIZE in now && |now[a / PAGE_SIZE]| == PAGE_SIZE
    ensures now[a / PAGE_SIZE][a % PAGE_SIZE] == HeaderByte(phs[k], d, a)
      <==> PutByte(phs[j], d, a) == HeaderByte(phs[k], d, a)
    ensures j == k ==> now[a / PAGE_SIZE][a % PAGE_SIZE] == HeaderByte(phs[k], d, a)
  {
    RangeIsCovered(phs, d, k, a);
    j := LastCover(phs, |phs|, a / PAGE_SIZE, k);
    assert CoversLast(phs, j, a / PAGE_SIZE);
    assert PageAt(now, a / PAGE_SIZE) == Some(HeaderPage(phs[j], d, a / PAGE_SIZE));
  }

  /** A later header that keeps file and memory in step, and whose file bytes reach the address, puts the same byte. */
  lemma InStepAgrees(ph: Phdr, later: Phdr, d: Bytes, a: nat)
    requires CheckLoad(ph, |d|).Ok? && CheckLoad(later, |d|).Ok?
    requires later.vaddr / PAGE_SIZE <= a / PAGE_SIZE
    requires ph.vaddr <= a < ph.vaddr + ph.filesz && a < later.vaddr + later.filesz
    requires ph.offset + later.vaddr == later.offset + ph.vaddr
    ensures PutByte(later, d, a) == HeaderByte(ph, d, a)
  {
    CheckedIsLoadable(later, |d|);
    var seg := CheckLoad(later, |d|).value;
    assert PutByte(later, d, a) == SegmentByte(seg, d, a);
  }

  /** Two headers that share a page, the second out of step with the first: page 0x400 has file page 0, then 1. */
  predicate OutOfStep(phs: seq<Phdr>) {
    && |phs| == 2 && phs[0].kind == PT_LOAD && phs[1].kind == PT_LOAD
    && phs[0].vaddr == 0x40_0000 && phs[0].offset == 0 && phs[0].filesz == phs[0].memsz == 1
    && phs[1].vaddr == 0x40_0800 && phs[1].offset == 0x1800 && phs[1].filesz == phs[1].memsz == 1
  }

  lemma PageAlignment() returns (align: nat)
    ensures align >= PAGE_SIZE && CountOnes(align) == 1
  {
    var k: nat := 12;
    Pow2Values();
    CountOnesOfPow2(k);
    align := Pow2(k);
  }

  /** Such headers are accepted. */
  lemma OutOfStepIsAccepted(fileLen: nat) returns (phs: seq<Phdr>)
    requires fileLen > 0x1800
    ensures OutOfStep(phs) && forall k :: IsLoad(phs, k) ==> CheckLoad(phs[k], fileLen).Ok?
  {
    var align := PageAlignment();
    phs := [Phdr(PT_LOAD, 5, 0, 0x40_0000, 1, 1, align), Phdr(PT_LOAD, 6, 0x1800, 0x40_0800, 1, 1, align)];
  }

  /** The byte of the first is then overwritten, in every file that differs there. */
  lemma SharedPageOverwrites(before: map<nat, Bytes>, now: map<nat, Bytes>, phs: seq<Phdr>, d: Bytes)
    requires OutOfStep(phs) && |d| > 0x1800 && d[0] != d[0x1000] && Loaded(before, now, phs, d)
    ensures var a := 0x40_0000;
      && IsLoad(phs, 0) && phs[0].vaddr <= a < phs[0].vaddr + phs[0].memsz && CheckLoad(phs[0], |d|).Ok?
      && a / PAGE_SIZE in now && |now[a / PAGE_SIZE]| == PAGE_SIZE
      && now[a / PAGE_SIZE][a % PAGE_SIZE] != HeaderByte(phs[0], d, a)
  {
    assert IsLoad(phs, 0) && IsLoad(phs, 1) && Covers(phs, 1, 0x400);
    var j := RangeReadsIff(before, now, phs, d, 0, 0x40_0000);
    assert j == 1;
    assert PutByte(phs[1], d, 0x40_0000) == d[0x1000];
  }

  /** Page `p` overlaps the segment's pages. */
  predicate InSegment(seg: LoadSegment, p: nat) {
    seg.vaddr / PAGE_SIZE <= p < AlignUp(seg.vaddr + seg.memsz) / PAGE_SIZE
  }

  /** One page: zeros, with what the file has for it copied to the front. */
  method FillSegmentPage(seg: LoadSegment, d: Bytes, virt: nat) returns (page: Bytes)
    requires IsLoadable(seg, |d|) && seg.vaddr <= virt
    ensures page == PageBytes(seg, d, virt)
  {
    page := seq(PAGE_SIZE, _ => 0);
    var start := virt - seg.vaddr;
    if start < seg.filesz {
      var n := if PAGE_SIZE < seg.filesz - start then PAGE_SIZE else seg.filesz - start;
      var src := seg.dataOff + start;
      page := d[src..src + n] + page[n..];
    }
  }

  /** After loading, the header's memory range reads as the header's file bytes followed by zeros. */
  lemma LoadedRangeReads(ph: Phdr, d: Bytes, seg: LoadSegment, a: nat)
    requires CheckLoad(ph, |d|) == Ok(seg) && ph.vaddr <= a < ph.vaddr + ph.memsz
    ensures IsLoadable(seg, |d|) && InSegment(seg, a / PAGE_SIZE) && a < USER_TOP
    ensures seg.vaddr <= a / PAGE_SIZE * PAGE_SIZE
    ensures PageBytes(seg, d, a / PAGE_SIZE * PAGE_SIZE)[a % PAGE_SIZE]
      == if a < ph.vaddr + ph.filesz then d[ph.offset + (a - ph.vaddr)] else 0
  {
    CheckedIsLoadable(ph, |d|);
    PageOfAddress(seg, a);
    assert PageBytes(seg, d, a / PAGE_SIZE * PAGE_SIZE)[a % PAGE_SIZE] == SegmentByte(seg, d, a);
  }

  /** The page that holds an address of the segment. */
  lemma PageOfAddress(seg: LoadSegment, a: nat)
    requires seg.vaddr % PAGE_SIZE == 0 && seg.vaddr <= a < seg.vaddr + seg.memsz
    ensures InSegment(seg, a / PAGE_SIZE) && seg.vaddr <= a / PAGE_SIZE * PAGE_SIZE
    ensures a / PAGE_SIZE * PAGE_SIZE + a % PAGE_SIZE == a
  {
  }

  /** Loading segment `j` of an accepted file makes the range of its program header read as that header says. */
  lemma ParsedSegmentLoads(d: Bytes, j: nat) returns (ph: Phdr)
    requires Parse(d).Ok? && j < |Parse(d).value.segments|
    ensures HeaderError(d).Ok? && ph in Phdrs(d) && ph.kind == PT_LOAD
    ensures var seg := Parse(d).value.segments[j];
      && IsLoadable(seg, |d|) && CheckLoad(ph, |d|) == Ok(seg)
      && forall a: nat :: ph.vaddr <= a < ph.vaddr + ph.memsz ==> ReadsAs(seg, ph, d, a)
  {
    var k := AcceptedSegment(Phdrs(d), |d|, 0, j);
    ph := Phdrs(d)[k];
    var seg := Parse(d).value.segments[j];
    forall a: nat | ph.vaddr <= a < ph.vaddr + ph.memsz ensures ReadsAs(seg, ph, d, a) {
      LoadedRangeReads(ph, d, seg, a);
    }
  }

  /** The loaded byte at `a` is the header's file byte, or zero after those; it lies below the top of user memory. */
  ghost predicate ReadsAs(seg: LoadSegment, ph: Phdr, d: Bytes, a: nat)
    requires IsLoadable(seg, |d|) && CheckLoad(ph, |d|) == Ok(seg)
  {
    && InSegment(seg, a / PAGE_SIZE) && a < USER_TOP && seg.vaddr <= a / PAGE_SIZE * PAGE_SIZE && ph.vaddr <= a
    && PageBytes(seg, d, a / PAGE_SIZE * PAGE_SIZE)[a % PAGE_SIZE]
      == if a < ph.vaddr + ph.filesz then d[ph.offset + (a - ph.vaddr)] else 0
  }
}
