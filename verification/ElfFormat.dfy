/** Executables as bytes: the file header and program headers of the System V gABI, and the checks on them. */
module ElfFormat {
  import opened Bits
  import opened Common
  import opened UserMemory

  const HEADER_SIZE: nat := 64
  const PHDR_SIZE: nat := 56
  const MAX_LOAD_SEGMENTS: nat := 8
  const USER_TOP: nat := 0x8000_0000_0000
  const PT_LOAD: nat := 1

  datatype ElfError =
    | TooShort
    | BadMagic
    | NotElf64
    | NotLittleEndian
    | NotExecutable
    | NotX86_64
    | TooManySegments
    | BadAlignment
    | SegmentInKernelSpace
    | OffsetOutOfBounds

  datatype Phdr = Phdr(kind: nat, flags: nat, offset: nat, vaddr: nat, filesz: nat, memsz: nat, align: nat)

  datatype FileHeader = FileHeader(
    ident: Bytes, kind: nat, machine: nat, version: nat, entry: nat, phoff: nat, shoff: nat, flags: nat,
    ehsize: nat, phentsize: nat, phnum: nat, shentsize: nat, shnum: nat, shstrndx: nat)

  // Packed records

  /** The little-endian field of `n` bytes at `off`. */
  function Field(d: Bytes, off: nat, n: nat): nat
    requires off + n <= |d|
  {
    FromLe(d[off..off + n])
  }

  /** A field of a packed record: its value and its width in bytes. */
  datatype Word = Word(value: nat, width: nat)

  predicate WordsFit(ws: seq<Word>) {
    forall i :: 0 <= i < |ws| ==> ws[i].value < Limit(ws[i].width)
  }

  function Width(ws: seq<Word>): nat {
    if ws == [] then 0 else ws[0].width + Width(ws[1..])
  }

  /** The fields one after another, each little-endian. */
  function Packed(ws: seq<Word>): (s: Bytes)
    ensures |s| == Width(ws)
  {
    if ws == [] then [] else ToLe(ws[0].value, ws[0].width) + Packed(ws[1..])
  }

  /** Where field `k` starts: after the fields before it. */
  function Place(ws: seq<Word>, k: nat): nat
    requires k <= |ws|
  {
    if k == 0 then 0 else Place(ws, k - 1) + ws[k - 1].width
  }

  lemma {:induction false} WidthIsPlace(ws: seq<Word>)
    ensures Width(ws) == Place(ws, |ws|)
  {
    if ws != [] {
      WidthIsPlace(ws[1..]);
      PlaceShifts(ws, |ws|);
    }
  }

  lemma {:induction false} PlaceShifts(ws: seq<Word>, k: nat)
    requires 1 <= k <= |ws|
    ensures Place(ws, k) == ws[0].width + Place(ws[1..], k - 1)
  {
    if k > 1 { PlaceShifts(ws, k - 1); }
  }

  lemma SliceAfter(first: Bytes, rest: Bytes, at: nat, n: nat)
    requires at + n <= |rest|
    ensures (first + rest)[|first| + at..|first| + at + n] == rest[at..at + n]
  {
  }

  /** Field `k` is read at its place. */
  predicate HasField(s: Bytes, ws: seq<Word>, k: nat)
    requires k < |ws|
  {
    Place(ws, k) + ws[k].width <= |s| && Field(s, Place(ws, k), ws[k].width) == ws[k].value
  }

  /** A field is read back at its place. */
  lemma {:induction false} PackedReads(ws: seq<Word>, k: nat)
    requires k < |ws| && WordsFit(ws)
    ensures HasField(Packed(ws), ws, k)
  {
    var first, rest := ToLe(ws[0].value, ws[0].width), Packed(ws[1..]);
    if k == 0 {
      assert (first + rest)[0..ws[0].width] == first;
      LeRoundTrip(ws[0].value, ws[0].width);
    } else {
      PackedReads(ws[1..], k - 1);
      PlaceShifts(ws, k);
      SliceAfter(first, rest, Place(ws[1..], k - 1), ws[k].width);
    }
  }

  /** The record lies at `at` in the file. */
  predicate LiesAt(d: Bytes, at: nat, ws: seq<Word>) {
    at + Width(ws) <= |d| && d[at..at + Width(ws)] == Packed(ws)
  }

  /** Bytes that read as the fields say are the packed fields. */
  lemma {:induction false} ReadsPacked(s: Bytes, ws: seq<Word>)
    requires |s| == Width(ws) && forall k :: 0 <= k < |ws| ==> HasField(s, ws, k)
    ensures s == Packed(ws) && WordsFit(ws)
  {
    if ws != [] {
      var first, rest := s[..ws[0].width], s[ws[0].width..];
      assert s == first + rest;
      assert HasField(s, ws, 0);
      LeBack(first);
      forall k | 0 <= k < |ws[1..]| ensures HasField(rest, ws[1..], k) {
        FieldOfRest(first, rest, ws, k);
      }
      ReadsPacked(rest, ws[1..]);
    }
  }

  lemma FieldOfRest(first: Bytes, rest: Bytes, ws: seq<Word>, k: nat)
    requires ws != [] && |first| == ws[0].width && k < |ws[1..]| && HasField(first + rest, ws, k + 1)
    ensures HasField(rest, ws[1..], k)
  {
    PlaceShifts(ws, k + 1);
    SliceAfter(first, rest, Place(ws[1..], k), ws[k + 1].width);
  }

  lemma {:induction false} LeBack(s: Bytes)
    ensures ToLe(FromLe(s), |s|) == s && FromLe(s) < Limit(|s|)
  {
    if s != [] { LeBack(s[1..]); }
  }

  // What a file holds

  function PhdrWords(ph: Phdr, paddr: nat): seq<Word> {
    [Word(ph.kind, 4), Word(ph.flags, 4), Word(ph.offset, 8), Word(ph.vaddr, 8), Word(paddr, 8),
     Word(ph.filesz, 8), Word(ph.memsz, 8), Word(ph.align, 8)]
  }

  /** What follows the 16 identification bytes. */
  function HeaderWords(h: FileHeader): seq<Word> {
    [Word(h.kind, 2), Word(h.machine, 2), Word(h.version, 4), Word(h.entry, 8), Word(h.phoff, 8), Word(h.shoff, 8),
     Word(h.flags, 4), Word(h.ehsize, 2), Word(h.phentsize, 2), Word(h.phnum, 2), Word(h.shentsize, 2),
     Word(h.shnum, 2), Word(h.shstrndx, 2)]
  }

  /** The file starts with the header. */
  predicate StartsWith(d: Bytes, h: FileHeader) {
    && |h.ident| == 16 <= |d| && d[..16] == h.ident
    && LiesAt(d, 16, HeaderWords(h)) && WordsFit(HeaderWords(h))
  }

  /** The program header lies at `at` in the file. */
  predicate PhdrLies(d: Bytes, at: nat, ph: Phdr, paddr: nat) {
    LiesAt(d, at, PhdrWords(ph, paddr)) && WordsFit(PhdrWords(ph, paddr))
  }

  /** The program headers lie in the file one after another, where the file header says. */
  predicate HasPhdrs(d: Bytes, h: FileHeader, phs: seq<Phdr>, paddrs: seq<nat>) {
    && |phs| == |paddrs| == h.phnum
    && forall k :: 0 <= k < |phs| ==> PhdrLies(d, h.phoff + 56 * k, phs[k], paddrs[k])
  }

  /** The file header and, if it passes its checks, the program headers of a file. */
  ghost predicate IsFile(d: Bytes, h: FileHeader, phs: seq<Phdr>, paddrs: seq<nat>) {
    StartsWith(d, h) && (FirstFailure(HeaderChecks(h, |d|)).None? ==> HasPhdrs(d, h, phs, paddrs))
  }

  // The checks

  /** A condition, and the error of a file that does not meet it. */
  datatype Check = Check(passed: bool, error: ElfError)

  /** The checks on a file header, in their order. */
  function HeaderChecks(h: FileHeader, fileLen: nat): seq<Check>
    requires |h.ident| == 16
  {
    [Check(h.ident[..4] == [0x7f, 0x45, 0x4c, 0x46], BadMagic), Check(h.ident[4] == 2, NotElf64),
     Check(h.ident[5] == 1, NotLittleEndian), Check(h.kind == 2, NotExecutable), Check(h.machine == 62, NotX86_64),
     Check(h.phentsize == 56, OffsetOutOfBounds), Check(h.phnum <= 8, TooManySegments),
     Check(h.phoff + 56 * h.phnum <= fileLen, OffsetOutOfBounds)]
  }

  /** The checks on a loadable program header, in their order. */
  ghost function LoadChecks(ph: Phdr, fileLen: nat): seq<Check> {
    [Check(ph.align >= 4096 && IsPow2(ph.align), BadAlignment),
     Check(ph.vaddr < 0x8000_0000_0000, SegmentInKernelSpace),
     Check(ph.vaddr + ph.memsz <= 0x8000_0000_0000, SegmentInKernelSpace),
     Check(ph.filesz <= ph.memsz, OffsetOutOfBounds), Check(ph.offset + ph.filesz <= fileLen, OffsetOutOfBounds),
     Check(ph.vaddr % 4096 <= ph.offset, OffsetOutOfBounds)]
  }

  ghost predicate IsPow2(a: nat) { exists k: nat :: a == Pow2(k) }

  /** The checks on the program headers from `i` on, one header after another. */
  ghost function PhdrChecks(phs: seq<Phdr>, fileLen: nat, i: nat): seq<Check>
    requires i <= |phs|
    decreases |phs| - i
  {
    if i == |phs| then []
    else (if phs[i].kind == 1 then LoadChecks(phs[i], fileLen) else []) + PhdrChecks(phs, fileLen, i + 1)
  }

  /** The error of the first check that fails, if one does. */
  function FirstFailure(checks: seq<Check>): Option<ElfError> {
    if checks == [] then None else if !checks[0].passed then Some(checks[0].error) else FirstFailure(checks[1..])
  }

  /** What is wrong with a file, if something is. */
  ghost function FileError(d: Bytes, h: FileHeader, phs: seq<Phdr>): Option<ElfError>
    requires |h.ident| == 16
  {
    FirstFailure(HeaderChecks(h, |d|) + PhdrChecks(phs, |d|, 0))
  }

  lemma {:induction false} FailsFirst(a: seq<Check>, b: seq<Check>)
    ensures FirstFailure(a + b) == if FirstFailure(a).Some? then FirstFailure(a) else FirstFailure(b)
  {
    if a == [] {
      assert a + b == b;
    } else {
      assert (a + b)[1..] == a[1..] + b;
      FailsFirst(a[1..], b);
    }
  }

  /** The first failure among six to eight checks. */
  lemma Unfolds(c: seq<Check>)
    requires 6 <= |c| <= 8
    ensures FirstFailure(c) ==
      if !c[0].passed then Some(c[0].error) else if !c[1].passed then Some(c[1].error)
      else if !c[2].passed then Some(c[2].error) else if !c[3].passed then Some(c[3].error)
      else if !c[4].passed then Some(c[4].error) else if !c[5].passed then Some(c[5].error)
      else if |c| > 6 && !c[6].passed then Some(c[6].error) else if |c| > 7 && !c[7].passed then Some(c[7].error)
      else None
  {
    Peel(c, 0);
    Peel(c, 1);
    Peel(c, 2);
    Peel(c, 3);
    Peel(c, 4);
    Peel(c, 5);
    Peel(c, 6);
    if |c| > 6 { Peel(c, 7); }
    if |c| > 7 { Peel(c, 8); }
  }

  lemma Peel(c: seq<Check>, k: nat)
    requires k <= |c|
    ensures FirstFailure(c[k..]) ==
      if k == |c| then None else if !c[k].passed then Some(c[k].error) else FirstFailure(c[k + 1..])
    ensures c[0..] == c
  {
    if k < |c| { assert c[k..][1..] == c[k + 1..]; }
  }

  // Powers of two

  lemma OneBitIsPow2(a: nat)
    ensures CountOnes(a) == 1 <==> IsPow2(a)
  {
    if CountOnes(a) == 1 {
      var k := OneBit(a);
    }
    if IsPow2(a) {
      var k: nat :| a == Pow2(k);
      CountOnesOfPow2(k);
    }
  }

  lemma {:induction false} OneBit(a: nat) returns (k: nat)
    requires CountOnes(a) == 1
    ensures a == Pow2(k)
  {
    if a % 2 == 1 {
      k := 0;
      NoBits(a / 2);
    } else {
      k := OneBit(a / 2);
      k := k + 1;
    }
  }

  lemma {:induction false} NoBits(a: nat)
    requires CountOnes(a) == 0
    ensures a == 0
  {
    if a > 0 { NoBits(a / 2); }
  }
}
