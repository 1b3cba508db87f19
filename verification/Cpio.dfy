/** The "newc" archive format: the records that the build tool prints and the kernel's reader walks. */
module Cpio {
  import opened Bits
  import opened Common

  const HEADER_SIZE: nat := 110

  datatype Record = Record(name: Bytes, mode: nat, data: Bytes)

  datatype Entry = Entry(mode: nat, filesize: nat, namesize: nat)

  /** What a walk yields: it ends, or it slices past the end of the archive. */
  datatype Outcome = Done(records: seq<Record>) | OutOfRange(records: seq<Record>)

  function Magic(): (s: Bytes) ensures |s| == 6 { [48, 55, 48, 55, 48, 49] }

  function Trailer(): (s: Bytes) ensures |s| == 10 { [84, 82, 65, 73, 76, 69, 82, 33, 33, 33] }

  // Hexadecimal fields

  function HexDigit(d: nat): Byte
    requires d < 16
  {
    if d < 10 then 48 + d else 55 + d
  }

  /** The last `n` digits of `v`, the most significant first. */
  function HexField(v: nat, n: nat): (s: Bytes)
    ensures |s| == n
  {
    if n == 0 then [] else HexField(v / 16, n - 1) + [HexDigit(v % 16)]
  }

  function Field8(v: nat): (s: Bytes)
    ensures |s| == 8
  {
    HexField(v, 8)
  }

  function DigitOf(b: Byte): Option<nat> {
    if 48 <= b <= 57 then Some(b - 48)
    else if 65 <= b <= 70 then Some(b - 65 + 10)
    else if 97 <= b <= 102 then Some(b - 97 + 10)
    else None
  }

  predicate AllDigits(s: Bytes) {
    forall i :: 0 <= i < |s| ==> DigitOf(s[i]).Some?
  }

  function HexValue(s: Bytes): nat
    requires AllDigits(s)
  {
    if s == [] then 0 else 16 * HexValue(s[..|s| - 1]) + DigitOf(s[|s| - 1]).value
  }

  /** A field that is not all digits reads as zero. */
  function ReadHex(s: Bytes): nat {
    if AllDigits(s) then HexValue(s) else 0
  }

  function Pow16(n: nat): nat { if n == 0 then 1 else 16 * Pow16(n - 1) }

  lemma {:induction false} HexRoundTrip(v: nat, n: nat)
    requires v < Pow16(n)
    ensures AllDigits(HexField(v, n)) && HexValue(HexField(v, n)) == v
  {
    if n > 0 {
      HexRoundTrip(v / 16, n - 1);
      var s := HexField(v, n);
      assert s[..n - 1] == HexField(v / 16, n - 1);
      assert DigitOf(HexDigit(v % 16)) == Some(v % 16);
    }
  }

  /** Every 32-bit field reads back. */
  lemma {:induction false} FieldRoundTrip(v: nat)
    requires v < TWO_32
    ensures ReadHex(Field8(v)) == v
  {
    assert Pow16(8) == TWO_32;
    HexRoundTrip(v, 8);
  }

  lemma {:induction false} HexValueBound(s: Bytes)
    requires AllDigits(s)
    ensures HexValue(s) < Pow16(|s|)
  {
    if s != [] { HexValueBound(s[..|s| - 1]); }
  }

  /** The reader's loop: shift left by four, or in the digit, and give up at the first other byte. */
  method ParseHex8(s: Bytes) returns (v: nat)
    requires |s| == 8
    ensures v == ReadHex(s)
  {
    v := 0;
    var i := 0;
    while i < 8
      invariant 0 <= i <= 8 && AllDigits(s[..i]) && v == HexValue(s[..i])
    {
      var d := DigitOf(s[i]);
      if d.None? { return 0; }
      assert s[..i + 1][..i] == s[..i];
      ShiftOr(s[..i], d.value);
      v := Or(v * 16 % TWO_32, d.value);
      i := i + 1;
    }
    assert s[..8] == s;
  }

  /** With at most seven digits read, the shift drops nothing. */
  lemma {:induction false} ShiftOr(s: Bytes, d: nat)
    requires AllDigits(s) && |s| < 8 && d < 16
    ensures Or(HexValue(s) * 16 % TWO_32, d) == 16 * HexValue(s) + d
  {
    HexValueBound(s);
    Pow16Grows(|s|, 7);
    assert Pow16(7) == 0x1000_0000;
    ShiftIn(HexValue(s), d);
  }

  lemma {:induction false} ShiftIn(v: nat, d: nat)
    requires v < 0x1000_0000 && d < 16
    ensures Or(v * 16 % TWO_32, d) == 16 * v + d
  {
    assert v * 16 % TWO_32 == v * 16;
    OrAt4(v, d);
  }

  lemma {:induction false} OrAt4(v: nat, d: nat)
    requires d < 16
    ensures Or(v * 16, d) == v * 16 + d
  {
    var k: nat := 4;
    assert Pow2(4) == 16;
    OrDisjoint(v, d, k);
  }

  lemma {:induction false} Pow16Grows(i: nat, j: nat)
    requires i <= j
    ensures Pow16(i) <= Pow16(j)
    decreases j
  {
    if i < j { Pow16Grows(i, j - 1); }
  }

  // Printing

  function Zeros(n: nat): (s: Bytes) ensures |s| == n { seq(n, _ => 0) }

  /** What brings a length to a multiple of four. */
  function PadLen(len: nat): nat { (4 - len % 4) % 4 }

  /** The next multiple of four. */
  function Rounded(x: nat): (r: nat)
    ensures x <= r < x + 4 && r % 4 == 0
  {
    4 * ((x + 3) / 4)
  }

  lemma {:induction false} PadRounds(x: nat)
    ensures x + PadLen(x) == Rounded(x)
  {
  }

  function Header(mode: nat, filesize: nat, namesize: nat): (s: Bytes)
    ensures |s| == HEADER_SIZE
  {
    HeadPart() + Field8(mode) + OwnerPart() + Field8(filesize) + DevicePart() + Field8(namesize) + Field8(0)
  }

  /** Magic and inode number. */
  function HeadPart(): (s: Bytes) ensures |s| == 14 { Magic() + Field8(0) }

  /** User, group, link count and time. */
  function OwnerPart(): (s: Bytes) ensures |s| == 32 { Field8(0) + Field8(0) + Field8(1) + Field8(0) }

  /** Device numbers. */
  function DevicePart(): (s: Bytes) ensures |s| == 32 { Field8(0) + Field8(0) + Field8(0) + Field8(0) }

  /** A printed record. */
  function Encode(r: Record): Bytes {
    Header(r.mode, |r.data|, |r.name| + 1) + NamePart(r.name) + DataPart(r.data)
  }

  /** The name, its terminator, and padding that counts the header in. */
  function NamePart(name: Bytes): Bytes { name + [0] + Zeros(PadLen(HEADER_SIZE + |name| + 1)) }

  function DataPart(data: Bytes): Bytes { data + Zeros(PadLen(|data|)) }

  function Archive(rs: seq<Record>): Bytes {
    if rs == [] then Encode(Record(Trailer(), 0, [])) else Encode(rs[0]) + Archive(rs[1..])
  }

  lemma {:induction false} Associate(a: Bytes, b: Bytes, c: Bytes)
    ensures a + (b + c) == (a + b) + c
  {
  }

  lemma {:induction false} JoinParts(base: Bytes, a: Bytes, b: Bytes, c: Bytes)
    ensures base + a + b + c == base + (a + b + c)
  {
    Associate(base, a, b);
    Associate(base, a + b, c);
  }

  class Writer {
    var out: Bytes

    /** Appends a field to the part `h` that was written after `base`. */
    method Field(v: nat, ghost base: Bytes, ghost h: Bytes)
      requires v < TWO_32 && out == base + h
      modifies this
      ensures out == base + (h + Field8(v))
    {
      Associate(base, h, Field8(v));
      out := out + Field8(v);
    }

    method Pad4(len: nat)
      modifies this
      ensures out == old(out) + Zeros(PadLen(len))
    {
      var i := 0;
      while i < PadLen(len)
        invariant 0 <= i <= PadLen(len) && out == old(out) + Zeros(i)
      {
        out := out + [0];
        assert Zeros(i) + [0] == Zeros(i + 1);
        i := i + 1;
      }
    }

    /** Appends one record. */
    method AddRecord(r: Record)
      requires r.mode < TWO_32 && |r.name| + 1 < TWO_32 && |r.data| < TWO_32
      modifies this
      ensures out == old(out) + Encode(r)
    {
      var namesize := |r.name| + 1;
      WriteHeader(r.mode, |r.data|, namesize);
      AddName(r.name);
      AddData(r.data);
      JoinParts(old(out), Header(r.mode, |r.data|, namesize), NamePart(r.name), DataPart(r.data));
    }

    method AddName(name: Bytes)
      modifies this
      ensures out == old(out) + NamePart(name)
    {
      out := out + name;
      out := out + [0];
      Pad4(HEADER_SIZE + |name| + 1);
    }

    method AddData(data: Bytes)
      modifies this
      ensures out == old(out) + DataPart(data)
    {
      out := out + data;
      Pad4(|data|);
    }

    method WriteHeader(mode: nat, filesize: nat, namesize: nat)
      requires mode < TWO_32 && filesize < TWO_32 && namesize < TWO_32
      modifies this
      ensures out == old(out) + Header(mode, filesize, namesize)
    {
      ghost var base := out;
      out := out + Magic();
      Field(0, base, Magic());
      Field(mode, base, HeadPart());
      ghost var h := HeadPart() + Field8(mode);
      WriteOwner();
      Associate(base, h, OwnerPart());
      h := h + OwnerPart();
      Field(filesize, base, h);
      h := h + Field8(filesize);
      WriteDevice();
      Associate(base, h, DevicePart());
      h := h + DevicePart();
      Field(namesize, base, h);
      h := h + Field8(namesize);
      Field(0, base, h);
    }

    method WriteOwner()
      modifies this
      ensures out == old(out) + OwnerPart()
    {
      ghost var base := out;
      Field(0, base, []);
      assert [] + Field8(0) == Field8(0);
      Field(0, base, Field8(0));
      Field(1, base, Field8(0) + Field8(0));
      Field(0, base, Field8(0) + Field8(0) + Field8(1));
    }

    method WriteDevice()
      modifies this
      ensures out == old(out) + DevicePart()
    {
      ghost var base := out;
      Field(0, base, []);
      assert [] + Field8(0) == Field8(0);
      Field(0, base, Field8(0));
      Field(0, base, Field8(0) + Field8(0));
      Field(0, base, Field8(0) + Field8(0) + Field8(0));
    }

    /** Appends the records and the trailer. */
    method AddAll(rs: seq<Record>)
      requires forall i :: 0 <= i < |rs| ==> rs[i].mode < TWO_32 && |rs[i].name| + 1 < TWO_32 && |rs[i].data| < TWO_32
      modifies this
      ensures out == old(out) + Archive(rs)
    {
      var i := 0;
      while i < |rs|
        invariant 0 <= i <= |rs| && out + Archive(rs[i..]) == old(out) + Archive(rs)
      {
        ghost var before := out;
        AddRecord(rs[i]);
        assert rs[i..][0] == rs[i] && rs[i..][1..] == rs[i + 1..];
        Associate(before, Encode(rs[i]), Archive(rs[i + 1..]));
        i := i + 1;
      }
      AddRecord(Record(Trailer(), 0, []));
    }
  }

  // Reading

  lemma {:induction false} AndDouble(a: nat, b: nat)
    ensures And(a, 2 * b) == 2 * And(a / 2, b)
  {
    AndHalves(a, 2 * b);
  }

  /** The mask that rounds up to a multiple of four. */
  method Align4(x: nat) returns (r: nat)
    requires x + 3 < TWO_64
    ensures r == Rounded(x)
  {
    r := And(x + 3, TWO_64 - 4);
    ClearLowBits(x + 3);
  }

  lemma {:induction false} ClearLowBits(y: nat)
    requires y < TWO_64
    ensures And(y, TWO_64 - 4) == 4 * (y / 4)
  {
    AndFourfold(y, TWO_64 / 4 - 1);
    Mask62(y / 4);
  }

  lemma {:induction false} AndFourfold(y: nat, m: nat)
    ensures And(y, 4 * m) == 4 * And(y / 4, m)
  {
    AndDouble(y, 2 * m);
    AndDouble(y / 2, m);
    assert y / 2 / 2 == y / 4;
  }

  lemma {:induction false} Mask62(y: nat)
    requires y < TWO_64 / 4
    ensures And(y, TWO_64 / 4 - 1) == y
  {
    var k: nat := 62;
    Pow2Add(62, 2);
    Pow2Values();
    assert Pow2(2) == 4;
    AndLowMask(y, k);
  }

  function ParseHeader(d: Bytes): Option<Entry> {
    if |d| < HEADER_SIZE || d[..6] != Magic() then None
    else Some(Entry(ReadHex(d[14..22]), ReadHex(d[54..62]), ReadHex(d[94..102])))
  }

  /** Leading "./" are dropped, however many. */
  function Trim(name: Bytes): Bytes {
    if |name| >= 2 && name[0] == 46 && name[1] == 47 then Trim(name[2..]) else name
  }

  /** One record at `pos`: where its parts lie. */
  datatype Layout = Layout(name: Bytes, data: Bytes, next: nat)

  /** The record's parts, if the archive is long enough for them. */
  function ReadRecord(d: Bytes, pos: nat, e: Entry): (r: Option<Layout>)
    requires pos + HEADER_SIZE <= |d|
    ensures r.Some? ==> pos + HEADER_SIZE <= r.value.next <= |d| + 3 && r.value.next % 4 == 0
  {
    var nameAt := pos + HEADER_SIZE;
    var dataAt := Rounded(nameAt + e.namesize);
    if nameAt + e.namesize > |d| || dataAt + e.filesize > |d| then None
    else
      Some(Layout(
        d[nameAt..nameAt + NameLen(e)],
        d[dataAt..dataAt + e.filesize],
        Rounded(dataAt + e.filesize)))
  }

  function NameLen(e: Entry): nat { if e.namesize == 0 then 0 else e.namesize - 1 }

  /** The records that reach the tree builder, and whether the walk stays inside the archive. */
  function Walk(d: Bytes, pos: nat, isUtf8: Bytes -> bool): Outcome
    decreases |d| + 4 - pos
  {
    if pos > |d| then OutOfRange([])
    else
      var e := ParseHeader(d[pos..]);
      if e.None? then Done([])
      else
        var r := ReadRecord(d, pos, e.value);
        if r.None? || r.value.name == Trailer() then Done([])
        else
          var rest := Walk(d, r.value.next, isUtf8);
          Prepend(Named(r.value, e.value.mode, isUtf8), rest)
  }

  /** The record as the tree builder sees it; a name that is not text or is empty is skipped. */
  function Named(r: Layout, mode: nat, isUtf8: Bytes -> bool): seq<Record> {
    if isUtf8(r.name) && Trim(r.name) != [] then [Record(Trim(r.name), mode, r.data)] else []
  }

  function Prepend(rs: seq<Record>, rest: Outcome): Outcome {
    if rest.Done? then Done(rs + rest.records) else OutOfRange(rs + rest.records)
  }

  /** The reader's loop. */
  method Unpack(d: Bytes, isUtf8: Bytes -> bool) returns (o: Outcome)
    requires |d| < TWO_64 - 8
    ensures o == Walk(d, 0, isUtf8)
  {
    var rs: seq<Record> := [];
    var pos := 0;
    while true
      invariant 0 <= pos && Prepend(rs, Walk(d, pos, isUtf8)) == Walk(d, 0, isUtf8)
      decreases |d| + 4 - pos
    {
      if pos > |d| { return OutOfRange(rs); }
      var e := ParseHeader(d[pos..]);
      if e.None? { return Done(rs); }
      var r := ReadRecordAt(d, pos, e.value);
      if r.None? || r.value.name == Trailer() { return Done(rs); }
      var named := Named(r.value, e.value.mode, isUtf8);
      PrependTwice(rs, named, Walk(d, r.value.next, isUtf8));
      rs := rs + named;
      pos := r.value.next;
    }
  }

  lemma {:induction false} PrependTwice(a: seq<Record>, b: seq<Record>, o: Outcome)
    ensures Prepend(a, Prepend(b, o)) == Prepend(a + b, o)
  {
    assert a + (b + o.records) == (a + b) + o.records;
  }

  /** The bounds checks and slices of one turn. */
  method ReadRecordAt(d: Bytes, pos: nat, e: Entry) returns (r: Option<Layout>)
    requires pos + HEADER_SIZE <= |d| < TWO_64 - 8
    ensures r == ReadRecord(d, pos, e)
  {
    var nameAt := pos + HEADER_SIZE;
    if nameAt + e.namesize > |d| { return None; }
    var name := d[nameAt..nameAt + NameLen(e)];
    var dataAt := Align4(nameAt + e.namesize);
    if dataAt + e.filesize > |d| { return None; }
    var data := d[dataAt..dataAt + e.filesize];
    var next := Align4(dataAt + e.filesize);
    return Some(Layout(name, data, next));
  }

  // Round trip

  lemma {:induction false} PrefixSlice(a: Bytes, b: Bytes, i: nat, j: nat)
    requires i <= j <= |a|
    ensures (a + b)[i..j] == a[i..j]
  {
  }

  lemma {:induction false} MiddleSlice(a: Bytes, b: Bytes, c: Bytes)
    ensures (a + b + c)[|a|..|a| + |b|] == b
  {
  }

  lemma {:induction false} HeaderReads(mode: nat, filesize: nat, namesize: nat, rest: Bytes)
    requires mode < TWO_32 && filesize < TWO_32 && namesize < TWO_32
    ensures ParseHeader(Header(mode, filesize, namesize) + rest) == Some(Entry(mode, filesize, namesize))
  {
    var h1 := HeadPart() + Field8(mode);
    var h2 := h1 + OwnerPart();
    var h3 := h2 + Field8(filesize);
    var h4 := h3 + DevicePart();
    var h5 := h4 + Field8(namesize);
    var h := h5 + Field8(0);
    assert h == Header(mode, filesize, namesize);
    MagicReads(h, rest);
    FieldReads(HeadPart(), mode, h, rest);
    FieldReads(h2, filesize, h, rest);
    FieldReads(h4, namesize, h, rest);
  }

  lemma {:induction false} MagicReads(h: Bytes, rest: Bytes)
    requires HeadPart() <= h
    ensures (h + rest)[..6] == Magic()
  {
    PrefixSlice(Magic(), Field8(0), 0, 6);
    assert h == HeadPart() + h[14..];
    PrefixSlice(HeadPart(), h[14..], 0, 6);
    PrefixSlice(h, rest, 0, 6);
  }

  /** A field after the part `a` of a header. */
  lemma {:induction false} FieldReads(a: Bytes, v: nat, h: Bytes, rest: Bytes)
    requires a + Field8(v) <= h && v < TWO_32
    ensures |a| + 8 <= |h + rest| && ReadHex((h + rest)[|a|..|a| + 8]) == v
  {
    var tail := h[|a| + 8..];
    assert h == a + Field8(v) + tail;
    MiddleSlice(a, Field8(v), tail);
    PrefixSlice(h, rest, |a|, |a| + 8);
    FieldRoundTrip(v);
  }

  lemma {:induction false} RoundedSum(p: nat, x: nat)
    requires p % 4 == 0
    ensures Rounded(p + x) == p + Rounded(x)
  {
  }

  lemma {:induction false} NamePartLength(name: Bytes)
    ensures HEADER_SIZE + |NamePart(name)| == Rounded(HEADER_SIZE + |name| + 1)
  {
    PadRounds(HEADER_SIZE + |name| + 1);
  }

  lemma {:induction false} DataPartLength(data: Bytes)
    ensures |DataPart(data)| == Rounded(|data|)
  {
    PadRounds(|data|);
  }

  /** Every record's length is a multiple of four, so every record starts at one. */
  lemma {:induction false} EncodeIsAligned(r: Record)
    ensures |Encode(r)| == Rounded(HEADER_SIZE + |r.name| + 1) + Rounded(|r.data|) && |Encode(r)| % 4 == 0
  {
    NamePartLength(r.name);
    DataPartLength(r.data);
    SumIsAligned(Rounded(HEADER_SIZE + |r.name| + 1), Rounded(|r.data|));
  }

  lemma {:induction false} SumIsAligned(x: nat, y: nat)
    requires x % 4 == 0 && y % 4 == 0
    ensures (x + y) % 4 == 0
  {
  }

  predicate FitsFormat(r: Record) {
    r.mode < TWO_32 && |r.name| + 1 < TWO_32 && |r.data| < TWO_32
  }

  /** The reader finds the record at `pos`, and the next one at `next`. */
  predicate ReadsAs(d: Bytes, pos: nat, r: Record, next: nat) {
    && pos + HEADER_SIZE <= |d|
    && ParseHeader(d[pos..]) == Some(Entry(r.mode, |r.data|, |r.name| + 1))
    && ReadRecord(d, pos, Entry(r.mode, |r.data|, |r.name| + 1)) == Some(Layout(r.name, r.data, next))
  }

  /** A record printed at a multiple of four is read back with its name and data, up to where the next one starts. */
  lemma {:induction false} RecordReads(prefix: Bytes, r: Record, rest: Bytes)
    requires FitsFormat(r) && |prefix| % 4 == 0
    ensures ReadsAs(prefix + (Encode(r) + rest), |prefix|, r, |prefix| + |Encode(r)|) && |Encode(r)| % 4 == 0
  {
    HeaderReadsAt(prefix, r, rest);
    PartsRead(prefix, Header(r.mode, |r.data|, |r.name| + 1), r, rest);
    EncodeIsAligned(r);
  }

  /** Name and data after any header. */
  lemma {:induction false} PartsRead(prefix: Bytes, h: Bytes, r: Record, rest: Bytes)
    requires |prefix| % 4 == 0 && |h| == HEADER_SIZE
    ensures var d := prefix + (h + NamePart(r.name) + DataPart(r.data) + rest);
      && |prefix| + HEADER_SIZE <= |d|
      && ReadRecord(d, |prefix|, Entry(r.mode, |r.data|, |r.name| + 1))
        == Some(Layout(r.name, r.data, |prefix| + Rounded(HEADER_SIZE + |r.name| + 1) + Rounded(|r.data|)))
  {
    NameReads(prefix, h, r, rest);
    DataReads(prefix, h, r, rest);
    LayoutIs(prefix + (h + NamePart(r.name) + DataPart(r.data) + rest), |prefix|, r);
  }

  lemma {:induction false} HeaderReadsAt(prefix: Bytes, r: Record, rest: Bytes)
    requires FitsFormat(r)
    ensures var d := prefix + (Encode(r) + rest);
      |prefix| + HEADER_SIZE <= |d| && ParseHeader(d[|prefix|..]) == Some(Entry(r.mode, |r.data|, |r.name| + 1))
  {
    SuffixIs(prefix, Encode(r) + rest);
    EncodeSplits(r, rest);
    HeaderReads(r.mode, |r.data|, |r.name| + 1, NamePart(r.name) + DataPart(r.data) + rest);
  }

  lemma {:induction false} SuffixIs(a: Bytes, b: Bytes)
    ensures (a + b)[|a|..] == b
  {
  }

  lemma {:induction false} EncodeSplits(r: Record, rest: Bytes)
    ensures Encode(r) + rest == Header(r.mode, |r.data|, |r.name| + 1) + (NamePart(r.name) + DataPart(r.data) + rest)
  {
    var h, n, d := Header(r.mode, |r.data|, |r.name| + 1), NamePart(r.name), DataPart(r.data);
    Associate(h + n, d, rest);
    Associate(h, n, d + rest);
    Associate(n, d, rest);
  }

  /** Name and data where the reader looks for them. */
  lemma {:induction false} LayoutIs(d: Bytes, pos: nat, r: Record)
    requires pos % 4 == 0
    requires var at := pos + HEADER_SIZE; at + |r.name| <= |d| && d[at..at + |r.name|] == r.name
    requires var at := pos + Rounded(HEADER_SIZE + |r.name| + 1); at + |r.data| <= |d| && d[at..at + |r.data|] == r.data
    ensures pos + HEADER_SIZE <= |d|
    ensures ReadRecord(d, pos, Entry(r.mode, |r.data|, |r.name| + 1))
      == Some(Layout(r.name, r.data, pos + Rounded(HEADER_SIZE + |r.name| + 1) + Rounded(|r.data|)))
  {
    RoundedSum(pos, HEADER_SIZE + |r.name| + 1);
    SumIsAligned(pos, Rounded(HEADER_SIZE + |r.name| + 1));
    RoundedSum(pos + Rounded(HEADER_SIZE + |r.name| + 1), |r.data|);
  }

  lemma {:induction false} NameReads(prefix: Bytes, h: Bytes, r: Record, rest: Bytes)
    requires |h| == HEADER_SIZE
    ensures var d := prefix + (h + NamePart(r.name) + DataPart(r.data) + rest); var at := |prefix| + HEADER_SIZE;
      at + |r.name| <= |d| && d[at..at + |r.name|] == r.name
  {
    NameIsFirst(r.name);
    SecondPart(prefix, h, NamePart(r.name), DataPart(r.data), rest, |r.name|);
  }

  lemma {:induction false} DataReads(prefix: Bytes, h: Bytes, r: Record, rest: Bytes)
    requires |h| == HEADER_SIZE
    ensures var d := prefix + (h + NamePart(r.name) + DataPart(r.data) + rest);
      var at := |prefix| + Rounded(HEADER_SIZE + |r.name| + 1);
      at + |r.data| <= |d| && d[at..at + |r.data|] == r.data
  {
    NamePartLength(r.name);
    SliceOfPrefix(r.data, Zeros(PadLen(|r.data|)));
    ThirdPart(prefix, h, NamePart(r.name), DataPart(r.data), rest, |r.data|);
  }

  lemma {:induction false} NameIsFirst(name: Bytes)
    ensures |name| <= |NamePart(name)| && NamePart(name)[..|name|] == name
  {
    SliceOfPrefix(name + [0], Zeros(PadLen(HEADER_SIZE + |name| + 1)));
    SliceOfPrefix(name, [0]);
  }

  lemma {:induction false} SliceOfPrefix(a: Bytes, b: Bytes)
    ensures (a + b)[..|a|] == a
  {
  }

  /** The start of the second of four parts after a prefix. */
  lemma {:induction false} SecondPart(p: Bytes, a: Bytes, b: Bytes, c: Bytes, rest: Bytes, n: nat)
    requires n <= |b|
    ensures var at := |p| + |a|;
      at + n <= |p + (a + b + c + rest)| && (p + (a + b + c + rest))[at..at + n] == b[..n]
  {
    var s := a + b + c + rest;
    assert s[|a|..|a| + n] == b[..n];
    SliceAfter(p, s, |a|, |a| + n);
  }

  lemma {:induction false} ThirdPart(p: Bytes, a: Bytes, b: Bytes, c: Bytes, rest: Bytes, n: nat)
    requires n <= |c|
    ensures var at := |p| + |a| + |b|;
      at + n <= |p + (a + b + c + rest)| && (p + (a + b + c + rest))[at..at + n] == c[..n]
  {
    var s := a + b + c + rest;
    assert s[|a + b|..|a + b| + n] == c[..n];
    SliceAfter(p, s, |a + b|, |a + b| + n);
  }

  lemma {:induction false} SliceAfter(p: Bytes, s: Bytes, i: nat, j: nat)
    requires i <= j <= |s|
    ensures (p + s)[|p| + i..|p| + j] == s[i..j]
  {
  }

  /** What survives the trip: a non-empty text name that is not the trailer's and does not start with "./". */
  predicate IsPrintable(r: Record, isUtf8: Bytes -> bool) {
    FitsFormat(r) && r.name != [] && isUtf8(r.name) && r.name != Trailer() && Trim(r.name) == r.name
  }

  /** The reader finds the records one after another, and then the trailer. */
  ghost predicate IsArchiveAt(d: Bytes, pos: nat, rs: seq<Record>)
    decreases |rs|
  {
    if rs == [] then exists next: nat :: ReadsAs(d, pos, Record(Trailer(), 0, []), next)
    else exists next: nat :: ReadsAs(d, pos, rs[0], next) && IsArchiveAt(d, next, rs[1..])
  }

  lemma {:induction false} PrintedIsArchive(d: Bytes, prefix: Bytes, rs: seq<Record>)
    requires d == prefix + Archive(rs) && |prefix| % 4 == 0 && forall i :: 0 <= i < |rs| ==> FitsFormat(rs[i])
    ensures IsArchiveAt(d, |prefix|, rs)
    decreases |rs|
  {
    if rs == [] {
      TrailerReads(d, prefix);
    } else {
      var r, rest := rs[0], Archive(rs[1..]);
      var prefix' := NextPrefix(d, prefix, r, rest);
      PrintedIsArchive(d, prefix', rs[1..]);
      ArchiveStep(d, |prefix|, rs, |prefix'|);
    }
  }

  lemma {:induction false} ArchiveStep(d: Bytes, pos: nat, rs: seq<Record>, next: nat)
    requires rs != [] && ReadsAs(d, pos, rs[0], next) && IsArchiveAt(d, next, rs[1..])
    ensures IsArchiveAt(d, pos, rs)
  {
  }

  lemma {:induction false} NextPrefix(d: Bytes, prefix: Bytes, r: Record, rest: Bytes) returns (prefix': Bytes)
    requires d == prefix + (Encode(r) + rest) && FitsFormat(r) && |prefix| % 4 == 0
    ensures d == prefix' + rest && |prefix'| % 4 == 0 && ReadsAs(d, |prefix|, r, |prefix'|)
  {
    PrintedReads(d, prefix, r, rest);
    prefix' := MovePrefix(d, prefix, Encode(r), rest);
  }

  lemma {:induction false} MovePrefix(d: Bytes, prefix: Bytes, part: Bytes, rest: Bytes) returns (prefix': Bytes)
    requires d == prefix + (part + rest) && |prefix| % 4 == 0 && |part| % 4 == 0
    ensures d == prefix' + rest && |prefix'| % 4 == 0 && |prefix'| == |prefix| + |part|
  {
    prefix' := prefix + part;
    Associate(prefix, part, rest);
    SumIsAligned(|prefix|, |part|);
  }

  lemma {:induction false} PrintedReads(d: Bytes, prefix: Bytes, r: Record, rest: Bytes)
    requires d == prefix + (Encode(r) + rest) && FitsFormat(r) && |prefix| % 4 == 0
    ensures ReadsAs(d, |prefix|, r, |prefix| + |Encode(r)|) && |Encode(r)| % 4 == 0
  {
    RecordReads(prefix, r, rest);
  }

  lemma {:induction false} TrailerReads(d: Bytes, prefix: Bytes)
    requires d == prefix + Archive([]) && |prefix| % 4 == 0
    ensures IsArchiveAt(d, |prefix|, [])
  {
    var r := Record(Trailer(), 0, []);
    assert Encode(r) + [] == Archive([]);
    PrintedReads(d, prefix, r, []);
  }

  lemma {:induction false} WalkTurn(d: Bytes, pos: nat, isUtf8: Bytes -> bool, r: Record, next: nat)
    requires ReadsAs(d, pos, r, next) && r.name != Trailer()
    ensures Walk(d, pos, isUtf8) == Prepend(Named(Layout(r.name, r.data, next), r.mode, isUtf8), Walk(d, next, isUtf8))
  {
  }

  lemma {:induction false} WalkTrailer(d: Bytes, pos: nat, isUtf8: Bytes -> bool, next: nat)
    requires ReadsAs(d, pos, Record(Trailer(), 0, []), next)
    ensures Walk(d, pos, isUtf8) == Done([])
  {
  }

  lemma {:induction false} WalkArchive(d: Bytes, pos: nat, rs: seq<Record>, isUtf8: Bytes -> bool)
    requires IsArchiveAt(d, pos, rs) && forall i :: 0 <= i < |rs| ==> IsPrintable(rs[i], isUtf8)
    ensures Walk(d, pos, isUtf8) == Done(rs)
    decreases |rs|
  {
    if rs == [] {
      var next: nat :| ReadsAs(d, pos, Record(Trailer(), 0, []), next);
      WalkTrailer(d, pos, isUtf8, next);
    } else {
      var next: nat :| ReadsAs(d, pos, rs[0], next) && IsArchiveAt(d, next, rs[1..]);
      WalkArchive(d, next, rs[1..], isUtf8);
      WalkTurn(d, pos, isUtf8, rs[0], next);
      assert [rs[0]] + rs[1..] == rs;
    }
  }

  /** Walking a printed archive yields exactly the printed records, without leaving the archive. */
  lemma {:induction false} RoundTrip(d: Bytes, rs: seq<Record>, isUtf8: Bytes -> bool)
    requires d == Archive(rs) && forall i :: 0 <= i < |rs| ==> IsPrintable(rs[i], isUtf8)
    ensures Walk(d, 0, isUtf8) == Done(rs)
  {
    assert [] + Archive(rs) == d;
    PrintedIsArchive(d, [], rs);
    WalkArchive(d, 0, rs, isUtf8);
  }

  /** The written archive unpacks to the records. */
  method PrintThenUnpack(w: Writer, rs: seq<Record>, isUtf8: Bytes -> bool) returns (o: Outcome)
    requires w.out == [] && |Archive(rs)| < TWO_64 - 8
    requires forall i :: 0 <= i < |rs| ==> IsPrintable(rs[i], isUtf8)
    modifies w
    ensures o == Done(rs)
  {
    w.AddAll(rs);
    assert [] + Archive(rs) == Archive(rs);
    RoundTrip(w.out, rs, isUtf8);
    o := Unpack(w.out, isUtf8);
  }

  // Archives that nobody printed

  /** The walk leaves the archive only where rounding up passes its end. */
  lemma {:induction false} WalkStaysInside(d: Bytes, pos: nat, isUtf8: Bytes -> bool)
    requires |d| % 4 == 0 && pos <= |d|
    ensures Walk(d, pos, isUtf8).Done?
    decreases |d| + 4 - pos
  {
    var n := NextAt(d, pos);
    WalkGoesOn(d, pos, isUtf8);
    if n.Some? {
      AlignedStaysInside(n.value, |d|);
      WalkStaysInside(d, n.value, isUtf8);
    }
  }

  /** Where the walk goes on from `pos`, if it does. */
  function NextAt(d: Bytes, pos: nat): (n: Option<nat>)
    requires pos <= |d|
    ensures n.Some? ==> pos < n.value <= |d| + 3 && n.value % 4 == 0
  {
    var e := ParseHeader(d[pos..]);
    if e.None? then None
    else
      var r := ReadRecord(d, pos, e.value);
      if r.None? || r.value.name == Trailer() then None else Some(r.value.next)
  }

  lemma WalkGoesOn(d: Bytes, pos: nat, isUtf8: Bytes -> bool)
    requires pos <= |d|
    ensures var n := NextAt(d, pos); Walk(d, pos, isUtf8).Done? <==> (n.Some? ==> Walk(d, n.value, isUtf8).Done?)
  {
  }

  lemma AlignedStaysInside(n: nat, len: nat)
    requires n % 4 == 0 && len % 4 == 0 && n <= len + 3
    ensures n <= len
  {
  }

  /** The record printed without the padding after its data. */
  function CutRecord(r: Record): Bytes { Header(r.mode, |r.data|, |r.name| + 1) + (NamePart(r.name) + r.data) }

  lemma {:induction false} CutReads(d: Bytes, prefix: Bytes, r: Record) returns (next: nat)
    requires FitsFormat(r) && d == prefix + CutRecord(r) && |prefix| % 4 == 0
    ensures ReadsAs(d, |prefix|, r, next) && |d| <= next && (next > |d| <==> |r.data| % 4 != 0)
  {
    CutHeaderReads(d, prefix, r);
    next := CutLayout(d, prefix, Header(r.mode, |r.data|, |r.name| + 1), r);
  }

  lemma {:induction false} CutLayout(d: Bytes, prefix: Bytes, h: Bytes, r: Record) returns (next: nat)
    requires |h| == HEADER_SIZE && d == prefix + (h + (NamePart(r.name) + r.data)) && |prefix| % 4 == 0
    ensures |prefix| + HEADER_SIZE <= |d| && |d| <= next && (next > |d| <==> |r.data| % 4 != 0)
    ensures ReadRecord(d, |prefix|, Entry(r.mode, |r.data|, |r.name| + 1)) == Some(Layout(r.name, r.data, next))
  {
    next := |prefix| + Rounded(HEADER_SIZE + |r.name| + 1) + Rounded(|r.data|);
    NamePartLength(r.name);
    var s := h + (NamePart(r.name) + r.data);
    CutParts(s, h, r.name, r.data);
    SliceAfter(prefix, s, HEADER_SIZE, HEADER_SIZE + |r.name|);
    SliceAfter(prefix, s, HEADER_SIZE + |NamePart(r.name)|, HEADER_SIZE + |NamePart(r.name)| + |r.data|);
    LayoutIs(d, |prefix|, r);
    RoundedGrows(|r.data|);
  }

  lemma {:induction false} RoundedGrows(x: nat)
    ensures x <= Rounded(x) && (x < Rounded(x) <==> x % 4 != 0)
  {
  }

  lemma {:induction false} CutHeaderReads(d: Bytes, prefix: Bytes, r: Record)
    requires FitsFormat(r) && d == prefix + CutRecord(r)
    ensures ParseHeader(d[|prefix|..]) == Some(Entry(r.mode, |r.data|, |r.name| + 1))
  {
    SuffixIs(prefix, CutRecord(r));
    HeaderReads(r.mode, |r.data|, |r.name| + 1, NamePart(r.name) + r.data);
  }

  lemma {:induction false} CutParts(d: Bytes, h: Bytes, name: Bytes, data: Bytes)
    requires |h| == HEADER_SIZE && d == h + (NamePart(name) + data)
    ensures |d| == HEADER_SIZE + |NamePart(name)| + |data| && |name| <= |NamePart(name)|
    ensures d[HEADER_SIZE..HEADER_SIZE + |name|] == name
    ensures d[HEADER_SIZE + |NamePart(name)|..HEADER_SIZE + |NamePart(name)| + |data|] == data
  {
    var n := NamePart(name);
    NameIsFirst(name);
    SliceAfter(h, n + data, 0, |name|);
    PrefixSlice(n, data, 0, |name|);
    SliceAfter(h, n + data, |n|, |n| + |data|);
    SliceAfter(n, data, 0, |data|);
  }

  /** Printed records without a trailer. */
  function Printed(rs: seq<Record>): Bytes {
    if rs == [] then [] else Encode(rs[0]) + Printed(rs[1..])
  }

  predicate IsRecord(r: Record) { FitsFormat(r) && r.name != Trailer() }

  lemma {:induction false} CutLeaves(d: Bytes, prefix: Bytes, rs: seq<Record>, r: Record, isUtf8: Bytes -> bool)
    requires d == prefix + (Printed(rs) + CutRecord(r)) && |prefix| % 4 == 0
    requires IsRecord(r) && forall i :: 0 <= i < |rs| ==> IsRecord(rs[i])
    ensures Walk(d, |prefix|, isUtf8).OutOfRange? <==> |r.data| % 4 != 0
    decreases |rs|
  {
    if rs == [] {
      assert Printed(rs) + CutRecord(r) == CutRecord(r);
      var next := CutReads(d, prefix, r);
      WalkTurn(d, |prefix|, isUtf8, r, next);
      WalkPastEnd(d, next, isUtf8);
    } else {
      var rest := Printed(rs[1..]) + CutRecord(r);
      Associate(Encode(rs[0]), Printed(rs[1..]), CutRecord(r));
      var prefix' := NextPrefix(d, prefix, rs[0], rest);
      CutLeaves(d, prefix', rs[1..], r, isUtf8);
      WalkTurn(d, |prefix|, isUtf8, rs[0], |prefix'|);
    }
  }

  lemma {:induction false} WalkPastEnd(d: Bytes, next: nat, isUtf8: Bytes -> bool)
    requires |d| <= next
    ensures Walk(d, next, isUtf8).OutOfRange? <==> next > |d|
  {
    if next == |d| { assert ParseHeader(d[next..]).None?; }
  }

  /**
   Printed records, and one more cut off after its last data byte: the walk leaves the archive
   exactly if padding is missing.
   */
  lemma {:induction false} CutArchiveLeaves(d: Bytes, rs: seq<Record>, r: Record, isUtf8: Bytes -> bool)
    requires d == Printed(rs) + CutRecord(r) && IsRecord(r) && forall i :: 0 <= i < |rs| ==> IsRecord(rs[i])
    ensures Walk(d, 0, isUtf8).OutOfRange? <==> |r.data| % 4 != 0
  {
    assert [] + d == d;
    CutLeaves(d, [], rs, r, isUtf8);
  }

  /** `k` records without data, under a name of one letter. */
  function Fillers(k: nat): seq<Record> { seq(k, _ => Record([97], 0, [])) }

  lemma {:induction false} FillersLength(k: nat)
    ensures |Printed(Fillers(k))| == 112 * k
  {
    if k > 0 {
      FillersLength(k - 1);
      FillerLength();
      assert Fillers(k)[1..] == Fillers(k - 1);
    }
  }

  lemma {:induction false} FillerLength()
    ensures |Encode(Record([97], 0, []))| == 112
  {
    EncodeIsAligned(Record([97], 0, []));
  }

  lemma {:induction false} CutLength(data: Bytes)
    ensures |CutRecord(Record([97], 0, data))| == 112 + |data|
  {
    NamePartLength([97]);
  }

  /** Whole records of 112 bytes, and a rest with data. */
  lemma {:induction false} SplitLength(n: nat) returns (k: nat, size: nat)
    requires n >= 113
    ensures n == 112 * k + (112 + size) && size <= 112 && n % 4 == size % 4
  {
    k := (n - 113) / 112;
    size := n - 112 - 112 * k;
    assert n == 4 * (28 * k + 28) + size;
    SameRemainder(28 * k + 28, size);
  }

  lemma {:induction false} SameRemainder(q: nat, size: nat)
    ensures (4 * q + size) % 4 == size % 4
  {
  }

  /** An archive of the length that the walk leaves. */
  lemma {:induction false} LeavingArchive(n: nat, isUtf8: Bytes -> bool) returns (d: Bytes)
    requires n >= 113 && n % 4 != 0
    ensures |d| == n && Walk(d, 0, isUtf8).OutOfRange?
  {
    var k, size := SplitLength(n);
    var data := Zeros(size);
    FillersLength(k);
    CutLength(data);
    d := Printed(Fillers(k)) + CutRecord(Record([97], 0, data));
    CutArchiveLeaves(d, Fillers(k), Record([97], 0, data), isUtf8);
  }

  /** An archive too short for a record with data is walked inside. */
  lemma {:induction false} ShortStaysInside(d: Bytes, isUtf8: Bytes -> bool)
    requires |d| < 112
    ensures Walk(d, 0, isUtf8).Done?
  {
    var e := ParseHeader(d[0..]);
    if e.Some? { assert Rounded(HEADER_SIZE + e.value.namesize) >= 112; }
  }

  ghost predicate AllWalkedInside(n: nat, isUtf8: Bytes -> bool) {
    forall d: Bytes :: |d| == n ==> Walk(d, 0, isUtf8).Done?
  }

  /**
   Every byte string of length `n` is walked without leaving it, if and only if `n` is a multiple of
   four or too small for a record with a byte of data.
   */
  lemma {:induction false} WalkedInsideIff(n: nat, isUtf8: Bytes -> bool)
    ensures AllWalkedInside(n, isUtf8) <==> n % 4 == 0 || n < 113
  {
    if n % 4 == 0 {
      forall d: Bytes | |d| == n ensures Walk(d, 0, isUtf8).Done? { WalkStaysInside(d, 0, isUtf8); }
    } else if n < 113 {
      forall d: Bytes | |d| == n ensures Walk(d, 0, isUtf8).Done? { ShortStaysInside(d, isUtf8); }
    } else {
      var d := LeavingArchive(n, isUtf8);
    }
  }
}
