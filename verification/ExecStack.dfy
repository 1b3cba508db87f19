/** User memory as seen through an address space that is not loaded. */
module UserMemory {
  import opened Bits
  import opened Common
  import Entry = PageEntry
  import Tables = PageTableSpec
  import PageTableBuilder

  const USER_HALF: nat := TWO_48 / 2

  /** Present, writable and accessible to the user. */
  const USER_FLAGS: nat := 7

  type View = map<nat, Byte>

  /** `view` with `data` stored from `virt` on. */
  ghost function Store(view: View, virt: nat, data: seq<Byte>): (r: View)
    ensures forall v :: v in r <==> v in view
    ensures forall v :: v in view ==> r[v] == if virt <= v < virt + |data| then data[v - virt] else view[v]
  {
    StoreExists(view, virt, data);
    var r :| IsStored(view, virt, data, r);
    r
  }

  ghost predicate IsStored(view: View, virt: nat, data: seq<Byte>, r: View) {
    && (forall v :: v in r <==> v in view)
    && (forall v :: v in view ==> r[v] == if virt <= v < virt + |data| then data[v - virt] else view[v])
  }

  lemma StoreExists(view: View, virt: nat, data: seq<Byte>)
    ensures exists r :: IsStored(view, virt, data, r)
  {
    var r := map v | v in view :: if virt <= v < virt + |data| then data[v - virt] else view[v];
    assert IsStored(view, virt, data, r);
  }

  lemma StoreTwice(view: View, virt: nat, a: seq<Byte>, b: seq<Byte>)
    ensures Store(Store(view, virt, a), virt + |a|, b) == Store(view, virt, a + b)
  {
    var l, r := Store(Store(view, virt, a), virt + |a|, b), Store(view, virt, a + b);
    assert l.Keys == r.Keys;
    assert forall v :: v in l ==> l[v] == r[v];
  }

  lemma StoreStep(view: View, virt: nat, data: seq<Byte>, off: nat, before: View, cur: nat, bytes: seq<Byte>)
    requires off + |bytes| <= |data| && before == Store(view, virt, data[..off])
    requires cur == virt + off && bytes == data[off..off + |bytes|]
    ensures Store(before, cur, bytes) == Store(view, virt, data[..off + |bytes|])
  {
    StoreTwice(view, virt, data[..off], bytes);
    assert data[..off + |bytes|] == data[..off] + bytes;
  }

  lemma StoreNothing(view: View, virt: nat)
    ensures Store(view, virt, []) == view
  {
    var r := Store(view, virt, []);
    assert r.Keys == view.Keys;
    assert forall v :: v in r ==> r[v] == view[v];
  }

  ghost predicate Mapped(view: View, lo: nat, hi: nat) {
    forall v :: lo <= v < hi ==> v in view
  }

  /** The bytes from `v` on are `data`. */
  ghost predicate HasBytes(view: View, v: nat, data: seq<Byte>) {
    forall a :: v <= a < v + |data| ==> a in view && view[a] == data[a - v]
  }

  /** Little-endian words. */
  function ToLe(x: nat, n: nat): (s: seq<Byte>)
    ensures |s| == n
  {
    if n == 0 then [] else [x % 256] + ToLe(x / 256, n - 1)
  }

  function FromLe(s: seq<Byte>): nat {
    if s == [] then 0 else s[0] + 256 * FromLe(s[1..])
  }

  function Limit(n: nat): nat {
    if n == 0 then 1 else 256 * Limit(n - 1)
  }

  lemma {:induction false} LeRoundTrip(x: nat, n: nat)
    requires x < Limit(n)
    ensures FromLe(ToLe(x, n)) == x
  {
    if n > 0 {
      LeRoundTrip(x / 256, n - 1);
      assert ToLe(x, n)[1..] == ToLe(x / 256, n - 1);
    }
  }

  ghost predicate HasWord(view: View, v: nat, x: nat) {
    HasBytes(view, v, ToLe(x, 8))
  }

  /** Writes elsewhere keep what is there. */
  lemma StoreKeeps(view: View, virt: nat, data: seq<Byte>, v: nat, bytes: seq<Byte>)
    requires HasBytes(view, v, bytes) && (v + |bytes| <= virt || virt + |data| <= v)
    ensures HasBytes(Store(view, virt, data), v, bytes)
  {
  }

  lemma StoreHas(view: View, virt: nat, data: seq<Byte>)
    requires Mapped(view, virt, virt + |data|)
    ensures HasBytes(Store(view, virt, data), virt, data)
  {
  }

  /** `view` with one more page, all zeros. */
  ghost function WithZeroPage(view: View, page: nat): (r: View)
    ensures forall v: nat :: v in r <==> v in view || v / PAGE_SIZE == page
    ensures forall v: nat :: v in r ==> r[v] == if v / PAGE_SIZE == page then 0 else view[v]
  {
    ZeroPageExists(view, page);
    var r :| HasZeroPage(view, page, r);
    r
  }

  ghost predicate HasZeroPage(view: View, page: nat, r: View) {
    && (forall v: nat :: v in r <==> v in view || v / PAGE_SIZE == page)
    && (forall v: nat :: v in r ==> r[v] == if v / PAGE_SIZE == page then 0 else view[v])
  }

  lemma ZeroPageExists(view: View, page: nat)
    ensures exists r :: HasZeroPage(view, page, r)
  {
    var keys := view.Keys + set v: nat | page * PAGE_SIZE <= v < (page + 1) * PAGE_SIZE && v / PAGE_SIZE == page;
    var r := map v | v in keys :: if v / PAGE_SIZE == page then 0 else view[v];
    forall v: nat ensures v in r <==> v in view || v / PAGE_SIZE == page {
      assert v / PAGE_SIZE == page ==> page * PAGE_SIZE <= v < (page + 1) * PAGE_SIZE;
    }
    assert HasZeroPage(view, page, r);
  }

  /** How much of the next `n` bytes lies in the page of `cur`. */
  function Chunk(cur: nat, n: nat): (r: nat)
    requires n > 0
    ensures 0 < r <= n && cur % PAGE_SIZE + r <= PAGE_SIZE
  {
    var rest := PAGE_SIZE - cur % PAGE_SIZE;
    if rest < n then rest else n
  }

  /** A user byte is the byte of the frame that its page is mapped to. */
  ghost predicate SeesFrame(frames: map<nat, nat>, phys: map<nat, seq<Byte>>, view: View, v: nat) {
    && (v in view <==> v / PAGE_SIZE in frames)
    && (v in view ==>
      var frame := frames[v / PAGE_SIZE];
      frame in phys && |phys[frame]| == PAGE_SIZE && view[v] == phys[frame][v % PAGE_SIZE])
  }

  /** The tables map each user page to its frame, with the flags of a user page, and no other. */
  ghost predicate Walks(mem: Tables.Mem, root: Tables.Frame, frames: map<nat, nat>) {
    forall v: nat :: v < USER_HALF ==> Tables.Resolve(mem, root, Entry.Path(v)) == Leaf(frames, v / PAGE_SIZE)
  }

  function Leaf(frames: map<nat, nat>, p: nat): Option<Tables.Mapping> {
    if p in frames then Some(Tables.Mapping(frames[p], PAGE_SIZE, USER_FLAGS)) else None
  }

  /** A frame that a leaf entry can hold. */
  predicate IsFrame(frame: nat) { frame % PAGE_SIZE == 0 && frame < TWO_48 }

  lemma MapKeepsWalks(mem: Tables.Mem, mem': Tables.Mem, root: Tables.Frame, frames: map<nat, nat>, page: nat,
                      frame: nat)
    requires Walks(mem, root, frames) && page * PAGE_SIZE < USER_HALF && IsFrame(frame)
    requires PageTableBuilder.Fulfils(PageTableBuilder.Page(page * PAGE_SIZE, frame, USER_FLAGS), mem, mem', root)
    ensures Walks(mem', root, frames[page := frame])
  {
    Entry.TestBits(USER_FLAGS);
    assert page * PAGE_SIZE / PAGE_SIZE == page;
    assert frame / PAGE_SIZE % 0x10_0000_0000 * PAGE_SIZE == frame;
  }

  /** The pages of an address space: page tables that give each mapped page a frame, no frame twice. */
  class AddressSpace {
    const tables: PageTableBuilder.Builder
    var phys: map<nat, seq<Byte>>
    ghost var frames: map<nat, nat>
    ghost var view: View

    ghost predicate Valid()
      reads this, tables
    {
      && tables.Valid() && Walks(tables.mem, tables.root, frames)
      && (forall p :: p in frames ==> p * PAGE_SIZE < USER_HALF && frames[p] in phys && |phys[frames[p]]| == PAGE_SIZE)
      && (forall p, q :: p in frames && q in frames && frames[p] == frames[q] ==> p == q)
      && (forall v: nat :: SeesFrame(frames, phys, view, v))
    }

    constructor (tables: PageTableBuilder.Builder)
      requires tables.Valid() && forall v: nat :: v < USER_HALF ==> tables.View(v).None?
      ensures Valid() && this.tables == tables && frames == map[] && view == map[]
    {
      this.tables := tables;
      phys, frames, view := map[], map[], map[];
      new;
      forall v: nat | v < USER_HALF ensures Tables.Resolve(tables.mem, tables.root, Entry.Path(v)).None? {
        assert tables.View(v).None?;
      }
    }

    /** Maps a page to a zeroed frame that no page is mapped to; the kernel stops when there is no frame for a table. */
    method MapZeroPage(page: nat, frame: nat) returns (ok: bool)
      requires Valid() && page * PAGE_SIZE < USER_HALF && IsFrame(frame)
      requires forall p :: p in frames ==> frames[p] != frame
      modifies this, tables
      ensures (ok || |old(tables.free)| < 3) && |tables.free| >= |old(tables.free)| - 3
      ensures ok ==> Valid() && frames == old(frames)[page := frame]
      ensures ok ==> forall v: nat :: v in view <==> v in old(view) || v / PAGE_SIZE == page
      ensures ok ==> forall v: nat :: v in view ==> view[v] == if v / PAGE_SIZE == page then 0 else old(view)[v]
    {
      Entry.TestBits(USER_FLAGS);
      assert page * PAGE_SIZE / PAGE_SIZE == page;
      ok := tables.MapPage(page * PAGE_SIZE, frame, USER_FLAGS);
      if !ok { return; }
      MapKeepsWalks(old(tables.mem), tables.mem, tables.root, frames, page, frame);
      ghost var frames0, phys0, view0 := frames, phys, view;
      frames := frames[page := frame];
      phys := phys[frame := seq(PAGE_SIZE, _ => 0)];
      view := WithZeroPage(view, page);
      forall v: nat ensures SeesFrame(frames, phys, view, v) {
        assert SeesFrame(frames0, phys0, view0, v);
      }
    }

    /** Copies page by page through the frames that the page walk finds. */
    method WriteBytes(virt: nat, data: seq<Byte>)
      requires Valid() && Mapped(view, virt, virt + |data|)
      modifies this`phys, this`view
      ensures Valid() && view == Store(old(view), virt, data)
    {
      var off := 0;
      StoreNothing(view, virt);
      assert data[..0] == [];
      while off < |data|
        invariant 0 <= off <= |data|
        invariant Valid() && view == Store(old(view), virt, data[..off])
      {
        var cur := virt + off;
        var bytes := data[off..off + Chunk(cur, |data| - off)];
        StoreStep(old(view), virt, data, off, view, cur, bytes);
        assert cur in view;
        WriteChunk(cur, bytes);
        off := off + |bytes|;
      }
      assert data[..off] == data;
    }

    /** One copy inside one page. */
    method WriteChunk(cur: nat, bytes: seq<Byte>)
      requires Valid() && cur in view && cur % PAGE_SIZE + |bytes| <= PAGE_SIZE
      modifies this`phys, this`view
      ensures Valid() && view == Store(old(view), cur, bytes)
    {
      assert SeesFrame(frames, phys, view, cur);
      var off := cur % PAGE_SIZE;
      var at := tables.Translate(cur);
      var frame := at.value - off;
      assert frame == frames[cur / PAGE_SIZE];
      ghost var phys0, view0 := phys, view;
      phys := phys[frame := phys[frame][..off] + bytes + phys[frame][off + |bytes|..]];
      view := Store(view, cur, bytes);
      forall v: nat ensures SeesFrame(frames, phys, view, v) {
        ChunkIsSeen(frames, phys0, view0, cur, bytes, v);
      }
    }
  }

  /** What a copy inside the page of `cur` does to address `v`. */
  lemma ChunkIsSeen(frames: map<nat, nat>, phys: map<nat, seq<Byte>>, view: View, cur: nat, bytes: seq<Byte>, v: nat)
    requires cur in view && cur % PAGE_SIZE + |bytes| <= PAGE_SIZE
    requires SeesFrame(frames, phys, view, cur) && SeesFrame(frames, phys, view, v)
    requires forall p, q :: p in frames && q in frames && frames[p] == frames[q] ==> p == q
    ensures var off, frame := cur % PAGE_SIZE, frames[cur / PAGE_SIZE];
      var row := phys[frame][..off] + bytes + phys[frame][off + |bytes|..];
      SeesFrame(frames, phys[frame := row], Store(view, cur, bytes), v)
  {
    SamePage(cur, v, |bytes|);
  }

  lemma SamePage(cur: nat, v: nat, n: nat)
    requires cur % PAGE_SIZE + n <= PAGE_SIZE
    ensures cur <= v < cur + n
      <==> v / PAGE_SIZE == cur / PAGE_SIZE && cur % PAGE_SIZE <= v % PAGE_SIZE < cur % PAGE_SIZE + n
    ensures cur <= v < cur + n ==> v - cur == v % PAGE_SIZE - cur % PAGE_SIZE
  {
  }
}

/** The initial user stack: argument and environment strings, and the block of words below them. */
module ExecStack {
  import opened Common
  import opened UserMemory

  const USTACK_TOP: nat := 0x7fff_ffff_0000
  const USTACK_SIZE: nat := 256 * 1024
  const MAX_ARGV: nat := 32
  const MAX_ENVP: nat := 32
  const MAX_STRING: nat := 256

  /** What the strings take, with their terminators. */
  function Total(strs: seq<Bytes>): nat {
    if strs == [] then 0 else Total(strs[..|strs| - 1]) + |strs[|strs| - 1]| + 1
  }

  /** Where string `i` lies: the strings are packed downward from `top`. */
  function StringAt(top: nat, strs: seq<Bytes>, i: nat): int
    requires i < |strs|
  {
    top - Total(strs[..i + 1])
  }

  ghost predicate HasString(view: View, v: nat, s: Bytes) {
    HasBytes(view, v, s + [0])
  }

  /** Consecutive words from `v` on. */
  ghost predicate HasWords(view: View, v: nat, xs: seq<nat>) {
    forall i :: 0 <= i < |xs| ==> HasWord(view, v + 8 * i, xs[i])
  }

  /** Nothing changed outside `[lo, hi)`. */
  ghost predicate OnlyIn(before: View, after: View, lo: int, hi: int) {
    && (forall v :: v in after <==> v in before)
    && (forall v :: v in before && !(lo <= v < hi) ==> after[v] == before[v])
  }

  /** Every string is at its place with its terminator. */
  ghost predicate HasStrings(view: View, top: nat, strs: seq<Bytes>) {
    forall i :: 0 <= i < |strs| ==> 0 <= StringAt(top, strs, i) && HasString(view, StringAt(top, strs, i), strs[i])
  }

  lemma {:induction false} TotalGrows(strs: seq<Bytes>, i: nat, j: nat)
    requires i <= j <= |strs|
    ensures Total(strs[..i]) <= Total(strs[..j])
    ensures i < j ==> Total(strs[..i]) + |strs[j - 1]| + 1 <= Total(strs[..j])
    decreases j
  {
    if i < j {
      assert strs[..j][..j - 1] == strs[..j - 1];
      TotalGrows(strs, i, j - 1);
    }
  }

  /** A string lies between the packed end and `top`. */
  lemma StringInside(top: nat, strs: seq<Bytes>, i: nat)
    requires i < |strs|
    ensures top - Total(strs) <= StringAt(top, strs, i) && StringAt(top, strs, i) + |strs[i]| + 1 <= top
  {
    TotalGrows(strs, i, i + 1);
    TotalGrows(strs, i + 1, |strs|);
    assert strs[..|strs|] == strs;
  }

  /** The strings do not overlap, and lie between the packed end and `top`. */
  lemma StringsApart(top: nat, strs: seq<Bytes>, i: nat, j: nat)
    requires i < j < |strs|
    ensures StringAt(top, strs, j) + |strs[j]| + 1 <= StringAt(top, strs, i)
    ensures StringAt(top, strs, i) + |strs[i]| + 1 <= top && top - Total(strs) <= StringAt(top, strs, j)
  {
    TotalGrows(strs, i + 1, j + 1);
    StringInside(top, strs, i);
    StringInside(top, strs, j);
  }

  lemma {:induction false} TotalBound(strs: seq<Bytes>)
    requires forall i :: 0 <= i < |strs| ==> |strs[i]| <= MAX_STRING
    ensures Total(strs) <= |strs| * (MAX_STRING + 1)
  {
    if strs != [] { TotalBound(strs[..|strs| - 1]); }
  }

  // Writing

  lemma OnlyInKeepsBytes(before: View, after: View, lo: int, hi: int, v: nat, data: Bytes)
    requires OnlyIn(before, after, lo, hi) && HasBytes(before, v, data) && (v + |data| <= lo || hi <= v)
    ensures HasBytes(after, v, data)
  {
  }

  lemma OnlyInKeepsStrings(before: View, after: View, lo: int, hi: int, top: nat, strs: seq<Bytes>)
    requires OnlyIn(before, after, lo, hi) && HasStrings(before, top, strs) && hi <= top - Total(strs)
    ensures HasStrings(after, top, strs)
  {
    forall i | 0 <= i < |strs| ensures HasString(after, StringAt(top, strs, i), strs[i]) {
      TotalGrows(strs, i + 1, |strs|);
      assert strs[..|strs|] == strs;
      OnlyInKeepsBytes(before, after, lo, hi, StringAt(top, strs, i), strs[i] + [0]);
    }
  }

  lemma {:induction false} PushKeepsWords(view: View, v: nat, x: nat, xs: seq<nat>)
    requires HasWords(view, v + 8, xs) && Mapped(view, v, v + 8)
    ensures HasWords(Store(view, v, ToLe(x, 8)), v, [x] + xs)
  {
    StoreHas(view, v, ToLe(x, 8));
    WordsAfter(view, v, ToLe(x, 8), x, xs);
  }

  lemma {:induction false} WordsAfter(view: View, v: nat, word: Bytes, x: nat, xs: seq<nat>)
    requires |word| == 8 && HasWord(Store(view, v, word), v, x) && HasWords(view, v + 8, xs)
    ensures HasWords(Store(view, v, word), v, [x] + xs)
  {
    var view', all := Store(view, v, word), [x] + xs;
    forall i | 0 <= i < |all| ensures HasWord(view', v + 8 * i, all[i]) {
      WordAfter(view, view', v, word, x, xs, i, v + 8 * i, all[i]);
    }
  }

  lemma {:induction false} WordAfter(view: View, view': View, v: nat, word: Bytes, x: nat, xs: seq<nat>, i: nat,
                                     at: nat, y: nat)
    requires |word| == 8 && view' == Store(view, v, word) && HasWord(view', v, x) && HasWords(view, v + 8, xs)
    requires i <= |xs| && at == v + 8 * i && y == ([x] + xs)[i]
    ensures HasWord(view', at, y)
  {
    if i == 0 {
      assert at == v && y == x;
    } else {
      WordIsKept(view, v, word, xs, i - 1, at);
    }
  }

  lemma {:induction false} WordIsKept(view: View, v: nat, word: Bytes, xs: seq<nat>, i: nat, at: nat)
    requires |word| == 8 && HasWords(view, v + 8, xs) && i < |xs| && at == v + 8 + 8 * i
    ensures HasWord(Store(view, v, word), at, xs[i])
  {
    WordKept(view, v, word, at, xs[i]);
  }

  lemma {:induction false} WordKept(view: View, v: nat, word: Bytes, at: nat, x: nat)
    requires HasWord(view, at, x) && v + |word| <= at
    ensures HasWord(Store(view, v, word), at, x)
  {
    StoreKeeps(view, v, word, at, ToLe(x, 8));
  }

  /** Pushes one word. */
  method PushWord(space: AddressSpace, rsp: nat, x: nat, ghost xs: seq<nat>) returns (rsp': nat)
    requires space.Valid() && 8 <= rsp && Mapped(space.view, rsp - 8, rsp) && HasWords(space.view, rsp, xs)
    modifies space`phys, space`view
    ensures space.Valid() && rsp' == rsp - 8
    ensures HasWords(space.view, rsp', [x] + xs) && OnlyIn(old(space.view), space.view, rsp', rsp)
  {
    rsp' := rsp - 8;
    PushKeepsWords(space.view, rsp', x, xs);
    space.WriteBytes(rsp', ToLe(x, 8));
  }

  lemma TailOf(ptrs: seq<nat>, i: nat, xs: seq<nat>)
    requires i < |ptrs|
    ensures [ptrs[i]] + (ptrs[i + 1..] + xs) == ptrs[i..] + xs
  {
  }

  /** Pushes the words so that they end up in order. */
  method PushWords(space: AddressSpace, rsp: nat, ptrs: seq<nat>, ghost xs: seq<nat>) returns (rsp': nat)
    requires space.Valid() && 8 * |ptrs| <= rsp && Mapped(space.view, rsp - 8 * |ptrs|, rsp)
    requires HasWords(space.view, rsp, xs)
    modifies space`phys, space`view
    ensures space.Valid() && rsp' == rsp - 8 * |ptrs|
    ensures HasWords(space.view, rsp', ptrs + xs) && OnlyIn(old(space.view), space.view, rsp', rsp)
  {
    rsp' := rsp;
    var i := |ptrs|;
    assert ptrs[i..] + xs == xs;
    while i > 0
      invariant 0 <= i <= |ptrs| && rsp' == rsp - 8 * (|ptrs| - i)
      invariant space.Valid() && HasWords(space.view, rsp', ptrs[i..] + xs)
      invariant OnlyIn(old(space.view), space.view, rsp', rsp)
    {
      i := i - 1;
      TailOf(ptrs, i, xs);
      rsp' := PushWord(space, rsp', ptrs[i], ptrs[i + 1..] + xs);
    }
    assert ptrs[0..] + xs == ptrs + xs;
  }

  /** The first `n` strings are in place. */
  ghost predicate PackedUpTo(view: View, top: nat, strs: seq<Bytes>, n: nat)
    requires n <= |strs|
  {
    forall i :: 0 <= i < n ==> 0 <= StringAt(top, strs, i) && HasString(view, StringAt(top, strs, i), strs[i])
  }

  lemma StringBelow(top: nat, strs: seq<Bytes>, i: nat)
    requires i < |strs|
    ensures StringAt(top, strs, i) == top - Total(strs[..i]) - (|strs[i]| + 1)
    ensures top - Total(strs) <= StringAt(top, strs, i)
  {
    TotalGrows(strs, i + 1, |strs|);
    assert strs[..i + 1][..i] == strs[..i] && strs[..|strs|] == strs;
  }

  lemma PackStep(before: View, after: View, top: nat, strs: seq<Bytes>, i: nat)
    requires i < |strs| && PackedUpTo(before, top, strs, i)
    requires 0 <= StringAt(top, strs, i) && HasString(after, StringAt(top, strs, i), strs[i])
    requires OnlyIn(before, after, StringAt(top, strs, i), StringAt(top, strs, i) + |strs[i]| + 1)
    ensures PackedUpTo(after, top, strs, i + 1)
  {
    forall k | 0 <= k < i ensures HasString(after, StringAt(top, strs, k), strs[k]) {
      StringsApart(top, strs, k, i);
      var at := StringAt(top, strs, i);
      OnlyInKeepsBytes(before, after, at, at + |strs[i]| + 1, StringAt(top, strs, k), strs[k] + [0]);
    }
  }

  /** The addresses of the first strings. */
  ghost predicate AreAddresses(ptrs: seq<nat>, top: nat, strs: seq<Bytes>) {
    |ptrs| <= |strs| && forall p: nat, i :: IsAddressAt(ptrs, i, p) ==> p == StringAt(top, strs, i)
  }

  predicate IsAddressAt(ptrs: seq<nat>, i: int, p: nat) {
    0 <= i < |ptrs| && ptrs[i] == p
  }

  lemma AddressStep(ptrs: seq<nat>, top: nat, strs: seq<Bytes>, p: nat)
    requires AreAddresses(ptrs, top, strs) && |ptrs| < |strs| && p == StringAt(top, strs, |ptrs|)
    ensures AreAddresses(ptrs + [p], top, strs)
  {
    forall q: nat, i | IsAddressAt(ptrs + [p], i, q) ensures q == StringAt(top, strs, i) {
      assert i < |ptrs| ==> IsAddressAt(ptrs, i, q);
    }
  }

  /** Puts string `i` below the strings before it. */
  method PackNext(space: AddressSpace, ghost top: nat, strs: seq<Bytes>, i: nat, rsp: nat) returns (rsp': nat)
    requires space.Valid() && i < |strs| && rsp == top - Total(strs[..i]) && PackedUpTo(space.view, top, strs, i)
    requires Total(strs) <= top && Mapped(space.view, top - Total(strs), top)
    modifies space`phys, space`view
    ensures space.Valid() && rsp' == StringAt(top, strs, i) == top - Total(strs[..i + 1]) && rsp' <= rsp
    ensures PackedUpTo(space.view, top, strs, i + 1) && OnlyIn(old(space.view), space.view, rsp', rsp)
  {
    StringBelow(top, strs, i);
    rsp' := rsp - (|strs[i]| + 1);
    PackOne(space, rsp', strs[i]);
    PackStep(old(space.view), space.view, top, strs, i);
  }

  /** Packs the strings downward from `top`. */
  method PackStrings(space: AddressSpace, top: nat, strs: seq<Bytes>) returns (ptrs: seq<nat>, rsp: nat)
    requires space.Valid() && Total(strs) <= top && Mapped(space.view, top - Total(strs), top)
    modifies space`phys, space`view
    ensures space.Valid() && rsp == top - Total(strs)
    ensures |ptrs| == |strs| && AreAddresses(ptrs, top, strs)
    ensures HasStrings(space.view, top, strs) && OnlyIn(old(space.view), space.view, rsp, top)
  {
    ptrs, rsp := [], top;
    var i := 0;
    while i < |strs|
      invariant 0 <= i <= |strs| && |ptrs| == i && rsp == top - Total(strs[..i])
      invariant space.Valid() && OnlyIn(old(space.view), space.view, rsp, top)
      invariant AreAddresses(ptrs, top, strs)
      invariant PackedUpTo(space.view, top, strs, i)
    {
      rsp := PackNext(space, top, strs, i, rsp);
      AddressStep(ptrs, top, strs, rsp);
      ptrs := ptrs + [rsp];
      i := i + 1;
    }
    assert strs[..|strs|] == strs;
  }

  /** One string and its terminator. */
  method PackOne(space: AddressSpace, v: nat, s: Bytes)
    requires space.Valid() && Mapped(space.view, v, v + |s| + 1)
    modifies space`phys, space`view
    ensures space.Valid() && HasString(space.view, v, s) && OnlyIn(old(space.view), space.view, v, v + |s| + 1)
  {
    StoreTwice(space.view, v, s, [0]);
    StoreHas(space.view, v, s + [0]);
    space.WriteBytes(v, s);
    space.WriteBytes(v + |s|, [0]);
  }

  /** The words from the stack pointer up: argc, argv and NULL, envp and NULL, and the AT_NULL entry. */
  function Block(argc: nat, ptrs: seq<nat>): (xs: seq<nat>)
    requires argc <= |ptrs|
    ensures |xs| == 5 + |ptrs|
  {
    [argc] + (ptrs[..argc] + ([0] + (ptrs[argc..] + [0, 0, 0])))
  }

  /** What `execve` accepts. */
  predicate Accepted(argv: seq<Bytes>, envp: seq<Bytes>) {
    && |argv| <= MAX_ARGV && |envp| <= MAX_ENVP
    && (forall i :: 0 <= i < |argv| ==> |argv[i]| <= MAX_STRING)
    && (forall i :: 0 <= i < |envp| ==> |envp[i]| <= MAX_STRING)
  }

  /** The block fits below the strings, aligned, and everything fits into the mapped stack. */
  ghost predicate IsInitialStack(view: View, rsp: nat, top: nat, argv: seq<Bytes>, envp: seq<Bytes>, ptrs: seq<nat>) {
    && rsp % 16 == 0 && USTACK_TOP - USTACK_SIZE <= rsp && rsp + 8 * (5 + |argv| + |envp|) <= top - Total(argv + envp)
    && |ptrs| == |argv| + |envp| && AreAddresses(ptrs, top, argv + envp)
    && HasWords(view, rsp, Block(|argv|, ptrs)) && HasStrings(view, top, argv + envp)
  }

  lemma AcceptedFits(argv: seq<Bytes>, envp: seq<Bytes>)
    requires Accepted(argv, envp)
    ensures Total(argv + envp) <= 64 * 257
  {
    TotalBound(argv + envp);
  }

  /** Where the block starts growing down, so that it ends on a multiple of 16. */
  function BlockTop(strRsp: nat, words: nat): int {
    var rsp := strRsp - strRsp % 16;
    if rsp % 16 != (words * 8) % 16 then rsp - 8 else rsp
  }

  lemma BlockEndsAligned(strRsp: nat, words: nat)
    ensures (BlockTop(strRsp, words) - 8 * words) % 16 == 0 && strRsp - 24 < BlockTop(strRsp, words) <= strRsp
  {
    var q := strRsp / 16;
    assert strRsp - strRsp % 16 == 16 * q;
    if words % 2 == 0 {
      assert 8 * words == 16 * (words / 2);
    } else {
      assert 8 * words == 16 * (words / 2) + 8;
    }
  }

  method SetupStack(space: AddressSpace, top: nat, argv: seq<Bytes>, envp: seq<Bytes>)
    returns (rsp: nat, ghost ptrs: seq<nat>)
    requires space.Valid() && Accepted(argv, envp) && top == USTACK_TOP - 8
    requires Mapped(space.view, USTACK_TOP - USTACK_SIZE, USTACK_TOP)
    modifies space`phys, space`view
    ensures space.Valid() && IsInitialStack(space.view, rsp, top, argv, envp, ptrs)
    ensures OnlyIn(old(space.view), space.view, rsp, top)
  {
    AcceptedFits(argv, envp);
    var addrs, strRsp := PackStrings(space, top, argv + envp);
    ghost var packed := space.view;
    BlockEndsAligned(strRsp, 5 + |argv| + |envp|);
    var start := BlockTop(strRsp, 5 + |argv| + |envp|);
    rsp := PushBlock(space, start, |argv|, addrs);
    ptrs := addrs;
    LaidOut(packed, space.view, rsp, start, strRsp, top, argv, envp, ptrs);
  }

  /** The strings and, below them, the block make up the stack. */
  lemma LaidOut(packed: View, view: View, rsp: nat, start: nat, strRsp: nat, top: nat, argv: seq<Bytes>,
                envp: seq<Bytes>,
                ptrs: seq<nat>)
    requires |argv| + |envp| <= 64 && top == USTACK_TOP - 8 && strRsp == top - Total(argv + envp) >= top - 64 * 257
    requires strRsp - 24 < start <= strRsp && rsp == start - 8 * (5 + |argv| + |envp|) && rsp % 16 == 0
    requires |ptrs| == |argv| + |envp| && AreAddresses(ptrs, top, argv + envp) && HasStrings(packed, top, argv + envp)
    requires HasWords(view, rsp, Block(|argv|, ptrs)) && OnlyIn(packed, view, rsp, start)
    ensures IsInitialStack(view, rsp, top, argv, envp, ptrs)
  {
    OnlyInKeepsStrings(packed, view, rsp, start, top, argv + envp);
  }

  const USTACK_PAGES: nat := USTACK_SIZE / PAGE_SIZE

  /** Maps the whole stack; the frames are new to the address space. */
  method MapUserStack(space: AddressSpace, pool: seq<nat>) returns (ok: bool, top: nat)
    requires space.Valid() && |pool| == USTACK_PAGES && forall i :: 0 <= i < |pool| ==> IsFrame(pool[i])
    requires forall i, j :: 0 <= i < j < |pool| ==> pool[i] != pool[j]
    requires forall i, p :: 0 <= i < |pool| && p in space.frames ==> space.frames[p] != pool[i]
    modifies space, space.tables
    ensures top == USTACK_TOP - 8 && (ok || |old(space.tables.free)| < 3 * USTACK_PAGES)
    ensures ok ==> space.Valid() && Mapped(space.view, USTACK_TOP - USTACK_SIZE, USTACK_TOP)
    ensures ok ==> forall v: nat :: v in old(space.view) && !(USTACK_TOP - USTACK_SIZE <= v < USTACK_TOP) ==>
      v in space.view && space.view[v] == old(space.view)[v]
  {
    var base := (USTACK_TOP - USTACK_SIZE) / PAGE_SIZE;
    top := USTACK_TOP - 8;
    var page := 0;
    while page < USTACK_PAGES
      invariant 0 <= page <= USTACK_PAGES && space.Valid() && |space.tables.free| >= |old(space.tables.free)| - 3 * page
      invariant forall v: nat :: base <= v / PAGE_SIZE < base + page ==> v in space.view
      invariant forall v: nat :: v in old(space.view) && !(base <= v / PAGE_SIZE < base + page) ==>
        v in space.view && space.view[v] == old(space.view)[v]
      invariant forall i, p :: page <= i < |pool| && p in space.frames ==> space.frames[p] != pool[i]
    {
      ok := space.MapZeroPage(base + page, pool[page]);
      if !ok { return; }
      page := page + 1;
    }
    ok := true;
  }

  /** A fresh stack, mapped and laid out through the page tables: the walk always finds its page. */
  method BuildStack(space: AddressSpace, pool: seq<nat>, argv: seq<Bytes>, envp: seq<Bytes>)
    returns (ok: bool, rsp: nat, ghost ptrs: seq<nat>)
    requires space.Valid() && Accepted(argv, envp)
    requires |pool| == USTACK_PAGES && forall i :: 0 <= i < |pool| ==> IsFrame(pool[i])
    requires forall i, j :: 0 <= i < j < |pool| ==> pool[i] != pool[j]
    requires forall i, p :: 0 <= i < |pool| && p in space.frames ==> space.frames[p] != pool[i]
    modifies space, space.tables
    ensures ok || |old(space.tables.free)| < 3 * USTACK_PAGES
    ensures ok ==> space.Valid() && IsInitialStack(space.view, rsp, USTACK_TOP - 8, argv, envp, ptrs)
  {
    var top;
    ok, top := MapUserStack(space, pool);
    rsp, ptrs := 0, [];
    if ok { rsp, ptrs := SetupStack(space, top, argv, envp); }
  }

  /** Pushes the block from its end. */
  method PushBlock(space: AddressSpace, start: nat, argc: nat, ptrs: seq<nat>) returns (rsp: nat)
    requires space.Valid() && argc <= |ptrs| && 8 * (5 + |ptrs|) <= start
    requires Mapped(space.view, start - 8 * (5 + |ptrs|), start)
    modifies space`phys, space`view
    ensures space.Valid() && rsp == start - 8 * (5 + |ptrs|)
    ensures HasWords(space.view, rsp, Block(argc, ptrs)) && OnlyIn(old(space.view), space.view, rsp, start)
  {
    rsp := PushZeros(space, start);
    ghost var xs := [0, 0, 0];
    rsp := PushWords(space, rsp, ptrs[argc..], xs);
    xs := ptrs[argc..] + xs;
    rsp := PushWord(space, rsp, 0, xs);
    xs := [0] + xs;
    rsp := PushWords(space, rsp, ptrs[..argc], xs);
    xs := ptrs[..argc] + xs;
    rsp := PushWord(space, rsp, argc, xs);
  }

  /** The AT_NULL entry's value and type, and the NULL that ends envp. */
  method PushZeros(space: AddressSpace, start: nat) returns (rsp: nat)
    requires space.Valid() && 24 <= start && Mapped(space.view, start - 24, start)
    modifies space`phys, space`view
    ensures space.Valid() && rsp == start - 24
    ensures HasWords(space.view, rsp, [0, 0, 0]) && OnlyIn(old(space.view), space.view, rsp, start)
  {
    rsp := PushWord(space, start, 0, []);
    assert [0] + [] == [0];
    rsp := PushWord(space, rsp, 0, [0]);
    assert [0] + [0] == [0, 0];
    rsp := PushWord(space, rsp, 0, [0, 0]);
    assert [0] + [0, 0] == [0, 0, 0];
  }

  // What the new program reads

  ghost function ReadWord(view: View, v: nat): nat
    requires Mapped(view, v, v + 8)
  {
    FromLe(seq(8, i requires 0 <= i < 8 => view[v + i]))
  }

  lemma WordReadsBack(view: View, v: nat, x: nat)
    requires HasWord(view, v, x) && x < 0x1_0000_0000_0000_0000
    ensures Mapped(view, v, v + 8) && ReadWord(view, v) == x
  {
    assert Limit(8) == 0x1_0000_0000_0000_0000;
    LeRoundTrip(x, 8);
    assert seq(8, i requires 0 <= i < 8 => view[v + i]) == ToLe(x, 8);
  }

  /** The string at `v` up to its terminator. */
  ghost predicate IsCString(view: View, v: nat, s: Bytes) {
    HasString(view, v, s) && 0 !in s
  }

  lemma CStringIsUnique(view: View, v: nat, s: Bytes, t: Bytes)
    requires IsCString(view, v, s) && IsCString(view, v, t)
    ensures s == t
  {
    EndsAtZero(view, v, s);
    EndsAtZero(view, v, t);
  }

  lemma EndsAtZero(view: View, v: nat, s: Bytes)
    requires IsCString(view, v, s)
    ensures v + |s| in view && view[v + |s|] == 0
    ensures forall i :: 0 <= i < |s| ==> v + i in view && s[i] == view[v + i] != 0
  {
    assert (s + [0])[|s|] == 0;
    forall i | 0 <= i < |s| ensures v + i in view && s[i] == view[v + i] != 0 {
      assert (s + [0])[i] == s[i] && s[i] in s;
    }
  }

  /**
   The program reads argc, a pointer to each exact argument, and a NULL; then the environment the
   same way, and AT_NULL.
   */
  lemma ProgramReads(view: View, rsp: nat, top: nat, argv: seq<Bytes>, envp: seq<Bytes>, ptrs: seq<nat>, i: nat)
    requires IsInitialStack(view, rsp, top, argv, envp, ptrs) && top < USTACK_TOP && |argv| <= MAX_ARGV
    requires i < 5 + |argv| + |envp|
    requires forall k :: 0 <= k < |argv + envp| ==> 0 !in (argv + envp)[k]
    ensures Mapped(view, rsp + 8 * i, rsp + 8 * i + 8)
    ensures var word := ReadWord(view, rsp + 8 * i);
      if i == 0 then word == |argv|
      else if i <= |argv| then IsCString(view, word, argv[i - 1])
      else if i == |argv| + 1 then word == 0
      else if i < |argv| + 2 + |envp| then IsCString(view, word, envp[i - |argv| - 2])
      else word == 0
  {
    var xs := Block(|argv|, ptrs);
    var all := argv + envp;
    assert HasWord(view, rsp + 8 * i, xs[i]);
    if 1 <= i <= |argv| {
      assert xs[i] == ptrs[i - 1];
      AddressIsString(view, top, all, ptrs, i - 1);
    } else if |argv| + 2 <= i < |argv| + 2 + |envp| {
      assert xs[i] == ptrs[i - 2];
      AddressIsString(view, top, all, ptrs, i - 2);
    }
    WordReadsBack(view, rsp + 8 * i, xs[i]);
  }

  lemma AddressIsString(view: View, top: nat, strs: seq<Bytes>, ptrs: seq<nat>, k: nat)
    requires k < |ptrs| == |strs| && AreAddresses(ptrs, top, strs) && HasStrings(view, top, strs)
    ensures HasString(view, ptrs[k], strs[k]) && ptrs[k] <= top
  {
    assert IsAddressAt(ptrs, k, ptrs[k]);
  }
}
