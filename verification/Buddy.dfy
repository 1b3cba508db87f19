/**
 What the frame allocator keeps: one intrusive list of free blocks per order, and
 an owner for every page of inserted memory.

 Pages are counted by frame number. A list's head word packs the frame number of
 its first block over a 16-bit generation; each free block's first page stores
 the physical address of the next block.
 */
module BuddySpec {
  import opened Bits
  import opened Common

  type Page = int

  const MAX_ORDER: nat := 10
  const MAX_PAGES: nat := TWO_32

  /** A page is in the free block that starts at `base`, was handed out, or can never be found again. */
  datatype Owner = Free(base: Page, order: nat) | Held | Lost

  type Owners = map<Page, Owner>
  type Lists = seq<seq<Page>>

  function Size(order: nat): nat { Pow2(order) }

  // Head words

  function PackHead(frame: nat, tag: nat): nat { Or(frame * TWO_16, And(tag, 0xFFFF)) }

  function HeadFrame(word: nat): nat { word / TWO_16 }

  function HeadTag(word: nat): nat { And(word, 0xFFFF) }

  /** The frame number and the low bits of the generation survive packing. */
  lemma HeadRoundTrip(frame: nat, tag: nat)
    ensures HeadFrame(PackHead(frame, tag)) == frame && HeadTag(PackHead(frame, tag)) == tag % TWO_16
  {
    var k: nat := 16;
    Pow2Values();
    AndLowMask(tag, k);
    OrDisjoint(frame, tag % TWO_16, k);
    DivModUnique(PackHead(frame, tag), TWO_16, frame, tag % TWO_16);
    AndLowMask(PackHead(frame, tag), k);
  }

  // Invariants

  function First(list: seq<Page>): Page { if list == [] then 0 else list[0] }

  /** The packed head and the links in the frames spell out the list. */
  ghost predicate ChainInv(head: nat, next: map<Page, nat>, list: seq<Page>) {
    && HeadFrame(head) == First(list)
    && forall i :: 0 <= i < |list| ==> list[i] in next && next[list[i]] == PAGE_SIZE * First(list[i + 1..])
  }

  /** Naturally aligned, and below the address limit. */
  predicate IsAligned(b: Page, order: nat) {
    0 <= b && b % Size(order) == 0 && b + Size(order) <= MAX_PAGES
  }

  /** A block that a list can hold. */
  predicate IsBlock(b: Page, order: nat) { 0 < b && IsAligned(b, order) }

  predicate InBlock(p: Page, b: Page, order: nat) { b <= p < b + Size(order) }

  /** Every page of a listed block is owned by it. */
  ghost predicate BlockInv(owner: Owners, lists: Lists, order: nat, b: Page) {
    order < |lists| && b in lists[order] ==>
      IsBlock(b, order) && forall p :: InBlock(p, b, order) ==> p in owner && owner[p] == Free(b, order)
  }

  /** Every free page is in a listed block. */
  ghost predicate PageInv(owner: Owners, lists: Lists, p: Page) {
    p in owner && owner[p].Free? ==>
      var k := owner[p].order; k < |lists| && owner[p].base in lists[k] && InBlock(p, owner[p].base, k)
  }

  ghost predicate ListInv(heads: seq<nat>, next: map<Page, nat>, lists: Lists, order: nat)
    requires |heads| == |lists|
  {
    order < |lists| ==>
      && ChainInv(heads[order], next, lists[order])
      && forall i, j :: 0 <= i < j < |lists[order]| ==> lists[order][i] != lists[order][j]
  }

  /**
   The lists refine sequences of blocks, and free and handed-out pages tile the inserted memory:
   a page has one owner, free exactly when it is in a listed block.
   */
  ghost predicate Inv(heads: seq<nat>, next: map<Page, nat>, lists: Lists, owner: Owners) {
    && |heads| == |lists| == MAX_ORDER + 1
    && (forall k: nat :: ListInv(heads, next, lists, k))
    && (forall k: nat, b: Page :: BlockInv(owner, lists, k, b))
    && (forall p: Page :: PageInv(owner, lists, p))
  }

  /** Pages outside the inserted memory, free pages, handed-out pages, and lost pages. */
  datatype Status = Outside | IsFree | IsHeld | IsLost

  function StatusOf(owner: Owners, p: Page): Status {
    if p !in owner then Outside
    else match owner[p]
      case Free(_, _) => IsFree
      case Held => IsHeld
      case Lost => IsLost
  }

  /** The page is in a block of the list of this order. */
  predicate OnList(owner: Owners, p: Page, order: nat) {
    p in owner && owner[p].Free? && owner[p].order == order
  }

  ghost predicate AllAre(owner: Owners, lo: Page, hi: Page, status: Status) {
    forall p :: lo <= p < hi ==> StatusOf(owner, p) == status
  }

  /** The pages from `lo` up to `hi` got the status; no other page changed. */
  ghost predicate Turned(before: Owners, after: Owners, lo: Page, hi: Page, status: Status) {
    forall p :: StatusOf(after, p) == if lo <= p < hi then status else StatusOf(before, p)
  }

  /** The `n` pages from `b` on. */
  ghost function Range(b: Page, n: nat): (r: set<Page>)
    ensures |r| == n && forall p :: p in r <==> b <= p < b + n
  {
    RangeExists(b, n);
    var r :| IsRange(b, n, r);
    r
  }

  ghost predicate IsRange(b: Page, n: nat, r: set<Page>) {
    |r| == n && forall p :: p in r <==> b <= p < b + n
  }

  lemma {:induction false} RangeExists(b: Page, n: nat)
    ensures exists r :: IsRange(b, n, r)
  {
    if n == 0 {
      assert IsRange(b, n, {});
    } else {
      RangeExists(b, n - 1);
      var r :| IsRange(b, n - 1, r);
      assert IsRange(b, n, r + {b + n - 1});
    }
  }

  /** The pages that the counter counts as free, whether or not they can be found. */
  predicate IsCounted(owner: Owners, p: Page) {
    StatusOf(owner, p).IsFree? || StatusOf(owner, p).IsLost?
  }

  ghost function Counted(owner: Owners): (r: set<Page>)
    ensures forall p :: p in r <==> IsCounted(owner, p)
  {
    CountedExist(owner);
    var r :| AreCounted(owner, r);
    r
  }

  ghost predicate AreCounted(owner: Owners, r: set<Page>) {
    forall p :: p in r <==> IsCounted(owner, p)
  }

  lemma CountedExist(owner: Owners)
    ensures exists r :: AreCounted(owner, r)
  {
    assert AreCounted(owner, set p | p in owner && !owner[p].Held?);
  }

  /** Giving handed-out pages back raises the count by as many. */
  lemma {:induction false} FreeCounts(before: Owners, after: Owners, b: Page, n: nat)
    requires AllAre(before, b, b + n, IsHeld)
    requires forall p :: IsCounted(after, p) <==> b <= p < b + n || IsCounted(before, p)
    ensures |Counted(after)| == |Counted(before)| + n
  {
    assert Counted(after) == Counted(before) + Range(b, n);
  }

  /** Adding pages as handed out changes no count. */
  lemma {:induction false} AddCounts(before: Owners, after: Owners, b: Page, n: nat)
    requires AllAre(before, b, b + n, Outside) && Turned(before, after, b, b + n, IsHeld)
    ensures Counted(after) == Counted(before)
  {
    forall p ensures p in Counted(after) <==> p in Counted(before) {
      assert p in Counted(before) <==> IsCounted(before, p);
    }
  }

  /** Handing out free pages lowers the count by as many. */
  lemma {:induction false} TakeCounts(before: Owners, after: Owners, b: Page, n: nat)
    requires AllAre(before, b, b + n, IsFree) && Turned(before, after, b, b + n, IsHeld)
    ensures |Counted(after)| == |Counted(before)| - n
  {
    assert Counted(before) == Counted(after) + Range(b, n);
  }

  /** Gives `n` pages from `b` the owner `o`. */
  ghost function Mark(owner: Owners, b: Page, n: nat, o: Owner): (r: Owners)
    ensures forall p :: p in r <==> p in owner || b <= p < b + n
    ensures forall p :: p in r ==> r[p] == if b <= p < b + n then o else owner[p]
  {
    MarkExists(owner, b, n, o);
    var r :| IsMarked(owner, b, n, o, r);
    r
  }

  ghost predicate IsMarked(owner: Owners, b: Page, n: nat, o: Owner, r: Owners) {
    && (forall p :: p in r <==> p in owner || b <= p < b + n)
    && (forall p :: p in r ==> r[p] == if b <= p < b + n then o else owner[p])
  }

  lemma MarkExists(owner: Owners, b: Page, n: nat, o: Owner)
    ensures exists r :: IsMarked(owner, b, n, o, r)
  {
    var pages := owner.Keys + Range(b, n);
    var r := map p | p in pages :: if b <= p < b + n then o else owner[p];
    assert IsMarked(owner, b, n, o, r);
  }

  /** Frame 0 was pushed: its block and all blocks that were on the list cannot be found again. */
  ghost predicate LostAt(before: Owners, after: Owners, order: nat) {
    forall p ::
      StatusOf(after, p) == if 0 <= p < Size(order) || OnList(before, p, order) then IsLost else StatusOf(before, p)
  }

  ghost function Lose(owner: Owners, order: nat): (r: Owners)
    requires AllAre(owner, 0, Size(order), IsHeld)
    ensures IsLoss(owner, order, r)
  {
    LossExists(owner, order);
    var r :| IsLoss(owner, order, r);
    r
  }

  ghost predicate IsLoss(owner: Owners, order: nat, r: Owners) {
    && (forall p :: p in r <==> p in owner)
    && (forall p :: p in r ==> r[p] == if 0 <= p < Size(order) || OnList(owner, p, order) then Lost else owner[p])
  }

  lemma LoseLoses(owner: Owners, order: nat)
    requires AllAre(owner, 0, Size(order), IsHeld)
    ensures LostAt(owner, Lose(owner, order), order)
    ensures forall p :: IsCounted(Lose(owner, order), p) <==> 0 <= p < Size(order) || IsCounted(owner, p)
  {
    forall p | 0 <= p < Size(order) ensures p in owner { assert StatusOf(owner, p) == IsHeld; }
  }

  lemma LossExists(owner: Owners, order: nat)
    ensures exists r :: IsLoss(owner, order, r)
  {
    var r := map p | p in owner :: if 0 <= p < Size(order) || OnList(owner, p, order) then Lost else owner[p];
    assert IsLoss(owner, order, r);
  }

  // Pushing and popping

  function PushHead(heads: seq<nat>, order: nat, b: nat): seq<nat>
    requires order < |heads|
  {
    heads[order := PackHead(b, HeadTag(heads[order]) + 1)]
  }

  function PushNext(heads: seq<nat>, next: map<Page, nat>, order: nat, b: nat): map<Page, nat>
    requires order < |heads|
  {
    next[b := HeadFrame(heads[order]) * PAGE_SIZE]
  }

  /** Where two blocks of handed-out pages are pushed, nothing already listed shares a first page. */
  lemma HeldIsNotListed(heads: seq<nat>, next: map<Page, nat>, lists: Lists, owner: Owners, b: Page, order: nat)
    requires Inv(heads, next, lists, owner) && AllAre(owner, b, b + Size(order), IsHeld)
    ensures forall k: nat :: k < |lists| ==> b !in lists[k]
  {
    forall k: nat | k < |lists| ensures b !in lists[k] {
      assert BlockInv(owner, lists, k, b);
      assert InBlock(b, b, k) && StatusOf(owner, b) == IsHeld;
    }
  }

  lemma PushKeepsInv(heads: seq<nat>, next: map<Page, nat>, lists: Lists, owner: Owners, order: nat, b: nat)
    requires Inv(heads, next, lists, owner) && order <= MAX_ORDER && IsBlock(b, order)
    requires AllAre(owner, b, b + Size(order), IsHeld)
    ensures Inv(PushHead(heads, order, b), PushNext(heads, next, order, b),
                lists[order := [b] + lists[order]], Mark(owner, b, Size(order), Free(b, order)))
  {
    var heads', next' := PushHead(heads, order, b), PushNext(heads, next, order, b);
    var lists', owner' := lists[order := [b] + lists[order]], Mark(owner, b, Size(order), Free(b, order));
    HeldIsNotListed(heads, next, lists, owner, b, order);
    HeadRoundTrip(b, HeadTag(heads[order]) + 1);
    forall k: nat ensures ListInv(heads', next', lists', k) {
      PushKeepsList(heads, next, lists, order, b, k);
    }
    forall k: nat, c: Page ensures BlockInv(owner', lists', k, c) {
      assert BlockInv(owner, lists, k, c);
      if k < |lists| && c in lists[k] {
        forall p | InBlock(p, c, k) ensures p in owner' && owner'[p] == Free(c, k) {
          assert StatusOf(owner, p) == IsFree;
        }
      }
    }
    forall p: Page ensures PageInv(owner', lists', p) { assert PageInv(owner, lists, p); }
  }

  lemma {:induction false} PushKeepsList(heads: seq<nat>, next: map<Page, nat>, lists: Lists, order: nat, b: nat,
                                         k: nat)
    requires |heads| == |lists| && order < |lists| && ListInv(heads, next, lists, k)
    requires ListInv(heads, next, lists, order)
    requires forall j: nat :: j < |lists| ==> b !in lists[j]
    ensures ListInv(PushHead(heads, order, b), PushNext(heads, next, order, b), lists[order := [b] + lists[order]], k)
  {
    if k == order {
      var list := [b] + lists[k];
      HeadRoundTrip(b, HeadTag(heads[order]) + 1);
      forall i | 0 <= i < |list|
        ensures list[i] in PushNext(heads, next, order, b)
        ensures PushNext(heads, next, order, b)[list[i]] == PAGE_SIZE * First(list[i + 1..])
      {
        if i == 0 {
          assert list[1..] == lists[k];
        } else {
          assert list[i + 1..] == lists[k][i..] && list[i] in lists[k];
        }
      }
    } else if k < |lists| {
      forall i | 0 <= i < |lists[k]| ensures lists[k][i] != b { assert lists[k][i] in lists[k]; }
    }
  }

  /** The block a pop takes, and the head it leaves. */
  function PopHead(heads: seq<nat>, next: map<Page, nat>, order: nat): seq<nat>
    requires order < |heads| && HeadFrame(heads[order]) in next
  {
    heads[order := PackHead(next[HeadFrame(heads[order])] / PAGE_SIZE, HeadTag(heads[order]) + 1)]
  }

  lemma PopKeepsInv(heads: seq<nat>, next: map<Page, nat>, lists: Lists, owner: Owners, order: nat)
    requires Inv(heads, next, lists, owner) && order <= MAX_ORDER && HeadFrame(heads[order]) != 0
    ensures lists[order] != [] && lists[order][0] == HeadFrame(heads[order]) && HeadFrame(heads[order]) in next
    ensures IsBlock(lists[order][0], order)
    ensures next[lists[order][0]] % PAGE_SIZE == 0 && next[lists[order][0]] < MAX_PAGES * PAGE_SIZE
    ensures AllAre(owner, lists[order][0], lists[order][0] + Size(order), IsFree)
    ensures Inv(PopHead(heads, next, order), next, lists[order := lists[order][1..]],
                Mark(owner, lists[order][0], Size(order), Held))
  {
    assert ListInv(heads, next, lists, order);
    var b := lists[order][0];
    assert BlockInv(owner, lists, order, b);
    PopIsPlausible(heads, next, lists, owner, order);
    var heads', lists' := PopHead(heads, next, order), lists[order := lists[order][1..]];
    var owner' := Mark(owner, b, Size(order), Held);
    forall k: nat ensures ListInv(heads', next, lists', k) {
      assert ListInv(heads, next, lists, k);
      if k == order { PopKeepsList(heads, next, lists, order); }
    }
    forall k: nat, c: Page ensures BlockInv(owner', lists', k, c) {
      PopKeepsBlock(owner, lists, owner', order, k, c);
    }
    forall p: Page ensures PageInv(owner', lists', p) {
      assert PageInv(owner, lists, p);
    }
  }

  lemma PopIsPlausible(heads: seq<nat>, next: map<Page, nat>, lists: Lists, owner: Owners, order: nat)
    requires Inv(heads, next, lists, owner) && order <= MAX_ORDER && lists[order] != []
    ensures lists[order][0] in next
    ensures next[lists[order][0]] % PAGE_SIZE == 0 && next[lists[order][0]] < MAX_PAGES * PAGE_SIZE
    ensures next[lists[order][0]] / PAGE_SIZE == First(lists[order][1..])
  {
    assert ListInv(heads, next, lists, order);
    if |lists[order]| > 1 {
      assert lists[order][1] in lists[order];
      assert BlockInv(owner, lists, order, lists[order][1]);
    }
  }

  lemma PopKeepsList(heads: seq<nat>, next: map<Page, nat>, lists: Lists, order: nat)
    requires |heads| == |lists| && order < |lists| && ListInv(heads, next, lists, order) && lists[order] != []
    requires HeadFrame(heads[order]) == lists[order][0] && lists[order][0] in next
    requires next[lists[order][0]] / PAGE_SIZE == First(lists[order][1..])
    ensures ListInv(PopHead(heads, next, order), next, lists[order := lists[order][1..]], order)
  {
    var list := lists[order][1..];
    HeadRoundTrip(next[lists[order][0]] / PAGE_SIZE, HeadTag(heads[order]) + 1);
    forall i | 0 <= i < |list| ensures list[i] in next && next[list[i]] == PAGE_SIZE * First(list[i + 1..]) {
      assert list[i] == lists[order][i + 1] && list[i + 1..] == lists[order][i + 2..];
    }
  }

  lemma PopKeepsBlock(owner: Owners, lists: Lists, owner': Owners, order: nat, k: nat, c: Page)
    requires order < |lists| && lists[order] != [] && BlockInv(owner, lists, k, c)
    requires forall i :: 0 < i < |lists[order]| ==> lists[order][i] != lists[order][0]
    requires forall p :: InBlock(p, lists[order][0], order) ==> p in owner && owner[p] == Free(lists[order][0], order)
    requires owner' == Mark(owner, lists[order][0], Size(order), Held)
    ensures BlockInv(owner', lists[order := lists[order][1..]], k, c)
  {
    var b := lists[order][0];
    var lists' := lists[order := lists[order][1..]];
    if k < |lists'| && c in lists'[k] {
      assert c in lists[k] && (k == order ==> c != b);
      forall p | InBlock(p, c, k) ensures p in owner' && owner'[p] == Free(c, k) {
        assert owner[p] == Free(c, k);
      }
    }
  }

  predicate IsListed(lists: Lists, order: nat, b: Page) {
    order < |lists| && b in lists[order]
  }

  /** Free blocks are pairwise disjoint, hold no handed-out page, and together hold every free page. */
  lemma BlocksTile(heads: seq<nat>, next: map<Page, nat>, lists: Lists, owner: Owners, p: Page)
    requires Inv(heads, next, lists, owner)
    ensures StatusOf(owner, p) == IsFree <==> exists k: nat, b :: IsListed(lists, k, b) && InBlock(p, b, k)
    ensures forall k: nat, b | IsListed(lists, k, b) && InBlock(p, b, k) ::
      forall j: nat, c | IsListed(lists, j, c) && InBlock(p, c, j) :: k == j && b == c
  {
    assert PageInv(owner, lists, p);
    if StatusOf(owner, p) == IsFree { assert IsListed(lists, owner[p].order, owner[p].base); }
    forall k: nat, b | IsListed(lists, k, b) && InBlock(p, b, k) ensures p in owner && owner[p] == Free(b, k) {
      assert BlockInv(owner, lists, k, b);
    }
  }

  /** The head and the links determine the list, among the lists without frame 0. */
  lemma {:induction false} ChainIsUnique(head: nat, next: map<Page, nat>, a: seq<Page>, b: seq<Page>)
    requires ChainInv(head, next, a) && ChainInv(head, next, b) && 0 !in a && 0 !in b
    ensures a == b
    decreases |a|
  {
    if a != [] && b != [] {
      var tag: nat := 0;
      var head' := PackHead(next[a[0]] / PAGE_SIZE, tag);
      HeadRoundTrip(next[a[0]] / PAGE_SIZE, tag);
      TailChain(head, next, a, head');
      TailChain(head, next, b, head');
      ChainIsUnique(head', next, a[1..], b[1..]);
      assert a == [a[0]] + a[1..] && b == [b[0]] + b[1..];
    }
  }

  lemma TailChain(head: nat, next: map<Page, nat>, list: seq<Page>, head': nat)
    requires ChainInv(head, next, list) && list != [] && HeadFrame(head') == next[list[0]] / PAGE_SIZE
    ensures ChainInv(head', next, list[1..])
  {
    var rest := list[1..];
    assert next[list[0]] == PAGE_SIZE * First(list[0 + 1..]);
    forall i | 0 <= i < |rest| ensures rest[i] in next && next[rest[i]] == PAGE_SIZE * First(rest[i + 1..]) {
      assert rest[i] == list[i + 1] && rest[i + 1..] == list[i + 2..];
    }
  }

  /**
   Frame number 0 ends a list, and so the blocks that can be found after a push of `b` are `b` and
   those that could be found before if and only if `b` is not frame 0. After a push of frame 0
   there are none: the blocks that were on the list are lost with it.
   */
  lemma PushedIsFoundIff(heads: seq<nat>, next: map<Page, nat>, lists: Lists, owner: Owners, order: nat, b: nat,
                         found: seq<Page>)
    requires Inv(heads, next, lists, owner) && order <= MAX_ORDER
    requires IsAligned(b, order) && AllAre(owner, b, b + Size(order), IsHeld)
    requires ChainInv(PushHead(heads, order, b)[order], PushNext(heads, next, order, b), found) && 0 !in found
    ensures found == [b] + lists[order] <==> b != 0
    ensures b == 0 ==> found == []
  {
    HeadRoundTrip(b, HeadTag(heads[order]) + 1);
    if b != 0 {
      PushKeepsInv(heads, next, lists, owner, order, b);
      var heads', next' := PushHead(heads, order, b), PushNext(heads, next, order, b);
      var lists' := lists[order := [b] + lists[order]];
      assert ListInv(heads', next', lists', order);
      forall i | 0 <= i < |lists[order]| ensures lists[order][i] != 0 {
        assert BlockInv(owner, lists, order, lists[order][i]);
      }
      ChainIsUnique(heads'[order], next', found, lists'[order]);
    }
  }

  /** After a push of frame 0 the lists are sound again, without any block of the order. */
  lemma PushZeroKeepsInv(heads: seq<nat>, next: map<Page, nat>, lists: Lists, owner: Owners, order: nat)
    requires Inv(heads, next, lists, owner) && order <= MAX_ORDER && AllAre(owner, 0, Size(order), IsHeld)
    ensures Inv(PushHead(heads, order, 0), PushNext(heads, next, order, 0), lists[order := []], Lose(owner, order))
  {
    var heads', next' := PushHead(heads, order, 0), PushNext(heads, next, order, 0);
    var lists', owner' := lists[order := []], Lose(owner, order);
    HeadRoundTrip(0, HeadTag(heads[order]) + 1);
    forall k: nat ensures ListInv(heads', next', lists', k) {
      assert ListInv(heads, next, lists, k);
      if k < |lists| && k != order {
        forall i | 0 <= i < |lists[k]| ensures lists[k][i] != 0 { assert BlockInv(owner, lists, k, lists[k][i]); }
      }
    }
    forall k: nat, c: Page ensures BlockInv(owner', lists', k, c) {
      assert BlockInv(owner, lists, k, c);
      if k < |lists'| && c in lists'[k] {
        forall p | InBlock(p, c, k) ensures p in owner' && owner'[p] == Free(c, k) {
          assert StatusOf(owner, p) == IsFree;
        }
      }
    }
    forall p: Page ensures PageInv(owner', lists', p) { assert PageInv(owner, lists, p); }
  }

  /** Pages that were never inserted, or were handed out, can be marked as handed out. */
  lemma MarkHeldKeepsInv(heads: seq<nat>, next: map<Page, nat>, lists: Lists, owner: Owners, b: Page, n: nat)
    requires Inv(heads, next, lists, owner) && AllAre(owner, b, b + n, Outside)
    ensures Inv(heads, next, lists, Mark(owner, b, n, Held))
  {
    var owner' := Mark(owner, b, n, Held);
    forall k: nat, c: Page ensures BlockInv(owner', lists, k, c) {
      assert BlockInv(owner, lists, k, c);
      if k < |lists| && c in lists[k] {
        forall p | InBlock(p, c, k) ensures p in owner' && owner'[p] == Free(c, k) {
          assert StatusOf(owner, p) == IsFree;
        }
      }
    }
    forall p: Page ensures PageInv(owner', lists, p) { assert PageInv(owner, lists, p); }
  }

  /** The owner of a handed-out page may write anything into it. */
  lemma ClientWriteKeepsInv(heads: seq<nat>, next: map<Page, nat>, lists: Lists, owner: Owners, p: Page, word: nat)
    requires Inv(heads, next, lists, owner) && StatusOf(owner, p) == IsHeld
    ensures Inv(heads, next[p := word], lists, owner)
  {
    var next' := next[p := word];
    forall k: nat ensures ListInv(heads, next', lists, k) {
      assert ListInv(heads, next, lists, k);
      if k < |lists| {
        forall i | 0 <= i < |lists[k]| ensures lists[k][i] != p {
          assert BlockInv(owner, lists, k, lists[k][i]);
          assert InBlock(lists[k][i], lists[k][i], k);
        }
      }
    }
  }

  /** Splitting a block: both halves are blocks of the order below. */
  lemma {:induction false} HalvesAreBlocks(b: Page, order: nat)
    requires order > 0 && IsBlock(b, order)
    ensures IsBlock(b, order - 1) && IsBlock(b + Size(order - 1), order - 1)
  {
    HalfAligned(b, Size(order - 1));
  }

  lemma {:induction false} HalfAligned(b: nat, m: nat)
    requires m > 0 && b % (2 * m) == 0
    ensures b % m == 0 && (b + m) % m == 0
  {
    var q := b / (2 * m);
    assert b == (2 * m) * q;
    assert (2 * m) * q == m * (2 * q);
    DivModUnique(b, m, 2 * q, 0);
    MulDistributes(m, 2 * q, 1);
    DivModUnique(b + m, m, 2 * q + 1, 0);
  }
}

/** Which pages of a memory region may be handed out. */
module BuddyRegions {
  import opened Common
  import opened BuddySpec

  type Span = (nat, nat)

  datatype ExclusionSet = ExclusionSet(bumpConsumed: Span, kernel: Span, extra: seq<Span>)

  /** The part of `r` inside `[start, end)`, if there is any. */
  function ExclusionOverlap(start: nat, end: nat, r: Span): Option<Span> {
    var lo, hi := Max(r.0, start), Min(r.1, end);
    if lo < hi then Some((lo, hi)) else None
  }

  function FirstOf(start: nat, end: nat, ranges: seq<Span>): Option<Span> {
    if ranges == [] then None
    else
      var o := ExclusionOverlap(start, end, ranges[0]);
      if o.Some? then o else FirstOf(start, end, ranges[1..])
  }

  function FirstExclusionOverlap(start: nat, end: nat, x: ExclusionSet): Option<Span> {
    var bump := ExclusionOverlap(start, end, x.bumpConsumed);
    if bump.Some? then bump
    else
      var kernel := ExclusionOverlap(start, end, x.kernel);
      if kernel.Some? then kernel else FirstOf(start, end, x.extra)
  }

  /** A range that is not empty and shares a byte with `[lo, hi)`. */
  predicate Intersects(r: Span, lo: nat, hi: nat) {
    r.0 < r.1 && r.0 < hi && lo < r.1 && lo < hi
  }

  predicate IsReserved(x: ExclusionSet, r: Span) {
    r == x.bumpConsumed || r == x.kernel || r in x.extra
  }

  /** The page lies wholly inside the region and intersects no reserved range. */
  ghost predicate Usable(p: Page, start: nat, end: nat, x: ExclusionSet) {
    && start <= p * PAGE_SIZE && (p + 1) * PAGE_SIZE <= end
    && forall r: Span :: IsReserved(x, r) ==> !Intersects(r, p * PAGE_SIZE, (p + 1) * PAGE_SIZE)
  }

  lemma {:induction false} FirstOfIsOverlap(start: nat, end: nat, ranges: seq<Span>) returns (r: Span)
    ensures FirstOf(start, end, ranges).Some? ==>
      r in ranges && Intersects(r, start, end) && FirstOf(start, end, ranges) == ExclusionOverlap(start, end, r)
    ensures FirstOf(start, end, ranges).None? ==> forall q :: q in ranges ==> !Intersects(q, start, end)
  {
    r := (0, 0);
    if ranges != [] {
      if ExclusionOverlap(start, end, ranges[0]).Some? {
        r := ranges[0];
      } else {
        r := FirstOfIsOverlap(start, end, ranges[1..]);
        assert ranges == [ranges[0]] + ranges[1..];
      }
    }
  }

  /** What is found is the overlap with a reserved range; nothing is found only if no reserved range intersects. */
  lemma FirstIsOverlap(start: nat, end: nat, x: ExclusionSet) returns (r: Span)
    ensures FirstExclusionOverlap(start, end, x).Some? ==>
      && IsReserved(x, r) && Intersects(r, start, end)
      && FirstExclusionOverlap(start, end, x) == ExclusionOverlap(start, end, r)
    ensures FirstExclusionOverlap(start, end, x).None? ==> forall q :: IsReserved(x, q) ==> !Intersects(q, start, end)
  {
    r := FirstOfIsOverlap(start, end, x.extra);
    if ExclusionOverlap(start, end, x.bumpConsumed).Some? {
      r := x.bumpConsumed;
    } else if ExclusionOverlap(start, end, x.kernel).Some? {
      r := x.kernel;
    }
  }

  /** Cutting out an overlap loses no usable page and adds none. */
  lemma CutKeepsUsable(p: Page, start: nat, end: nat, x: ExclusionSet, r: Span)
    requires IsReserved(x, r) && Intersects(r, start, end)
    ensures Usable(p, start, end, x) <==> Usable(p, start, Max(r.0, start), x) || Usable(p, Min(r.1, end), end, x)
  {
    if Usable(p, start, end, x) {
      assert !Intersects(r, p * PAGE_SIZE, (p + 1) * PAGE_SIZE);
    }
  }

  /** Without overlaps, the usable pages are those between the aligned bounds. */
  lemma WholePagesAreUsable(p: Page, start: nat, end: nat, x: ExclusionSet)
    requires forall r :: IsReserved(x, r) ==> !Intersects(r, start, end)
    ensures Usable(p, start, end, x) <==> (start + PAGE_SIZE - 1) / PAGE_SIZE <= p < end / PAGE_SIZE
  {
    if (start + PAGE_SIZE - 1) / PAGE_SIZE <= p < end / PAGE_SIZE {
      forall r: Span | IsReserved(x, r) ensures !Intersects(r, p * PAGE_SIZE, (p + 1) * PAGE_SIZE) {
        assert !Intersects(r, start, end);
      }
    }
  }
}

/** One node's allocator: the lists, the links in the frames, and the counter. */
module BuddyAllocator {
  import opened Bits
  import opened Common
  import opened BuddySpec
  import opened BuddyRegions

  const LOW_4G_PAGES: nat := TWO_32 / PAGE_SIZE
  const MAX_LOW_FRAME_TRIES: nat := 256

  /** An entry of the boot loader's memory map; type 0 is usable memory. */
  datatype MemmapEntry = MemmapEntry(base: nat, length: nat, memType: nat)

  ghost predicate UsableIn(p: Page, entry: MemmapEntry, x: ExclusionSet) {
    entry.memType == 0 && Usable(p, entry.base, entry.base + entry.length, x)
  }

  ghost predicate UsableInSome(p: Page, memmap: seq<MemmapEntry>, x: ExclusionSet) {
    exists i :: 0 <= i < |memmap| && UsableIn(p, memmap[i], x)
  }

  /**
   A page's status after the insertion of `frames` pages from `base`, whose first block has the order
   `first`. A region that starts at frame 0 loses its first block and all blocks of the same order.
   */
  function AfterInsert(before: Owners, base: nat, frames: nat, first: nat, p: Page): Status {
    if base == 0 && frames > 0 && (0 <= p < Size(first) || OnList(before, p, first)) then IsLost
    else if base <= p < base + frames then IsFree
    else StatusOf(before, p)
  }

  /** The insertion so far; the pages from `page` on are still to come. */
  ghost predicate InsertedUpTo(before: Owners, now: Owners, base: nat, frames: nat, first: nat, page: nat) {
    && page >= base + Size(first)
    && forall p :: StatusOf(now, p) ==
         if page <= p < base + frames then IsHeld else AfterInsert(before, base, frames, first, p)
  }

  lemma FirstPushed(before: Owners, after: Owners, base: nat, frames: nat, first: nat)
    requires AllAre(before, base, base + frames, Outside) && Size(first) <= frames
    requires var marked := Mark(before, base, frames, Held);
      if base == 0 then LostAt(marked, after, first) else Turned(marked, after, base, base + Size(first), IsFree)
    ensures InsertedUpTo(before, after, base, frames, first, base + Size(first))
  {
    var marked := Mark(before, base, frames, Held);
    forall p ensures StatusOf(after, p) ==
      if base + Size(first) <= p < base + frames then IsHeld else AfterInsert(before, base, frames, first, p)
    {
      if base <= p < base + frames { assert StatusOf(before, p) == Outside && StatusOf(marked, p) == IsHeld; }
    }
  }

  lemma NextPushed(before: Owners, mid: Owners, after: Owners, base: nat, frames: nat, first: nat, page: nat,
                   order: nat)
    requires AllAre(before, base, base + frames, Outside) && page + Size(order) <= base + frames
    requires InsertedUpTo(before, mid, base, frames, first, page)
    requires Turned(mid, after, page, page + Size(order), IsFree)
    ensures InsertedUpTo(before, after, base, frames, first, page + Size(order))
  {
    forall p ensures StatusOf(after, p) ==
      if page + Size(order) <= p < base + frames then IsHeld else AfterInsert(before, base, frames, first, p)
    {
      if page <= p < base + frames { assert StatusOf(before, p) == Outside; }
    }
  }

  /** The insertion has come to `page`; the pages from there on are held. */
  ghost predicate Inserting(before: Owners, now: Owners, base: nat, frames: nat, first: nat, page: nat) {
    && AllAre(now, page, base + frames, IsHeld)
    && if page == base then now == Mark(before, base, frames, Held)
       else IsLargest(first, base, frames) && InsertedUpTo(before, now, base, frames, first, page)
  }

  lemma InsertedOne(before: Owners, mid: Owners, after: Owners, base: nat, frames: nat, first: nat, page: nat,
                    order: nat)
    returns (first': nat)
    requires AllAre(before, base, base + frames, Outside) && base <= page < base + frames
    requires Inserting(before, mid, base, frames, first, page) && IsLargest(order, page, base + frames - page)
    requires page != 0 ==> Turned(mid, after, page, page + Size(order), IsFree)
    requires page == 0 ==> LostAt(mid, after, order)
    ensures base < page + Size(order) <= base + frames
    ensures Inserting(before, after, base, frames, first', page + Size(order))
  {
    if page == base {
      first' := order;
      FirstPushed(before, after, base, frames, first');
    } else {
      first' := first;
      NextPushed(before, mid, after, base, frames, first, page, order);
    }
  }

  /** A page is inserted or left alone; pages are lost only where frame 0 is inserted. */
  predicate Inserted(before: Status, after: Status, usable: bool, lossy: bool) {
    if usable then after == IsFree || (lossy && after == IsLost)
    else after == before || (lossy && before == IsFree && after == IsLost)
  }

  /** The largest order whose block fits and is aligned here. */
  predicate IsLargest(order: nat, page: nat, remaining: nat) {
    && order <= MAX_ORDER && Size(order) <= remaining && page % Size(order) == 0
    && forall k :: order < k <= MAX_ORDER ==> !(Size(k) <= remaining && page % Size(k) == 0)
  }

  class BuddyNode {
    var heads: seq<nat>
    var next: map<Page, nat>
    var free: int
    ghost var lists: Lists
    ghost var owner: Owners

    /** The lists are sound; the counter may be under way. */
    ghost predicate Sound()
      reads this
    {
      Inv(heads, next, lists, owner)
    }

    /** The counter is the number of pages that are free or lost; frame 0 is never handed out. */
    ghost predicate Valid()
      reads this
    {
      && Sound() && free == |Counted(owner)|
      && forall p :: StatusOf(owner, p) == IsHeld ==> 0 < p < MAX_PAGES
    }

    constructor ()
      ensures Valid() && owner == map[]
    {
      heads := seq(MAX_ORDER + 1, _ => 0);
      next := map[];
      free := 0;
      lists := seq(MAX_ORDER + 1, _ => []);
      owner := map[];
      new;
      assert HeadFrame(0) == 0;
      forall k: nat ensures ListInv(heads, next, lists, k) { }
      forall p ensures p !in Counted(owner) { assert StatusOf(owner, p) == Outside; }
    }

    /** Puts a block in front of its list; frame 0 ends the list instead. */
    method Push(order: nat, b: nat)
      requires Sound() && order <= MAX_ORDER && IsAligned(b, order) && AllAre(owner, b, b + Size(order), IsHeld)
      modifies this
      ensures Sound() && free == old(free) && |Counted(owner)| == old(|Counted(owner)|) + Size(order)
      ensures b != 0 ==> lists == old(lists)[order := [b] + old(lists)[order]]
      ensures b != 0 ==> Turned(old(owner), owner, b, b + Size(order), IsFree)
      ensures b == 0 ==> lists == old(lists)[order := []] && LostAt(old(owner), owner, order)
    {
      assert b * PAGE_SIZE < TWO_44;
      if b == 0 {
        PushZeroKeepsInv(heads, next, lists, owner, order);
        LoseLoses(owner, order);
      } else {
        PushKeepsInv(heads, next, lists, owner, order, b);
      }
      next := next[b := HeadFrame(heads[order]) * PAGE_SIZE];
      heads := heads[order := PackHead(b, HeadTag(heads[order]) + 1)];
      lists := lists[order := if b == 0 then [] else [b] + lists[order]];
      owner := if b == 0 then Lose(owner, order) else Mark(owner, b, Size(order), Free(b, order));
      FreeCounts(old(owner), owner, b, Size(order));
    }

    /** Takes the first block of a list; the plausibility assertions on head and header always hold. */
    method Pop(order: nat) returns (r: Option<Page>)
      requires Sound() && order <= MAX_ORDER
      modifies this
      ensures Sound() && free == old(free)
      ensures r.None? <==> old(lists)[order] == []
      ensures r.None? ==> heads == old(heads) && next == old(next) && lists == old(lists) && owner == old(owner)
      ensures r.Some? ==>
        && lists == old(lists)[order := lists[order]] && old(lists)[order] == [r.value] + lists[order]
        && IsBlock(r.value, order)
        && AllAre(old(owner), r.value, r.value + Size(order), IsFree)
        && Turned(old(owner), owner, r.value, r.value + Size(order), IsHeld)
        && |Counted(owner)| == old(|Counted(owner)|) - Size(order)
    {
      var b := HeadFrame(heads[order]);
      assert ListInv(heads, next, lists, order);
      if b == 0 {
        assert BlockInv(owner, lists, order, First(lists[order]));
        return None;
      }
      PopKeepsInv(heads, next, lists, owner, order);
      assert b * PAGE_SIZE < TWO_44;
      var nextPhys := next[b];
      assert nextPhys < TWO_44 && nextPhys % PAGE_SIZE == 0;
      heads := heads[order := PackHead(nextPhys / PAGE_SIZE, HeadTag(heads[order]) + 1)];
      lists := lists[order := lists[order][1..]];
      owner := Mark(owner, b, Size(order), Held);
      TakeCounts(old(owner), owner, b, Size(order));
      return Some(b);
    }

    /** Returns the upper halves of a popped block to the lists, down to `order`. */
    method Split(b: nat, order: nat, source: nat)
      requires Sound() && order <= source <= MAX_ORDER && IsBlock(b, source)
      requires AllAre(owner, b, b + Size(source), IsHeld)
      modifies this
      ensures Sound() && free == old(free) && IsBlock(b, order)
      ensures IsSplit(old(owner), owner, b, order, source)
      ensures |Counted(owner)| == old(|Counted(owner)|) + Size(source) - Size(order)
      ensures HalvesListed(old(lists), lists, b, order, source)
    {
      var split := source;
      while split > order
        invariant order <= split <= source && Sound() && free == old(free) && IsBlock(b, split)
        invariant IsSplit(old(owner), owner, b, split, source) && HalvesListed(old(lists), lists, b, split, source)
        invariant |Counted(owner)| == old(|Counted(owner)|) + Size(source) - Size(split)
      {
        split := split - 1;
        PushHalf(b, split, source, old(owner), old(lists));
      }
    }

    /** One turn of the split: the upper half of the block so far. */
    method PushHalf(b: nat, order: nat, source: nat, ghost owner0: Owners, ghost lists0: Lists)
      requires Sound() && order < source <= MAX_ORDER && IsBlock(b, order + 1)
      requires AllAre(owner0, b, b + Size(source), IsHeld)
      requires IsSplit(owner0, owner, b, order + 1, source) && HalvesListed(lists0, lists, b, order + 1, source)
      modifies this
      ensures Sound() && free == old(free) && IsBlock(b, order)
      ensures IsSplit(owner0, owner, b, order, source) && HalvesListed(lists0, lists, b, order, source)
      ensures |Counted(owner)| == old(|Counted(owner)|) + Size(order)
    {
      HalvesAreBlocks(b, order + 1);
      Push(order, b + Size(order));
      OneMoreHalf(lists0, old(lists), lists, b, order, source);
    }

    /** A block of the order, taken from the smallest list that has one. */
    method AllocOrder(order: nat) returns (r: Option<Page>)
      requires Valid()
      modifies this
      ensures Valid()
      ensures r.None? ==> owner == old(owner) && lists == old(lists)
      ensures r.None? ==> forall k :: order <= k <= MAX_ORDER ==> lists[k] == []
      ensures r.Some? ==>
        && order <= MAX_ORDER && IsBlock(r.value, order)
        && AllAre(old(owner), r.value, r.value + Size(order), IsFree)
        && Turned(old(owner), owner, r.value, r.value + Size(order), IsHeld)
        && exists source ::
             IsSource(old(lists), order, source, r.value) && IsCut(old(lists), lists, order, source, r.value)
    {
      if order > MAX_ORDER { return None; }
      var source := order;
      while source <= MAX_ORDER
        invariant order <= source <= MAX_ORDER + 1
        invariant Valid() && owner == old(owner) && lists == old(lists)
        invariant forall k :: order <= k < source ==> lists[k] == []
      {
        var popped := Pop(source);
        if popped.Some? {
          Split(popped.value, order, source);
          assert IsSource(old(lists), order, source, popped.value);
          assert IsCut(old(lists), lists, order, source, popped.value);
          free := free - Size(order);
          return popped;
        }
        source := source + 1;
      }
      return None;
    }

    /** Returns a block to its list. */
    method FreeOrder(b: nat, order: nat)
      requires Valid()
      requires order <= MAX_ORDER ==> b % Size(order) == 0 && AllAre(owner, b, b + Size(order), IsHeld)
      modifies this
      ensures Valid()
      ensures order > MAX_ORDER ==> owner == old(owner) && lists == old(lists)
      ensures order <= MAX_ORDER ==> Turned(old(owner), owner, b, b + Size(order), IsFree)
      ensures order <= MAX_ORDER ==> lists == old(lists)[order := [b] + old(lists)[order]]
    {
      if order > MAX_ORDER { return; }
      assert StatusOf(owner, b) == IsHeld && StatusOf(owner, b + Size(order) - 1) == IsHeld;
      Push(order, b);
      free := free + Size(order);
    }

    /** A client writes into a page that it was handed. */
    method ClientWrite(p: Page, word: nat)
      requires Valid() && StatusOf(owner, p) == IsHeld
      modifies this`next
      ensures Valid()
    {
      ClientWriteKeepsInv(heads, next, lists, owner, p, word);
      next := next[p := word];
    }

    /** Pushes the largest block that fits at `page`. */
    method PushLargest(page: nat, end: nat, ghost goal: Lists) returns (order: nat)
      requires Sound() && page < end <= MAX_PAGES && AllAre(owner, page, end, IsHeld) && TilesTo(lists, page, end, goal)
      modifies this
      ensures Sound() && free == old(free) && IsLargest(order, page, end - page)
      ensures |Counted(owner)| == old(|Counted(owner)|) + Size(order)
      ensures TilesTo(lists, page + Size(order), end, goal)
      ensures page != 0 ==> Turned(old(owner), owner, page, page + Size(order), IsFree)
      ensures page == 0 ==> LostAt(old(owner), owner, order)
    {
      order := LargestOrder(page, end - page);
      TiledStep(lists, page, end, order);
      Push(order, page);
      assert lists == Pushed(old(lists), order, page);
    }

    /** Inserts a region, tiled greedily by the largest aligned blocks. */
    method AddRegion(base: nat, frames: nat) returns (ghost first: nat)
      requires Valid() && base + frames <= MAX_PAGES && AllAre(owner, base, base + frames, Outside)
      modifies this
      ensures Valid() && (frames > 0 ==> IsLargest(first, base, frames))
      ensures forall p :: StatusOf(owner, p) == AfterInsert(old(owner), base, frames, first, p)
      ensures TilesTo(old(lists), base, base + frames, lists)
    {
      free := free + frames;
      MarkHeldKeepsInv(heads, next, lists, owner, base, frames);
      owner := Mark(owner, base, frames, Held);
      AddCounts(old(owner), owner, base, frames);
      first := PushRegion(base, frames, old(owner), Tiled(lists, base, base + frames));
    }

    /** The loop of the insertion; `before` is the owners without the region. */
    method PushRegion(base: nat, frames: nat, ghost before: Owners, ghost goal: Lists) returns (ghost first: nat)
      requires Sound() && base + frames <= MAX_PAGES && AllAre(before, base, base + frames, Outside)
      requires owner == Mark(before, base, frames, Held) && TilesTo(lists, base, base + frames, goal)
      modifies this
      ensures Sound() && free == old(free) && (frames > 0 ==> IsLargest(first, base, frames))
      ensures forall p :: StatusOf(owner, p) == AfterInsert(before, base, frames, first, p)
      ensures |Counted(owner)| == old(|Counted(owner)|) + frames && lists == goal
    {
      first := 0;
      var page := base;
      while page < base + frames
        invariant base <= page <= base + frames && Sound() && free == old(free)
        invariant Inserting(before, owner, base, frames, first, page)
        invariant |Counted(owner)| == old(|Counted(owner)|) + (page - base)
        invariant TilesTo(lists, page, base + frames, goal)
      {
        ghost var previous := owner;
        var order := PushLargest(page, base + frames, goal);
        first := InsertedOne(before, previous, owner, base, frames, first, page, order);
        page := page + Size(order);
      }
    }

    /** Inserts exactly the usable pages of a region, cutting out one overlap at a time. */
    method AddRegionExcluding(start: nat, end: nat, x: ExclusionSet)
      requires Valid()
      requires forall p :: Usable(p, start, end, x) ==> p < MAX_PAGES && StatusOf(owner, p) == Outside
      modifies this
      ensures Valid()
      ensures forall p ::
        Inserted(StatusOf(old(owner), p), StatusOf(owner, p), Usable(p, start, end, x), Usable(0, start, end, x))
      ensures Usable(0, start, end, x) ==> StatusOf(owner, 0) == IsLost
      ensures AddedMaximal(old(lists), lists, start, end, x)
      decreases end - start
    {
      ghost var r := FirstIsOverlap(start, end, x);
      if start >= end { return; }
      var overlap := FirstExclusionOverlap(start, end, x);
      if overlap.Some? {
        forall p
          ensures Usable(p, start, end, x)
            <==> Usable(p, start, overlap.value.0, x) || Usable(p, overlap.value.1, end, x)
        {
          CutKeepsUsable(p, start, end, x, r);
        }
        if start < overlap.value.0 { AddRegionExcluding(start, overlap.value.0, x); }
        ghost var mid := lists;
        if overlap.value.1 < end { AddRegionExcluding(overlap.value.1, end, x); }
        AddedAfterCut(old(lists), mid, lists, start, end, x, r);
        return;
      }
      forall p ensures Usable(p, start, end, x) <==> (start + PAGE_SIZE - 1) / PAGE_SIZE <= p < end / PAGE_SIZE {
        WholePagesAreUsable(p, start, end, x);
      }
      var base, limit := (start + PAGE_SIZE - 1) / PAGE_SIZE, end / PAGE_SIZE;
      if limit <= base { return; }
      assert Usable(base, start, end, x) && Usable(limit - 1, start, end, x);
      ghost var first := AddRegion(base, limit - base);
      TiledIsMaximal(old(lists), base, limit, start, end, x);
    }

    /**
     Inserts every usable page of the memory map. The free pages are then exactly the usable ones if
     and only if frame 0 is not usable; otherwise frame 0, with the rest of its block and list, is lost.
     */
    method Init(memmap: seq<MemmapEntry>, x: ExclusionSet)
      requires Valid() && owner == map[]
      requires forall p :: UsableInSome(p, memmap, x) ==> p < MAX_PAGES
      requires forall i, j, p :: 0 <= i < j < |memmap| ==> !(UsableIn(p, memmap[i], x) && UsableIn(p, memmap[j], x))
      modifies this
      ensures Valid()
      ensures forall p :: StatusOf(owner, p) != IsHeld
      ensures forall p :: IsCounted(owner, p) <==> UsableInSome(p, memmap, x)
      ensures UsableInSome(0, memmap, x) ==> StatusOf(owner, 0) == IsLost
      ensures (forall p :: StatusOf(owner, p) == IsFree <==> UsableInSome(p, memmap, x))
        <==> !UsableInSome(0, memmap, x)
      ensures forall k: nat, b :: IsListed(lists, k, b) ==> MaximalInSome(k, b, memmap, x)
    {
      forall k: nat, b ensures !IsListed(lists, k, b) { assert BlockInv(owner, lists, k, b) && InBlock(b, b, k); }
      var k := 0;
      while k < |memmap|
        invariant 0 <= k <= |memmap| && Valid() && Booted(owner, memmap[..k], x)
        invariant forall j: nat, b :: IsListed(lists, j, b) ==> MaximalInSome(j, b, memmap[..k], x)
      {
        var entry := memmap[k];
        ghost var before := owner;
        ghost var listed := lists;
        if entry.memType == 0 && entry.length != 0 {
          forall p | UsableIn(p, entry, x) ensures p < MAX_PAGES && StatusOf(owner, p) == Outside {
            NotInEarlier(p, memmap, k, x);
          }
          AddEntry(entry, x);
        } else {
          assert forall p :: !UsableIn(p, entry, x);
        }
        BootedStep(before, owner, memmap, k, x);
        forall j: nat, b | IsListed(lists, j, b) ensures MaximalInSome(j, b, memmap[..k + 1], x) {
          MaximalStep(listed, lists, memmap, k, x, j, b);
        }
        k := k + 1;
      }
      assert memmap[..k] == memmap;
    }

    method AddEntry(entry: MemmapEntry, x: ExclusionSet)
      requires Valid() && entry.memType == 0
      requires forall p :: UsableIn(p, entry, x) ==> p < MAX_PAGES && StatusOf(owner, p) == Outside
      modifies this
      ensures Valid()
      ensures forall p ::
        Inserted(StatusOf(old(owner), p), StatusOf(owner, p), UsableIn(p, entry, x), UsableIn(0, entry, x))
      ensures UsableIn(0, entry, x) ==> StatusOf(owner, 0) == IsLost
      ensures AddedMaximal(old(lists), lists, entry.base, entry.base + entry.length, x)
    {
      var end := entry.base + entry.length;
      forall p ensures Usable(p, entry.base, end, x) <==> UsableIn(p, entry, x) { }
      AddRegionExcluding(entry.base, end, x);
    }

    /** One page below 4 GiB; pages above it that came first are returned to the lists. */
    method AllocFrameBelow4g() returns (r: Option<Page>, ghost rejects: seq<Page>)
      requires Valid()
      modifies this
      ensures Valid()
      ensures r.None? ==> forall p :: StatusOf(owner, p) == StatusOf(old(owner), p)
      ensures r.None? ==> FoundOnlyHigh(old(owner), rejects)
      ensures r.Some? ==>
        && 0 < r.value < LOW_4G_PAGES && StatusOf(old(owner), r.value) == IsFree
        && Turned(old(owner), owner, r.value, r.value + 1, IsHeld)
    {
      var rejected: seq<Page> := [];
      r := None;
      var tries := 0;
      while tries < MAX_LOW_FRAME_TRIES && r.None?
        invariant tries <= MAX_LOW_FRAME_TRIES && Valid()
        invariant WereFree(old(owner), rejected) && (r.None? ==> |rejected| == tries)
        invariant forall i :: 0 <= i < |rejected| ==> rejected[i] >= LOW_4G_PAGES
        invariant r.Some? ==> 0 < r.value < LOW_4G_PAGES && r.value !in rejected
        invariant r.Some? ==> StatusOf(old(owner), r.value) == IsFree
        invariant forall p ::
          StatusOf(owner, p) == if p in rejected || r == Some(p) then IsHeld else StatusOf(old(owner), p)
        decreases MAX_LOW_FRAME_TRIES - tries
      {
        var f := AllocOrder(0);
        if f.None? {
          EmptyMeansNoneFree(heads, next, lists, owner);
          break;
        }
        assert StatusOf(old(owner), f.value) == IsFree && f.value !in rejected;
        if f.value < LOW_4G_PAGES {
          r := f;
        } else {
          rejected := rejected + [f.value];
        }
        tries := tries + 1;
      }
      rejects := rejected;
      ReturnAll(rejected, r, old(owner));
    }

    /** Gives the rejected pages back. */
    method ReturnAll(rejected: seq<Page>, r: Option<Page>, ghost before: Owners)
      requires Valid() && WereFree(before, rejected) && (r.Some? ==> r.value !in rejected)
      requires forall p :: StatusOf(owner, p) == if p in rejected || r == Some(p) then IsHeld else StatusOf(before, p)
      modifies this
      ensures Valid()
      ensures forall p :: StatusOf(owner, p) == if r == Some(p) then IsHeld else StatusOf(before, p)
    {
      var i := 0;
      while i < |rejected|
        invariant 0 <= i <= |rejected| && Valid()
        invariant forall p ::
          StatusOf(owner, p) == if p in rejected[i..] || r == Some(p) then IsHeld else StatusOf(before, p)
      {
        assert rejected[i..] == [rejected[i]] + rejected[i + 1..];
        FreeOrder(rejected[i], 0);
        i := i + 1;
      }
    }
  }

  /** The usable pages of the map are free or lost, and pages are lost exactly if frame 0 is. */
  ghost predicate Booted(owner: Owners, memmap: seq<MemmapEntry>, x: ExclusionSet) {
    && (forall p :: StatusOf(owner, p) != IsHeld)
    && (forall p :: IsCounted(owner, p) <==> UsableInSome(p, memmap, x))
    && (forall p :: StatusOf(owner, p) == IsLost ==> UsableInSome(0, memmap, x))
    && (UsableInSome(0, memmap, x) ==> StatusOf(owner, 0) == IsLost)
  }

  lemma BootedStep(before: Owners, after: Owners, memmap: seq<MemmapEntry>, k: nat, x: ExclusionSet)
    requires k < |memmap| && Booted(before, memmap[..k], x)
    requires forall p :: UsableIn(p, memmap[k], x) ==> StatusOf(before, p) == Outside
    requires forall p ::
      Inserted(StatusOf(before, p), StatusOf(after, p), UsableIn(p, memmap[k], x), UsableIn(0, memmap[k], x))
    requires UsableIn(0, memmap[k], x) ==> StatusOf(after, 0) == IsLost
    ensures Booted(after, memmap[..k + 1], x)
  {
    OneMoreEntry(0, memmap, k, x);
    forall p
      ensures StatusOf(after, p) != IsHeld && (IsCounted(after, p) <==> UsableInSome(p, memmap[..k + 1], x))
      ensures StatusOf(after, p) == IsLost ==> UsableInSome(0, memmap[..k + 1], x)
    {
      OneMoreEntry(p, memmap, k, x);
      assert Inserted(StatusOf(before, p), StatusOf(after, p), UsableIn(p, memmap[k], x), UsableIn(0, memmap[k], x));
    }
  }

  /** The block is maximal in some usable entry. */
  ghost predicate MaximalInSome(order: nat, b: Page, memmap: seq<MemmapEntry>, x: ExclusionSet) {
    exists i :: 0 <= i < |memmap| && MaximalIn(order, b, memmap[i], x)
  }

  ghost predicate MaximalIn(order: nat, b: Page, entry: MemmapEntry, x: ExclusionSet) {
    entry.memType == 0 && IsMaximal(order, b, entry.base, entry.base + entry.length, x)
  }

  lemma MaximalStep(before: Lists, after: Lists, memmap: seq<MemmapEntry>, k: nat, x: ExclusionSet, order: nat, b: Page)
    requires k < |memmap| && IsListed(after, order, b)
    requires IsListed(before, order, b) ==> MaximalInSome(order, b, memmap[..k], x)
    requires after == before
      || (memmap[k].memType == 0
          && AddedMaximal(before, after, memmap[k].base, memmap[k].base + memmap[k].length, x))
    ensures MaximalInSome(order, b, memmap[..k + 1], x)
  {
    if IsListed(before, order, b) {
      var i :| 0 <= i < k && MaximalIn(order, b, memmap[..k][i], x);
      assert memmap[..k + 1][i] == memmap[..k][i];
    } else {
      assert MaximalIn(order, b, memmap[..k + 1][k], x);
    }
  }

  lemma NotInEarlier(p: Page, memmap: seq<MemmapEntry>, k: nat, x: ExclusionSet)
    requires k < |memmap| && UsableIn(p, memmap[k], x)
    requires forall i, j, q :: 0 <= i < j < |memmap| ==> !(UsableIn(q, memmap[i], x) && UsableIn(q, memmap[j], x))
    ensures UsableInSome(p, memmap, x) && !UsableInSome(p, memmap[..k], x)
  {
    forall i | 0 <= i < k ensures !UsableIn(p, memmap[..k][i], x) { assert memmap[..k][i] == memmap[i]; }
  }

  /** The upper halves of the orders from `order` up to `source` were put in front of their lists. */
  predicate HalvesListed(before: Lists, after: Lists, b: Page, order: nat, source: nat) {
    |after| == |before| && forall k: nat :: k < |before| ==>
      after[k] == if order <= k < source then [b + Size(k)] + before[k] else before[k]
  }

  /** The pages above the first block of the order, up to the end of the block, were freed. */
  ghost predicate IsSplit(before: Owners, after: Owners, b: Page, order: nat, source: nat) {
    Size(order) <= Size(source) && Turned(before, after, b + Size(order), b + Size(source), IsFree)
  }

  lemma OneMoreHalf(before: Lists, mid: Lists, after: Lists, b: Page, order: nat, source: nat)
    requires HalvesListed(before, mid, b, order + 1, source) && order < source <= |before|
    requires after == mid[order := [b + Size(order)] + mid[order]]
    ensures HalvesListed(before, after, b, order, source)
  {
  }

  // The greedy tiling

  ghost function LargestAt(page: nat, remaining: nat): (order: nat)
    requires remaining > 0
    ensures IsLargest(order, page, remaining)
  {
    LargestExists(page, remaining, MAX_ORDER);
    var order :| IsLargest(order, page, remaining);
    order
  }

  lemma {:induction false} LargestExists(page: nat, remaining: nat, n: nat)
    requires remaining > 0 && n <= MAX_ORDER
    requires forall k :: n < k <= MAX_ORDER ==> !(Size(k) <= remaining && page % Size(k) == 0)
    ensures exists order :: IsLargest(order, page, remaining)
  {
    if n == 0 || (Size(n) <= remaining && page % Size(n) == 0) {
      assert IsLargest(n, page, remaining);
    } else {
      LargestExists(page, remaining, n - 1);
    }
  }

  lemma LargestIsUnique(page: nat, remaining: nat, order: nat)
    requires remaining > 0 && IsLargest(order, page, remaining)
    ensures order == LargestAt(page, remaining)
  {
  }

  /** A list gets a block in front, or is emptied by frame 0. */
  function Pushed(lists: Lists, order: nat, b: nat): Lists
    requires order < |lists|
  {
    lists[order := if b == 0 then [] else [b] + lists[order]]
  }

  /** The lists after the pages from `page` up to `end` were pushed, each time as the largest block that fits. */
  ghost function Tiled(lists: Lists, page: nat, end: nat): (r: Lists)
    requires |lists| == MAX_ORDER + 1
    ensures |r| == |lists|
    decreases end - page
  {
    if page >= end then lists
    else
      var order := LargestAt(page, end - page);
      Tiled(Pushed(lists, order, page), page + Size(order), end)
  }

  /** Tiling the rest leads to `goal`. */
  ghost predicate TilesTo(lists: Lists, page: nat, end: nat, goal: Lists) {
    |lists| == MAX_ORDER + 1 && Tiled(lists, page, end) == goal
  }

  lemma TiledStep(lists: Lists, page: nat, end: nat, order: nat)
    requires |lists| == MAX_ORDER + 1 && page < end && IsLargest(order, page, end - page)
    ensures Tiled(lists, page, end) == Tiled(Pushed(lists, order, page), page + Size(order), end)
  {
    LargestIsUnique(page, end - page, order);
  }

  /** A block that the tiling added is the largest that fits where it is. */
  lemma {:induction false} TiledBlocks(lists: Lists, page: nat, end: nat, k: nat, b: Page)
    requires |lists| == MAX_ORDER + 1 && IsListed(Tiled(lists, page, end), k, b)
    ensures IsListed(lists, k, b) || (page <= b < end && IsLargest(k, b, end - b))
    decreases end - page
  {
    if page < end {
      var order := LargestAt(page, end - page);
      TiledBlocks(Pushed(lists, order, page), page + Size(order), end, k, b);
    }
  }

  /** The block cannot be doubled in place: it has the highest order, or the double is not aligned or not all usable. */
  ghost predicate IsMaximal(order: nat, b: Page, start: nat, end: nat, x: ExclusionSet) {
    && Usable(b, start, end, x)
    && (order >= MAX_ORDER || b % Size(order + 1) != 0
        || exists p :: InBlock(p, b, order + 1) && !Usable(p, start, end, x))
  }

  /** Every block that was added is maximal. */
  ghost predicate AddedMaximal(before: Lists, after: Lists, start: nat, end: nat, x: ExclusionSet) {
    forall k: nat, b :: IsListed(after, k, b) ==> IsListed(before, k, b) || IsMaximal(k, b, start, end, x)
  }

  lemma TiledIsMaximal(before: Lists, base: nat, limit: nat, start: nat, end: nat, x: ExclusionSet)
    requires |before| == MAX_ORDER + 1 && base <= limit
    requires forall p :: Usable(p, start, end, x) <==> base <= p < limit
    ensures AddedMaximal(before, Tiled(before, base, limit), start, end, x)
  {
    forall k: nat, b | IsListed(Tiled(before, base, limit), k, b)
      ensures IsListed(before, k, b) || IsMaximal(k, b, start, end, x)
    {
      TiledBlocks(before, base, limit, k, b);
      if !IsListed(before, k, b) && k < MAX_ORDER && b % Size(k + 1) == 0 {
        assert InBlock(b + Size(k + 1) - 1, b, k + 1) && !Usable(b + Size(k + 1) - 1, start, end, x);
      }
    }
  }

  /** What is maximal on one side of a reserved range is maximal in the whole region. */
  lemma MaximalAfterCut(order: nat, b: Page, start: nat, end: nat, x: ExclusionSet, r: Span)
    requires IsReserved(x, r) && Intersects(r, start, end)
    requires IsMaximal(order, b, start, Max(r.0, start), x) || IsMaximal(order, b, Min(r.1, end), end, x)
    ensures IsMaximal(order, b, start, end, x)
  {
    CutKeepsUsable(b, start, end, x, r);
    var lo, hi := Max(r.0, start), Min(r.1, end);
    if order < MAX_ORDER && b % Size(order + 1) == 0 {
      if IsMaximal(order, b, start, lo, x) {
        var p :| InBlock(p, b, order + 1) && !Usable(p, start, lo, x);
        CutKeepsUsable(p, start, end, x, r);
        if Usable(p, start, end, x) {
          var q := lo / PAGE_SIZE;
          assert Intersects(r, q * PAGE_SIZE, (q + 1) * PAGE_SIZE);
          assert InBlock(q, b, order + 1) && !Usable(q, start, end, x);
        }
      } else {
        var p :| InBlock(p, b, order + 1) && !Usable(p, hi, end, x);
        CutKeepsUsable(p, start, end, x, r);
      }
    }
  }

  lemma AddedAfterCut(before: Lists, mid: Lists, after: Lists, start: nat, end: nat, x: ExclusionSet, r: Span)
    requires IsReserved(x, r) && Intersects(r, start, end)
    requires AddedMaximal(before, mid, start, Max(r.0, start), x) && AddedMaximal(mid, after, Min(r.1, end), end, x)
    ensures AddedMaximal(before, after, start, end, x)
  {
    forall k: nat, b | IsListed(after, k, b) ensures IsListed(before, k, b) || IsMaximal(k, b, start, end, x) {
      if !IsListed(before, k, b) { MaximalAfterCut(k, b, start, end, x, r); }
    }
  }

  lemma OneMoreEntry(p: Page, memmap: seq<MemmapEntry>, k: nat, x: ExclusionSet)
    requires k < |memmap|
    ensures UsableInSome(p, memmap[..k + 1], x) <==> UsableInSome(p, memmap[..k], x) || UsableIn(p, memmap[k], x)
  {
    if UsableInSome(p, memmap[..k], x) {
      var i :| 0 <= i < k && UsableIn(p, memmap[..k][i], x);
      assert UsableIn(p, memmap[..k + 1][i], x);
    }
    assert memmap[..k + 1][k] == memmap[k];
    if UsableInSome(p, memmap[..k + 1], x) && !UsableIn(p, memmap[k], x) {
      var i :| 0 <= i < k + 1 && UsableIn(p, memmap[..k + 1][i], x);
      assert UsableIn(p, memmap[..k][i], x);
    }
  }

  /** The free pages, as a set. */
  ghost predicate AreFree(owner: Owners, found: set<Page>) {
    forall p :: p in found <==> StatusOf(owner, p) == IsFree
  }

  /**
   A memory map that offers memory from address 0 on, with nothing reserved in the first page: the
   allocator counts more pages than it can ever hand out.
   */
  method LowMemoryIsLost(length: nat, x: ExclusionSet) returns (node: BuddyNode)
    requires PAGE_SIZE <= length <= MAX_PAGES * PAGE_SIZE
    requires forall r: Span :: IsReserved(x, r) ==> !Intersects(r, 0, PAGE_SIZE)
    ensures node.Valid() && StatusOf(node.owner, 0) == IsLost
    ensures forall found: set<Page> :: AreFree(node.owner, found) ==> |found| < node.free
  {
    node := new BuddyNode();
    var entry := MemmapEntry(0, length, 0);
    assert UsableIn(0, entry, x);
    assert UsableIn(0, [entry][0], x);
    node.Init([entry], x);
    forall found: set<Page> | AreFree(node.owner, found) ensures |found| < node.free {
      assert 0 in Counted(node.owner) - found;
      forall p | p in found ensures p in Counted(node.owner) { assert IsCounted(node.owner, p); }
      assert Counted(node.owner) == found + (Counted(node.owner) - found);
    }
  }

  method LargestOrder(page: nat, remaining: nat) returns (order: nat)
    requires remaining > 0
    ensures IsLargest(order, page, remaining)
  {
    order := MAX_ORDER;
    while order > 0
      invariant order <= MAX_ORDER
      invariant forall k :: order < k <= MAX_ORDER ==> !(Size(k) <= remaining && page % Size(k) == 0)
    {
      if Size(order) <= remaining && page % Size(order) == 0 { return; }
      order := order - 1;
    }
  }

  lemma EmptyMeansNoneFree(heads: seq<nat>, next: map<Page, nat>, lists: Lists, owner: Owners)
    requires Inv(heads, next, lists, owner) && forall k :: 0 <= k <= MAX_ORDER ==> lists[k] == []
    ensures forall p :: StatusOf(owner, p) != IsFree
  {
    forall p ensures StatusOf(owner, p) != IsFree { assert PageInv(owner, lists, p); }
  }

  /** The search saw high pages only: as many as it may try, or all the free pages there were. */
  ghost predicate FoundOnlyHigh(owner: Owners, rejects: seq<Page>) {
    && WereFree(owner, rejects) && (forall i :: 0 <= i < |rejects| ==> rejects[i] >= LOW_4G_PAGES)
    && (|rejects| == MAX_LOW_FRAME_TRIES || forall p :: StatusOf(owner, p) == IsFree ==> p in rejects)
  }

  /** The block is the first of the smallest order that has any. */
  predicate IsSource(lists: Lists, order: nat, source: int, b: Page) {
    && order <= source < |lists| && lists[source] != [] && lists[source][0] == b
    && forall k :: order <= k < source ==> lists[k] == []
  }

  /** The block left its list, its upper halves are alone on the lists below, and no other list changed. */
  predicate IsCut(before: Lists, after: Lists, order: nat, source: int, b: Page) {
    && |after| == |before| && order <= source < |before| && before[source] == [b] + after[source]
    && (forall k: nat :: order <= k < source ==> after[k] == [b + Size(k)])
    && (forall k: nat :: k < |before| && !(order <= k <= source) ==> after[k] == before[k])
  }

  /** Distinct single pages that were free. */
  ghost predicate WereFree(owner: Owners, pages: seq<Page>) {
    && (forall i :: 0 <= i < |pages| ==> IsBlock(pages[i], 0) && StatusOf(owner, pages[i]) == IsFree)
    && (forall i, j :: 0 <= i < j < |pages| ==> pages[i] != pages[j])
  }
}

/** The kernel's frame allocator: the node behind its lock, and the bitmap that checks every hand-out. */
module FrameAllocator {
  import opened Bits
  import opened Common
  import opened BuddySpec
  import opened BuddyRegions
  import opened BuddyAllocator

  const TRACK_PAGES: nat := 524288
  const TRACK_WORDS: nat := TRACK_PAGES / 64

  class Frames {
    const node: BuddyNode
    const words: array<nat>

    ghost predicate Tracked(p: nat)
      requires p < TRACK_PAGES && words.Length == TRACK_WORDS
      reads words
    {
      Bit(words[p / 64], p % 64)
    }

    /** A tracked page's bit is set exactly while the page is handed out. */
    ghost predicate Valid()
      reads this, node, words
    {
      && node.Valid() && words.Length == TRACK_WORDS
      && (forall w :: 0 <= w < TRACK_WORDS ==> words[w] < TWO_64)
      && forall p: nat :: p < TRACK_PAGES ==> (Tracked(p) <==> StatusOf(node.owner, p) == IsHeld)
    }

    constructor (node: BuddyNode)
      requires node.Valid() && forall p :: StatusOf(node.owner, p) != IsHeld
      ensures Valid() && this.node == node && fresh(words)
    {
      this.node := node;
      words := new nat[TRACK_WORDS](_ => 0);
      new;
      forall p: nat | p < TRACK_PAGES ensures !Tracked(p) { BitOfZero(p % 64); }
    }

    /** Sets one page's bit; the bit was clear. */
    method TrackPage(p: nat)
      requires words.Length == TRACK_WORDS && (forall w :: 0 <= w < TRACK_WORDS ==> words[w] < TWO_64)
      requires p < TRACK_PAGES ==> !Tracked(p)
      modifies words
      ensures forall w :: 0 <= w < TRACK_WORDS ==> words[w] < TWO_64
      ensures forall q: nat :: q < TRACK_PAGES ==> (Tracked(q) <==> q == p || old(Tracked(q)))
    {
      if p >= TRACK_PAGES { return; }
      var prev := words[p / 64];
      words[p / 64] := Or(prev, Pow2(p % 64));
      SetBitFits(prev, p % 64);
      BitTest(prev, p % 64);
      assert And(prev, Pow2(p % 64)) == 0;
      forall q: nat | q < TRACK_PAGES ensures Tracked(q) <==> q == p || old(Tracked(q)) {
        BitOfOr(prev, Pow2(p % 64), q % 64);
        BitOfPow2(p % 64, q % 64);
      }
    }

    /** Sets the bits of a block; no page of it was handed out before. */
    method TrackAlloc(b: nat, order: nat)
      requires words.Length == TRACK_WORDS && (forall w :: 0 <= w < TRACK_WORDS ==> words[w] < TWO_64)
      requires forall p: nat :: p < TRACK_PAGES && b <= p < b + Size(order) ==> !Tracked(p)
      modifies words
      ensures forall w :: 0 <= w < TRACK_WORDS ==> words[w] < TWO_64
      ensures forall q: nat :: q < TRACK_PAGES ==> (Tracked(q) <==> b <= q < b + Size(order) || old(Tracked(q)))
    {
      var i := 0;
      while i < Size(order)
        invariant 0 <= i <= Size(order)
        invariant forall w :: 0 <= w < TRACK_WORDS ==> words[w] < TWO_64
        invariant forall q: nat :: q < TRACK_PAGES ==> (Tracked(q) <==> b <= q < b + i || old(Tracked(q)))
      {
        TrackPage(b + i);
        i := i + 1;
      }
    }

    /** Clears one page's bit; the bit was set. */
    method TrackFree(p: nat)
      requires words.Length == TRACK_WORDS && (forall w :: 0 <= w < TRACK_WORDS ==> words[w] < TWO_64)
      requires p < TRACK_PAGES ==> Tracked(p)
      modifies words
      ensures forall w :: 0 <= w < TRACK_WORDS ==> words[w] < TWO_64
      ensures forall q: nat :: q < TRACK_PAGES ==> (Tracked(q) <==> q != p && old(Tracked(q)))
    {
      if p >= TRACK_PAGES { return; }
      var prev := words[p / 64];
      BitMaskFits(p % 64);
      words[p / 64] := And(prev, TWO_64 - 1 - Pow2(p % 64));
      AndBound(prev, TWO_64 - 1 - Pow2(p % 64));
      BitTest(prev, p % 64);
      assert And(prev, Pow2(p % 64)) != 0;
      forall q: nat | q < TRACK_PAGES ensures Tracked(q) <==> q != p && old(Tracked(q)) {
        BitOfAnd(prev, TWO_64 - 1 - Pow2(p % 64), q % 64);
        BitOfMask(p % 64, q % 64);
      }
    }

    /** A block; the kernel stops when there is none. */
    method AllocOrder(order: nat) returns (r: Option<Page>)
      requires Valid()
      modifies node, words
      ensures Valid()
      ensures r.None? ==> node.owner == old(node.owner) && forall k :: order <= k <= MAX_ORDER ==> node.lists[k] == []
      ensures r.Some? ==>
        && IsBlock(r.value, order)
        && AllAre(old(node.owner), r.value, r.value + Size(order), IsFree)
        && Turned(old(node.owner), node.owner, r.value, r.value + Size(order), IsHeld)
        && exists source ::
             && IsSource(old(node.lists), order, source, r.value)
             && IsCut(old(node.lists), node.lists, order, source, r.value)
    {
      r := node.AllocOrder(order);
      if r.None? { return; }
      forall p: nat | p < TRACK_PAGES && r.value <= p < r.value + Size(order) ensures !Tracked(p) {
        assert StatusOf(old(node.owner), p) == IsFree;
      }
      TrackAlloc(r.value, order);
    }

    method AllocFrameBelow4g() returns (r: Option<Page>, ghost rejects: seq<Page>)
      requires Valid()
      modifies node, words
      ensures Valid()
      ensures r.None? ==> forall p :: StatusOf(node.owner, p) == StatusOf(old(node.owner), p)
      ensures r.None? ==> FoundOnlyHigh(old(node.owner), rejects)
      ensures r.Some? ==>
        && 0 < r.value < LOW_4G_PAGES && StatusOf(old(node.owner), r.value) == IsFree
        && Turned(old(node.owner), node.owner, r.value, r.value + 1, IsHeld)
    {
      r, rejects := node.AllocFrameBelow4g();
      if r.None? { return; }
      assert Size(0) == 1;
      TrackAlloc(r.value, 0);
    }

    /** Frees one page that was handed out, alone or as part of a block. */
    method FreeFrame(p: nat)
      requires Valid() && StatusOf(node.owner, p) == IsHeld
      modifies node, words
      ensures Valid() && Turned(old(node.owner), node.owner, p, p + 1, IsFree)
      ensures node.lists == old(node.lists)[0 := [p] + old(node.lists)[0]]
    {
      TrackFree(p);
      assert Size(0) == 1;
      node.FreeOrder(p, 0);
    }
  }

  lemma BitTest(word: nat, i: nat)
    ensures And(word, Pow2(i)) != 0 <==> Bit(word, i)
  {
    AndPow2(word, i);
  }

  lemma SetBitFits(word: nat, i: nat)
    requires word < TWO_64 && i < 64
    ensures Or(word, Pow2(i)) < TWO_64
  {
    var k: nat := 64;
    Pow2Values();
    Pow2Monotone(i, 63);
    OrBound(word, Pow2(i), k);
  }

  lemma BitMaskFits(i: nat)
    requires i < 64
    ensures Pow2(i) < TWO_64
  {
    Pow2Values();
    Pow2Monotone(i, 63);
  }

  lemma BitOfMask(i: nat, j: nat)
    requires i < 64 && j < 64
    ensures Pow2(i) < TWO_64 && (Bit(TWO_64 - 1 - Pow2(i), j) <==> j != i)
  {
    var k: nat := 64;
    Pow2Values();
    BitMaskFits(i);
    BitOfNot(Pow2(i), k, j);
    BitOfPow2(i, j);
  }
}
