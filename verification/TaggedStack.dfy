/**
 The tagged lock-free stack: a machine whose steps are the atomic operations of
 `push` and `pop`, the accesses to a node's `next` field, and everything that the
 owner of a popped node may do with it.
 */
module TaggedStack {
  import opened Bits

  type Tid = int
  type Ptr = nat

  const NULL: Ptr := 0

  /** The head word: the tag in the high half, the pointer in the low half. */
  function Pack(p: Ptr, tag: nat): nat {
    Or(tag * TWO_64, p)
  }

  function PtrOf(word: nat): Ptr {
    word % TWO_64
  }

  function TagOf(word: nat): nat {
    word / TWO_64
  }

  lemma PackIsSum(p: Ptr, tag: nat)
    requires p < TWO_64
    ensures Pack(p, tag) == tag * TWO_64 + p
  {
    var k: nat := 64;
    Pow2Values();
    OrDisjoint(tag, p, k);
  }

  /** Packing loses nothing, so distinct tags give distinct words. */
  lemma PackUnpack(p: Ptr, tag: nat)
    requires p < TWO_64
    ensures PtrOf(Pack(p, tag)) == p && TagOf(Pack(p, tag)) == tag
  {
    PackIsSum(p, tag);
  }

  lemma UnpackPack(word: nat)
    ensures Pack(PtrOf(word), TagOf(word)) == word
  {
    PackIsSum(PtrOf(word), TagOf(word));
  }

  /** Where a thread is; between calls, `ret` is the pointer that its last `pop` returned. */
  datatype Thread =
    | Idle(ret: Ptr)
    | PushStart(node: Ptr)
    | PushLoaded(node: Ptr, cur: nat)
    | PushLinked(node: Ptr, cur: nat)
    | PopStart
    | PopLoaded(cur: nat)
    | PopRead(cur: nat, nx: Ptr)

  /** `next` is the memory of the nodes; `owned` says which nodes each thread holds. */
  datatype State = State(head: nat, next: map<Ptr, Ptr>, threads: map<Tid, Thread>, owned: map<Tid, set<Ptr>>)

  datatype Label =
    | BeginPush(t: Tid, n: Ptr)
    | PushLoad(t: Tid)
    | PushLink(t: Tid)
    | PushCas(t: Tid)
    | BeginPop(t: Tid)
    | PopLoad(t: Tid)
    | PopReadNext(t: Tid)
    | PopCas(t: Tid)
    | Overwrite(t: Tid, n: Ptr, word: nat)
    | HandOver(t: Tid, to: Tid, n: Ptr)

  predicate At(s: State, t: Tid) {
    t in s.threads && t in s.owned
  }

  predicate Owns(s: State, t: Tid, n: Ptr) {
    t in s.owned && n in s.owned[t]
  }

  function Move(s: State, t: Tid, pc: Thread): State {
    s.(threads := s.threads[t := pc])
  }

  /**
   The caller of `push` owns the node. A successful exchange finds a tag that can still grow.
   The owner of a node may write anything into it and may pass it on.
   */
  predicate Enabled(s: State, l: Label) {
    At(s, l.t) &&
    match l
    case BeginPush(t, n) => s.threads[t].Idle? && n in s.owned[t]
    case PushLoad(t) => s.threads[t].PushStart?
    case PushLink(t) => s.threads[t].PushLoaded?
    case PushCas(t) => s.threads[t].PushLinked? && (s.threads[t].cur == s.head ==> TagOf(s.head) + 1 < TWO_64)
    case BeginPop(t) => s.threads[t].Idle?
    case PopLoad(t) => s.threads[t].PopStart?
    case PopReadNext(t) => s.threads[t].PopLoaded? && PtrOf(s.threads[t].cur) in s.next
    case PopCas(t) => s.threads[t].PopRead? && (s.threads[t].cur == s.head ==> TagOf(s.head) + 1 < TWO_64)
    case Overwrite(t, n, word) => s.threads[t].Idle? && n in s.owned[t] && word < TWO_64
    case HandOver(t, to, n) => s.threads[t].Idle? && n in s.owned[t] && to in s.owned && to != t
  }

  function DoPushLink(s: State, t: Tid): State
    requires At(s, t) && s.threads[t].PushLoaded?
  {
    var pc := s.threads[t];
    Move(s, t, PushLinked(pc.node, pc.cur)).(next := s.next[pc.node := PtrOf(pc.cur)])
  }

  function DoPushCas(s: State, t: Tid): State
    requires At(s, t) && s.threads[t].PushLinked?
  {
    var pc := s.threads[t];
    if pc.cur == s.head then
      Move(s, t, Idle(NULL)).(
        head := Pack(pc.node, (TagOf(pc.cur) + 1) % TWO_64),
        owned := s.owned[t := s.owned[t] - {pc.node}])
    else
      Move(s, t, PushStart(pc.node))
  }

  function DoPopLoad(s: State, t: Tid): State {
    Move(s, t, if PtrOf(s.head) == NULL then Idle(NULL) else PopLoaded(s.head))
  }

  function DoPopReadNext(s: State, t: Tid): State
    requires At(s, t) && s.threads[t].PopLoaded? && PtrOf(s.threads[t].cur) in s.next
  {
    Move(s, t, PopRead(s.threads[t].cur, s.next[PtrOf(s.threads[t].cur)]))
  }

  function DoPopCas(s: State, t: Tid): State
    requires At(s, t) && s.threads[t].PopRead?
  {
    var pc := s.threads[t];
    if pc.cur == s.head then
      Move(s, t, Idle(PtrOf(pc.cur))).(
        head := Pack(pc.nx, (TagOf(pc.cur) + 1) % TWO_64),
        owned := s.owned[t := s.owned[t] + {PtrOf(pc.cur)}])
    else
      Move(s, t, PopStart)
  }

  function DoHandOver(s: State, t: Tid, to: Tid, n: Ptr): State
    requires t in s.owned && to in s.owned && t != to
  {
    s.(owned := s.owned[t := s.owned[t] - {n}][to := s.owned[to] + {n}])
  }

  function Next(s: State, l: Label): State
    requires Enabled(s, l)
  {
    match l
    case BeginPush(t, n) => Move(s, t, PushStart(n))
    case PushLoad(t) => Move(s, t, PushLoaded(s.threads[t].node, s.head))
    case PushLink(t) => DoPushLink(s, t)
    case PushCas(t) => DoPushCas(s, t)
    case BeginPop(t) => Move(s, t, PopStart)
    case PopLoad(t) => DoPopLoad(s, t)
    case PopReadNext(t) => DoPopReadNext(s, t)
    case PopCas(t) => DoPopCas(s, t)
    case Overwrite(t, n, word) => s.(next := s.next[n := word])
    case HandOver(t, to, n) => DoHandOver(s, t, to, n)
  }

  // The abstract stack

  datatype Op = None | Push(n: Ptr) | Pop(n: Ptr)

  /** What a step means to a caller: the returned pointer is null when the stack is empty. */
  function Effect(s: State, l: Label): Op
    requires Enabled(s, l)
  {
    match l
    case PushCas(t) => if s.threads[t].cur == s.head then Push(s.threads[t].node) else None
    case PopLoad(t) => if PtrOf(s.head) == NULL then Pop(NULL) else None
    case PopCas(t) => if s.threads[t].cur == s.head then Pop(PtrOf(s.threads[t].cur)) else None
    case _ => None
  }

  predicate SpecStep(stk: seq<Ptr>, op: Op, stk': seq<Ptr>) {
    match op
    case None => stk' == stk
    case Push(n) => stk' == [n] + stk
    case Pop(n) => if n == NULL then stk == [] && stk' == [] else stk == [n] + stk'
  }

  // Invariants

  function First(stk: seq<Ptr>): Ptr {
    if stk == [] then NULL else stk[0]
  }

  ghost predicate ChainInv(s: State, stk: seq<Ptr>) {
    && PtrOf(s.head) == First(stk)
    && TagOf(s.head) < TWO_64
    && (forall i :: 0 <= i < |stk| ==> IsNode(s, stk[i]) && s.next[stk[i]] == First(stk[i + 1..]))
    && (forall i, j :: 0 <= i < j < |stk| ==> stk[i] != stk[j])
  }

  predicate IsNode(s: State, n: Ptr) {
    n in s.next && n != NULL && n < TWO_64 && s.next[n] < TWO_64
  }

  /** An owned node is off the stack and has no other owner. */
  ghost predicate OwnedInv(s: State, stk: seq<Ptr>, t: Tid, n: Ptr) {
    Owns(s, t, n) ==> IsNode(s, n) && n !in stk && (forall u :: u != t ==> !Owns(s, u, n))
  }

  /** A loaded head word is the current one, or its tag is behind. */
  predicate SeenInv(s: State, cur: nat) {
    TagOf(cur) <= TagOf(s.head) && (TagOf(cur) == TagOf(s.head) ==> cur == s.head)
  }

  ghost predicate ThreadInv(s: State, t: Tid) {
    At(s, t) ==>
      match s.threads[t]
      case Idle(_) => true
      case PushStart(n) => n in s.owned[t]
      case PushLoaded(n, cur) => n in s.owned[t] && SeenInv(s, cur)
      case PushLinked(n, cur) => n in s.owned[t] && SeenInv(s, cur) && n in s.next && s.next[n] == PtrOf(cur)
      case PopStart => true
      case PopLoaded(cur) => SeenInv(s, cur) && IsNode(s, PtrOf(cur))
      case PopRead(cur, nx) => SeenInv(s, cur) && IsNode(s, PtrOf(cur)) && (cur == s.head ==> nx == s.next[PtrOf(cur)])
  }

  ghost predicate Inv(s: State, stk: seq<Ptr>) {
    && s.threads.Keys == s.owned.Keys
    && ChainInv(s, stk)
    && (forall t, n :: OwnedInv(s, stk, t, n))
    && (forall t :: ThreadInv(s, t))
  }

  // Each step keeps the invariant and is a step of the abstract stack

  lemma MoveKeepsInv(s: State, stk: seq<Ptr>, t: Tid, pc: Thread)
    requires Inv(s, stk) && At(s, t) && ThreadInv(Move(s, t, pc), t)
    ensures Inv(Move(s, t, pc), stk)
  {
    var s' := Move(s, t, pc);
    assert forall u, m :: Owns(s', u, m) <==> Owns(s, u, m);
    forall u, n ensures OwnedInv(s', stk, u, n) { assert OwnedInv(s, stk, u, n); }
    forall u ensures ThreadInv(s', u) { assert ThreadInv(s, u); }
  }

  lemma PopLoadRefines(s: State, stk: seq<Ptr>, t: Tid)
    requires Inv(s, stk) && At(s, t) && s.threads[t].PopStart?
    ensures Inv(DoPopLoad(s, t), stk)
    ensures PtrOf(s.head) == NULL <==> stk == []
  {
    if PtrOf(s.head) != NULL { assert stk[0] == PtrOf(s.head); }
    MoveKeepsInv(s, stk, t, if PtrOf(s.head) == NULL then Idle(NULL) else PopLoaded(s.head));
  }

  /** The owner of a node writes its link. */
  lemma WriteKeepsInv(s: State, stk: seq<Ptr>, t: Tid, n: Ptr, word: nat)
    requires Inv(s, stk) && Owns(s, t, n) && word < TWO_64
    requires t in s.threads && s.threads[t].PushLinked? ==> s.threads[t].node != n
    ensures Inv(s.(next := s.next[n := word]), stk)
  {
    var s' := s.(next := s.next[n := word]);
    assert OwnedInv(s, stk, t, n);
    assert forall u, m :: Owns(s', u, m) <==> Owns(s, u, m);
    forall u, m ensures OwnedInv(s', stk, u, m) { assert OwnedInv(s, stk, u, m); }
    forall u ensures ThreadInv(s', u) {
      assert ThreadInv(s, u);
      assert u != t ==> !Owns(s, u, n);
      if At(s, u) && s.threads[u].PopRead? && s.threads[u].cur == s.head {
        assert PtrOf(s.head) == stk[0];
      }
    }
  }

  lemma PushLinkKeepsInv(s: State, stk: seq<Ptr>, t: Tid)
    requires Inv(s, stk) && At(s, t) && s.threads[t].PushLoaded?
    ensures Inv(DoPushLink(s, t), stk)
  {
    var pc := s.threads[t];
    assert ThreadInv(s, t);
    WriteKeepsInv(s, stk, t, pc.node, PtrOf(pc.cur));
    MoveKeepsInv(s.(next := s.next[pc.node := PtrOf(pc.cur)]), stk, t, PushLinked(pc.node, pc.cur));
  }

  /** Exchanging the head raises the tag, so every other thread's loaded word is stale from then on. */
  lemma SwapKeepsOthers(s: State, s': State, t: Tid, p: Ptr)
    requires forall u :: ThreadInv(s, u)
    requires s'.head == Pack(p, TagOf(s.head) + 1) && p < TWO_64
    requires s'.next == s.next && t in s'.threads && s'.threads == s.threads[t := s'.threads[t]] && s'.threads[t].Idle?
    requires forall u :: u != t && u in s'.owned ==> u in s.owned && s'.owned[u] == s.owned[u]
    ensures forall u :: ThreadInv(s', u)
  {
    PackUnpack(p, TagOf(s.head) + 1);
    forall u ensures ThreadInv(s', u) { assert ThreadInv(s, u); }
  }

  lemma PushCasRefines(s: State, stk: seq<Ptr>, t: Tid)
    requires Inv(s, stk) && At(s, t) && s.threads[t].PushLinked? && s.threads[t].cur == s.head
    requires TagOf(s.head) + 1 < TWO_64
    ensures Inv(DoPushCas(s, t), [s.threads[t].node] + stk)
  {
    var s' := DoPushCas(s, t);
    var n := s.threads[t].node;
    var stk' := [n] + stk;
    assert ThreadInv(s, t);
    assert OwnedInv(s, stk, t, n);
    SwapKeepsOthers(s, s', t, n);
    PackUnpack(n, TagOf(s.head) + 1);
    forall i | 0 <= i < |stk'| ensures IsNode(s', stk'[i]) && s'.next[stk'[i]] == First(stk'[i + 1..]) {
      if i == 0 {
        assert stk'[1..] == stk;
      } else {
        assert stk'[i] == stk[i - 1] && stk'[i + 1..] == stk[i..];
      }
    }
    assert forall u, m :: Owns(s', u, m) <==> Owns(s, u, m) && !(u == t && m == n);
    forall u, m ensures OwnedInv(s', stk', u, m) { assert OwnedInv(s, stk, u, m); }
  }

  lemma PopCasRefines(s: State, stk: seq<Ptr>, t: Tid)
    requires Inv(s, stk) && At(s, t) && s.threads[t].PopRead? && s.threads[t].cur == s.head
    requires TagOf(s.head) + 1 < TWO_64
    ensures |stk| > 0 && stk[0] == PtrOf(s.head) != NULL
    ensures Inv(DoPopCas(s, t), stk[1..])
  {
    assert ThreadInv(s, t);
    var s' := DoPopCas(s, t);
    var stk' := stk[1..];
    var n := PtrOf(s.head);
    assert stk == [n] + stk';
    assert IsNode(s, stk[0]) && s.next[stk[0]] == First(stk[1..]);
    SwapKeepsOthers(s, s', t, s.threads[t].nx);
    PackUnpack(s.threads[t].nx, TagOf(s.head) + 1);
    forall i | 0 <= i < |stk'| ensures IsNode(s', stk'[i]) && s'.next[stk'[i]] == First(stk'[i + 1..]) {
      assert stk'[i] == stk[i + 1] && stk'[i + 1..] == stk[i + 2..];
    }
    forall u ensures !Owns(s, u, n) { assert OwnedInv(s, stk, u, n); }
    assert forall u, m :: Owns(s', u, m) <==> Owns(s, u, m) || (u == t && m == n);
    forall u, m ensures OwnedInv(s', stk', u, m) { assert OwnedInv(s, stk, u, m); }
  }

  lemma HandOverKeepsInv(s: State, stk: seq<Ptr>, t: Tid, to: Tid, n: Ptr)
    requires Inv(s, stk) && At(s, t) && s.threads[t].Idle? && n in s.owned[t] && to in s.owned && to != t
    ensures Inv(DoHandOver(s, t, to, n), stk)
  {
    var s' := DoHandOver(s, t, to, n);
    assert OwnedInv(s, stk, t, n);
    forall u, m ensures Owns(s', u, m) <==> (m == n && u == to) || (m != n && Owns(s, u, m)) {
      assert u != t ==> !Owns(s, u, n);
    }
    forall u, m ensures OwnedInv(s', stk, u, m) { assert OwnedInv(s, stk, u, m); }
    forall u ensures ThreadInv(s', u) { assert ThreadInv(s, u); }
  }

  /** Every step is a step of the abstract stack, with the same returned node. */
  lemma StepRefines(s: State, stk: seq<Ptr>, l: Label) returns (stk': seq<Ptr>)
    requires Inv(s, stk) && Enabled(s, l)
    ensures Inv(Next(s, l), stk') && SpecStep(stk, Effect(s, l), stk')
  {
    stk' := stk;
    assert ThreadInv(s, l.t);
    match l
    case BeginPush(t, n) => MoveKeepsInv(s, stk, t, PushStart(n));
    case PushLoad(t) => MoveKeepsInv(s, stk, t, PushLoaded(s.threads[t].node, s.head));
    case PushLink(t) => PushLinkKeepsInv(s, stk, t);
    case PushCas(t) =>
      if s.threads[t].cur == s.head {
        PushCasRefines(s, stk, t);
        stk' := [s.threads[t].node] + stk;
      } else {
        MoveKeepsInv(s, stk, t, PushStart(s.threads[t].node));
      }
    case BeginPop(t) => MoveKeepsInv(s, stk, t, PopStart);
    case PopLoad(t) => PopLoadRefines(s, stk, t);
    case PopReadNext(t) => MoveKeepsInv(s, stk, t, PopRead(s.threads[t].cur, s.next[PtrOf(s.threads[t].cur)]));
    case PopCas(t) =>
      if s.threads[t].cur == s.head {
        PopCasRefines(s, stk, t);
        stk' := stk[1..];
      } else {
        MoveKeepsInv(s, stk, t, PopStart);
      }
    case Overwrite(t, n, word) => WriteKeepsInv(s, stk, t, n, word);
    case HandOver(t, to, n) => HandOverKeepsInv(s, stk, t, to, n);
  }

  // Runs

  /** The stack is empty and each node is owned by one thread. */
  ghost predicate Init(s: State) {
    && s.head == 0 && s.threads.Keys == s.owned.Keys
    && (forall t :: t in s.threads ==> s.threads[t].Idle?)
    && (forall t, n :: OwnedInv(s, [], t, n))
  }

  ghost predicate IsRun(states: seq<State>, labels: seq<Label>) {
    && |states| == |labels| + 1
    && Init(states[0])
    && (forall i :: 0 <= i < |labels| ==> IsStep(states[i], labels[i], states[i + 1]))
  }

  predicate IsStep(s: State, l: Label, s': State) {
    Enabled(s, l) && s' == Next(s, l)
  }

  /** `stacks` is a run of the abstract stack that does the operations of the concrete run at its exchanges. */
  ghost predicate Linearizes(states: seq<State>, labels: seq<Label>, stacks: seq<seq<Ptr>>, k: nat)
    requires IsRun(states, labels) && k <= |labels|
  {
    && |stacks| == k + 1
    && stacks[0] == []
    && (forall i :: 0 <= i < k ==>
          IsStep(states[i], labels[i], states[i + 1])
          && SpecStep(stacks[i], Effect(states[i], labels[i]), stacks[i + 1]))
    && (forall i :: 0 <= i <= k ==> Inv(states[i], stacks[i]))
  }

  /** Every run has a linearization to a last-in first-out stack. */
  lemma {:induction false} Linearizable(states: seq<State>, labels: seq<Label>, k: nat) returns (stacks: seq<seq<Ptr>>)
    requires IsRun(states, labels) && k <= |labels|
    ensures Linearizes(states, labels, stacks, k)
  {
    if k == 0 {
      stacks := [[]];
      assert PtrOf(0) == 0 && TagOf(0) == 0;
    } else {
      var before := Linearizable(states, labels, k - 1);
      assert IsStep(states[k - 1], labels[k - 1], states[k]);
      var stk' := StepRefines(states[k - 1], before[k - 1], labels[k - 1]);
      stacks := before + [stk'];
    }
  }

  /** No node is ever owned by two threads, and no owned node is reachable from the head. */
  lemma OneOwner(states: seq<State>, labels: seq<Label>, k: nat, t: Tid, u: Tid, n: Ptr)
    requires IsRun(states, labels) && k < |states|
    requires Owns(states[k], t, n) && Owns(states[k], u, n)
    ensures t == u && PtrOf(states[k].head) != n
  {
    var stacks := Linearizable(states, labels, k);
    assert OwnedInv(states[k], stacks[k], t, n);
  }

  // Calls

  /** The operations on the stack that thread `t` did in the steps from `i` up to `k`. */
  ghost function Ops(states: seq<State>, labels: seq<Label>, t: Tid, i: nat, k: nat): seq<Op>
    requires IsRun(states, labels) && i <= k <= |labels|
  {
    if k == i then []
    else
      assert IsStep(states[k - 1], labels[k - 1], states[k]);
      var op := Effect(states[k - 1], labels[k - 1]);
      Ops(states, labels, t, i, k - 1) + if labels[k - 1].t == t && op != None then [op] else []
  }

  predicate IsIdle(s: State, t: Tid) {
    At(s, t) && s.threads[t].Idle?
  }

  /** In no state between `i` and `k` is the thread out of the call that it began at `i`. */
  predicate InCall(states: seq<State>, t: Tid, i: nat, k: nat)
    requires k <= |states|
  {
    forall m :: i < m < k ==> !IsIdle(states[m], t)
  }

  predicate IsPushing(pc: Thread, n: Ptr) {
    (pc.PushStart? || pc.PushLoaded? || pc.PushLinked?) && pc.node == n
  }

  predicate IsPopping(pc: Thread) {
    pc.PopStart? || pc.PopLoaded? || pc.PopRead?
  }

  /** Threads do not move each other. */
  lemma OthersStay(s: State, l: Label, t: Tid)
    requires Enabled(s, l) && At(s, t) && l.t != t
    ensures At(Next(s, l), t) && Next(s, l).threads[t] == s.threads[t]
  {
  }

  /** A call of `push` has done nothing until it returns, and then has pushed its node, once. */
  lemma {:induction false} PushProgress(states: seq<State>, labels: seq<Label>, t: Tid, n: Ptr, i: nat, k: nat)
    requires IsRun(states, labels) && i < k <= |labels| && labels[i] == BeginPush(t, n) && InCall(states, t, i, k)
    ensures At(states[k], t)
    ensures IsIdle(states[k], t) ==> Ops(states, labels, t, i, k) == [Push(n)] && !Owns(states[k], t, n)
    ensures !IsIdle(states[k], t) ==> Ops(states, labels, t, i, k) == [] && IsPushing(states[k].threads[t], n)
    decreases k
  {
    assert IsStep(states[k - 1], labels[k - 1], states[k]);
    if k == i + 1 {
      assert Ops(states, labels, t, i, i) == [];
    } else {
      PushProgress(states, labels, t, n, i, k - 1);
      assert !IsIdle(states[k - 1], t);
      if labels[k - 1].t != t { OthersStay(states[k - 1], labels[k - 1], t); }
    }
  }

  /** A call of `pop` has done nothing until it returns, and then has popped what it returns, once. */
  lemma {:induction false} PopProgress(states: seq<State>, labels: seq<Label>, t: Tid, i: nat, k: nat)
    requires IsRun(states, labels) && i < k <= |labels| && labels[i] == BeginPop(t) && InCall(states, t, i, k)
    ensures At(states[k], t)
    ensures IsIdle(states[k], t) ==>
      var n := states[k].threads[t].ret;
      Ops(states, labels, t, i, k) == [Pop(n)] && (n == NULL || Owns(states[k], t, n))
    ensures !IsIdle(states[k], t) ==> Ops(states, labels, t, i, k) == [] && IsPopping(states[k].threads[t])
    decreases k
  {
    assert IsStep(states[k - 1], labels[k - 1], states[k]);
    if k == i + 1 {
      assert Ops(states, labels, t, i, i) == [];
    } else {
      PopProgress(states, labels, t, i, k - 1);
      assert !IsIdle(states[k - 1], t);
      if labels[k - 1].t != t { OthersStay(states[k - 1], labels[k - 1], t); }
    }
  }

  /**
   From the beginning of a call to its return the thread does exactly one operation on the stack: a
   `push` pushes its node, which the caller then no longer owns, and a `pop` pops the node that it
   returns, which the caller then owns.
   */
  lemma CallsTakeEffectOnce(states: seq<State>, labels: seq<Label>, t: Tid, i: nat, k: nat)
    requires IsRun(states, labels) && i < k <= |labels|
    requires (labels[i].BeginPush? || labels[i].BeginPop?) && labels[i].t == t
    requires InCall(states, t, i, k) && IsIdle(states[k], t)
    ensures Ops(states, labels, t, i, k) ==
      [if labels[i].BeginPush? then Push(labels[i].n) else Pop(states[k].threads[t].ret)]
    ensures labels[i].BeginPush? ==> !Owns(states[k], t, labels[i].n)
    ensures labels[i].BeginPop? && states[k].threads[t].ret != NULL ==> Owns(states[k], t, states[k].threads[t].ret)
  {
    if labels[i].BeginPush? {
      PushProgress(states, labels, t, labels[i].n, i, k);
    } else {
      PopProgress(states, labels, t, i, k);
    }
  }
}
